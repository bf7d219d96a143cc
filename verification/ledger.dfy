/**
  The account book as a value: who is linked, who was removed, and who vouches for
  whom. Membership is a chain of vouchers that starts at this device.
 */
module Ledger {
  import opened Common
  import opened Vouchers

  /** Ten years in milliseconds: only absurd times are clamped. */
  const SKEW_MS: U64 := 315_360_000_000

  datatype PendingDevice = PendingDevice(name: string, at: U64)

  datatype BookState = BookState(
    linked: map<Device, U64>,
    removedDevices: map<Device, U64>,
    removedFriends: map<Device, U64>,
    linkProofs: map<Device, seq<Stamp>>,
    proofsV: nat,
    me: Device,
    removalProofs: map<Device, Stamp>,
    pending: map<Device, PendingDevice>)

  const EMPTY_BOOK := BookState(map[], map[], map[], map[], 0, "", map[], map[])

  function TimeOf(m: map<Device, U64>, d: Device): U64 {
    if d in m then m[d] else 0
  }

  function VouchersOf(b: BookState, d: Device): seq<Stamp> {
    if d in b.linkProofs then b.linkProofs[d] else []
  }

  /** Put out by a removal that no later link has undone. */
  predicate IsRemoved(b: BookState, d: Device) {
    d in b.removedDevices && b.removedDevices[d] >= TimeOf(b.linked, d)
  }

  /** Each device on the path vouches for the next, this device comes first, and none was put out. */
  ghost predicate Chain(b: BookState, path: seq<Device>) {
    && path != [] && path[0] == b.me && b.me != ""
    && (forall i :: 0 <= i < |path| ==> !IsRemoved(b, path[i]))
    && (forall i :: 0 < i < |path| ==> SignedBy(VouchersOf(b, path[i]), path[i - 1]))
  }

  ghost predicate EndsAt(path: seq<Device>, d: Device) {
    path != [] && path[|path| - 1] == d
  }

  ghost predicate Reachable(b: BookState, d: Device) {
    exists path :: Chain(b, path) && EndsAt(path, d)
  }

  ghost function Members(b: BookState): set<Device> {
    set d | d in b.linkProofs.Keys + {b.me} && Reachable(b, d)
  }

  ghost predicate IsMember(b: BookState, d: Device) {
    && !IsRemoved(b, d)
    && (b.proofsV == 0
        || (if b.me == "" then VouchersOf(b, d) != [] else Reachable(b, d)))
  }

  /** A removed device is no member; before vouchers everyone else is, and a nameless book goes by any voucher. */
  lemma RemovedIsOut(b: BookState, d: Device)
    ensures IsMember(b, d) ==> !IsRemoved(b, d)
    ensures b.proofsV == 0 && !IsRemoved(b, d) ==> IsMember(b, d)
    ensures b.proofsV != 0 && b.me == "" && !IsRemoved(b, d) ==> (IsMember(b, d) <==> VouchersOf(b, d) != [])
    ensures b.proofsV != 0 && b.me != "" ==> (IsMember(b, d) <==> Reachable(b, d))
  {
    if Reachable(b, d) {
      var path :| Chain(b, path) && EndsAt(path, d);
      assert !IsRemoved(b, path[|path| - 1]);
    }
  }

  // ---------- membership is a least fixpoint ----------

  lemma RootReachable(b: BookState)
    requires b.me != "" && !IsRemoved(b, b.me)
    ensures Reachable(b, b.me)
  {
    assert Chain(b, [b.me]) && EndsAt([b.me], b.me);
  }

  lemma ReachableStep(b: BookState, who: Device, d: Device)
    requires Reachable(b, who) && SignedBy(VouchersOf(b, d), who) && !IsRemoved(b, d)
    ensures Reachable(b, d)
  {
    var path :| Chain(b, path) && EndsAt(path, who);
    assert Chain(b, path + [d]) && EndsAt(path + [d], d);
  }

  /** Whatever set holds this device and is closed under vouching holds every member. */
  lemma ReachableIsLeast(b: BookState, d: Device, s: iset<Device>)
    requires Reachable(b, d)
    requires b.me in s
    requires forall x, y :: x in s && SignedBy(VouchersOf(b, y), x) && !IsRemoved(b, y) ==> y in s
    ensures d in s
  {
    var path :| Chain(b, path) && EndsAt(path, d);
    ChainStaysIn(b, path, s);
  }

  lemma {:induction false} ChainStaysIn(b: BookState, path: seq<Device>, s: iset<Device>)
    requires Chain(b, path)
    requires b.me in s
    requires forall x, y :: x in s && SignedBy(VouchersOf(b, y), x) && !IsRemoved(b, y) ==> y in s
    ensures path[|path| - 1] in s
  {
    if |path| > 1 {
      var init := path[..|path| - 1];
      ChainStaysIn(b, init, s);
      assert SignedBy(VouchersOf(b, path[|path| - 1]), path[|path| - 2]);
    }
  }

  lemma MembersAreReachable(b: BookState)
    ensures forall d :: d in Members(b) <==> Reachable(b, d)
  {
    forall d | Reachable(b, d) ensures d in b.linkProofs.Keys + {b.me} {
      var path :| Chain(b, path) && EndsAt(path, d);
      if |path| > 1 {
        assert SignedBy(VouchersOf(b, path[|path| - 1]), path[|path| - 2]);
      }
    }
  }

  /**
    `members()`: exactly the devices a chain reaches, and the smallest set that holds
    this device and is closed under vouching.
   */
  lemma MembersIsLeastFixpoint(b: BookState, s: set<Device>)
    requires b.me != "" && !IsRemoved(b, b.me) ==> b.me in s
    requires forall x, y :: x in s && SignedBy(VouchersOf(b, y), x) && !IsRemoved(b, y) ==> y in s
    ensures Members(b) <= s
    ensures forall d :: d in Members(b) <==> Reachable(b, d)
    ensures forall x, y :: x in Members(b) && SignedBy(VouchersOf(b, y), x) && !IsRemoved(b, y) ==> y in Members(b)
  {
    MembersAreReachable(b);
    forall d | Reachable(b, d) ensures d in s {
      var path :| Chain(b, path) && EndsAt(path, d);
      assert !IsRemoved(b, path[0]);
      ReachableIsLeast(b, d, iset x | x in s);
    }
    forall x, y | x in Members(b) && SignedBy(VouchersOf(b, y), x) && !IsRemoved(b, y)
      ensures y in Members(b)
    {
      ReachableStep(b, x, y);
    }
  }

  /** More vouchers and fewer removals never lose a member. */
  lemma MembershipGrows(b: BookState, b': BookState, d: Device)
    requires b'.me == b.me && b'.proofsV == b.proofsV
    requires forall x :: IsRemoved(b', x) ==> IsRemoved(b, x)
    requires forall x, y :: SignedBy(VouchersOf(b, y), x) ==> SignedBy(VouchersOf(b', y), x)
    requires IsMember(b, d)
    ensures IsMember(b', d)
  {
    if b.proofsV != 0 && b.me == "" {
      var c := VouchersOf(b, d)[0];
      assert SignedBy(VouchersOf(b, d), c.signer);
    } else if b.proofsV != 0 {
      var path :| Chain(b, path) && EndsAt(path, d);
      assert Chain(b', path);
    }
  }

  /** Two books that keep the same, each of its own device. */
  ghost predicate SameRecords(b: BookState, c: BookState) {
    && c.linked == b.linked && c.removedDevices == b.removedDevices
    && c.linkProofs == b.linkProofs && c.proofsV == b.proofsV
  }

  lemma ReachedFromThere(b: BookState, c: BookState, d: Device)
    requires SameRecords(b, c) && Reachable(b, c.me) && Reachable(c, d)
    ensures Reachable(b, d)
  {
    var s := iset x | Reachable(b, x);
    forall x, y | x in s && SignedBy(VouchersOf(c, y), x) && !IsRemoved(c, y) ensures y in s {
      ReachableStep(b, x, y);
    }
    ReachableIsLeast(c, d, s);
  }

  /**
    Two devices whose books keep the same, each with the other among its members, have the
    same members; where only one has the other, it has all the other has.
   */
  lemma SameRecordsSameMembers(b: BookState, c: BookState, d: Device)
    requires SameRecords(b, c) && b.me != "" && c.me != ""
    ensures IsMember(b, c.me) && IsMember(c, d) ==> IsMember(b, d)
    ensures IsMember(b, c.me) && IsMember(c, b.me) ==> (IsMember(b, d) <==> IsMember(c, d))
  {
    if IsMember(b, c.me) && IsMember(c, d) && b.proofsV != 0 {
      ReachedFromThere(b, c, d);
    }
    if IsMember(c, b.me) && IsMember(b, d) && b.proofsV != 0 {
      ReachedFromThere(c, b, d);
    }
  }

  /** A chain reaches `x` without touching `d`. */
  ghost predicate ReachedAround(b: BookState, d: Device, x: Device) {
    exists path :: Chain(b, path) && EndsAt(path, x) && d !in path
  }

  /** After removing `gone`, the members are those a chain reaches without touching it. */
  lemma RemovalLeavesChainsAround(b: BookState, b': BookState, gone: Device, d: Device)
    requires b'.me == b.me && b'.linkProofs == b.linkProofs && b'.linked == b.linked
    requires forall x :: x != gone ==> (x in b'.removedDevices <==> x in b.removedDevices)
    requires forall x :: x != gone && x in b.removedDevices ==> b'.removedDevices[x] == b.removedDevices[x]
    requires IsRemoved(b', gone)
    ensures Reachable(b', d) <==> ReachedAround(b, gone, d)
  {
    forall x | x != gone ensures IsRemoved(b', x) <==> IsRemoved(b, x) {
    }
    if Reachable(b', d) {
      var path :| Chain(b', path) && EndsAt(path, d);
      assert forall i :: 0 <= i < |path| ==> path[i] != gone;
      assert Chain(b, path) && gone !in path;
    }
    if path :| Chain(b, path) && EndsAt(path, d) && gone !in path {
      assert forall i :: 0 <= i < |path| ==> path[i] in path;
      assert Chain(b', path);
    }
  }
}
