/** What one acceptance into a full list of vouchers may cost: exactly when it keeps every member. */
module MergeLosses {
  import opened Common
  import opened Sorting
  import opened Vouchers
  import opened Ledger
  import opened MergeProofs

  lemma AroundStays(b: BookState, now: U64, e: Entry, path: seq<Device>)
    requires e.eid !in path
    ensures Chain(b, path) <==> Chain(Accept(b, now, e), path)
  {
    AcceptLists(b, now, e);
    forall i | 0 <= i < |path| ensures path[i] != e.eid {
    }
  }

  lemma FirstTouch(b: BookState, path: seq<Device>, d: Device) returns (j: nat)
    requires d in path && Chain(b, path) && d != b.me
    ensures 0 < j < |path| && d !in path[..j] && Chain(b, path[..j]) && SignedBy(VouchersOf(b, d), path[j - 1])
  {
    j := 0;
    while path[j] != d
      invariant j < |path| && d !in path[..j] && d in path[j..]
      decreases |path| - j
    {
      assert path[j..] == [path[j]] + path[j + 1..];
      j := j + 1;
    }
  }

  lemma KeptNeedsWayRound(b: BookState, now: U64, e: Entry)
    requires b.me != "" && b.proofsV != 0 && e.eid != b.me && IsMember(Accept(b, now, e), e.eid)
    ensures exists c :: c in VouchersOf(Accept(b, now, e), e.eid) && ReachedAround(b, e.eid, c.signer)
  {
    var init := LastHop(Accept(b, now, e), e.eid);
    AroundStays(b, now, e, init);
    var c :| c in VouchersOf(Accept(b, now, e), e.eid) && EndsAt(init, c.signer);
    assert ReachedAround(b, e.eid, c.signer);
  }

  /** The way to a member, up to whoever vouches for it. */
  lemma LastHop(r: BookState, d: Device) returns (init: seq<Device>)
    requires d != r.me && Reachable(r, d)
    ensures d !in init && Chain(r, init) && exists c :: c in VouchersOf(r, d) && EndsAt(init, c.signer)
  {
    var path :| Chain(r, path) && EndsAt(path, d);
    var j := FirstTouch(r, path, d);
    init := path[..j];
    var c :| c in VouchersOf(r, d) && c.signer == path[j - 1];
    assert EndsAt(init, c.signer);
  }

  lemma WayRoundKeeps(b: BookState, now: U64, e: Entry, x: Device)
    requires b.me != "" && b.proofsV != 0 && IsMember(b, x)
    requires IsMember(b, e.eid) ==>
               || e.eid == b.me
               || exists c :: c in VouchersOf(Accept(b, now, e), e.eid) && ReachedAround(b, e.eid, c.signer)
    ensures IsMember(Accept(b, now, e), x)
  {
    var r, d := Accept(b, now, e), e.eid;
    AcceptLists(b, now, e);
    forall y ensures !IsRemoved(b, y) ==> !IsRemoved(r, y) {
      assert TimeOf(b.linked, y) <= TimeOf(r.linked, y);
    }
    assert !IsRemoved(b, b.me) by {
      var path :| Chain(b, path) && EndsAt(path, x);
      assert path[0] == b.me;
    }
    RootReachable(b);
    RootReachable(r);
    if IsMember(b, d) && d != b.me {
      var c :| c in VouchersOf(r, d) && ReachedAround(b, d, c.signer);
      var path :| Chain(b, path) && EndsAt(path, c.signer) && d !in path;
      AroundStays(b, now, e, path);
      ReachableStep(r, c.signer, d);
    }
    var s := iset y | Reachable(r, y) && Reachable(b, y);
    forall w, y | w in s && SignedBy(VouchersOf(b, y), w) && !IsRemoved(b, y) ensures y in s {
      ReachableStep(b, w, y);
      if y != d { ReachableStep(r, w, y); }
    }
    ReachableIsLeast(b, x, s);
  }

  /**
    One acceptance, whatever it cuts off, keeps every member exactly when its device was none,
    is this device, or is still vouched for by someone reached without it.
   */
  lemma AcceptKeepsMembersExactly(b: BookState, now: U64, e: Entry)
    requires b.me != "" && b.proofsV != 0
    ensures (forall x :: IsMember(b, x) ==> IsMember(Accept(b, now, e), x)) <==>
              || !IsMember(b, e.eid) || e.eid == b.me
              || exists c :: c in AddTo(VouchersOf(b, e.eid), Stored(now, e.stamp)) && ReachedAround(b, e.eid, c.signer)
  {
    AcceptLists(b, now, e);
    if IsMember(b, e.eid) && e.eid != b.me && IsMember(Accept(b, now, e), e.eid) {
      KeptNeedsWayRound(b, now, e);
    }
    if !IsMember(b, e.eid) || e.eid == b.me
       || exists c :: c in VouchersOf(Accept(b, now, e), e.eid) && ReachedAround(b, e.eid, c.signer) {
      forall x | IsMember(b, x) ensures IsMember(Accept(b, now, e), x) {
        WayRoundKeeps(b, now, e, x);
      }
    }
  }

  // ---------- a voucher pushed out ----------

  lemma {:induction false} SortedStays(v: seq<Stamp>)
    requires NewestFirst(v)
    ensures SortBy(v, Newer) == v
  {
    if v != [] { SortedStays(v[..|v| - 1]); }
  }

  /** A device that signed no voucher has nobody behind it. */
  lemma NobodyBehind(r: BookState, d: Device)
    requires r.me != "" && r.proofsV != 0 && d != r.me && forall y :: !SignedBy(VouchersOf(r, y), r.me)
    ensures !IsMember(r, d)
  {
    if Reachable(r, d) {
      ReachableIsLeast(r, d, iset{r.me});
    }
  }
}
