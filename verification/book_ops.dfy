/**
  The other steps a book takes, the invariant every run of them keeps, and what that
  invariant buys: a transitively revoked device never comes back by itself.
 */
module BookOps {
  import opened Common
  import opened Vouchers
  import opened Ledger
  import opened MergeProofs

  const MAX_PENDING: nat := 16

  /** One past a removal, or nothing when there is none. */
  function PastRemoval(b: BookState, d: Device): U64 {
    if d in b.removedDevices then SatAdd(b.removedDevices[d], 1) else 0
  }

  function PastLink(b: BookState, d: Device): U64 {
    if d in b.linked then SatAdd(b.linked[d], 1) else 0
  }

  /** A device joined the account now. */
  function MarkLinked(b: BookState, d: Device, now: U64): BookState {
    b.(linked := b.linked[d := Max(Max(TimeOf(b.linked, d), now), PastRemoval(b, d))])
  }

  function RemovalTime(b: BookState, d: Device, now: U64): U64 {
    Max(Max(now, TimeOf(b.removedDevices, d)), PastLink(b, d))
  }

  /** The user removed a device here; with a key at hand the removal is signed. */
  function RemoveDevice(b: BookState, account: string, d: Device, now: U64, signer: Option<Device>): BookState {
    var at := RemovalTime(b, d, now);
    b.(removedDevices := b.removedDevices[d := at],
       removalProofs :=
         if signer.Some? then b.removalProofs[d := SignRemoval(signer.value, account, d, at)] else b.removalProofs,
       pending := b.pending - {d})
  }

  function ApprovalTime(b: BookState, d: Device, now: U64): U64 {
    Max(Max(now, SatAdd(TimeOf(b.linked, d), 1)), PastRemoval(b, d))
  }

  /** The user approved a waiting device: link it and vouch for it. */
  function ApproveDevice(b: BookState, account: string, d: Device, now: U64, self: Device): Result<BookState, string> {
    if d !in b.pending then Err("That device isn't waiting for approval.")
    else
      var at := ApprovalTime(b, d, now);
      Ok(b.(linked := b.linked[d := at],
            linkProofs := b.linkProofs[d := AddTo(VouchersOf(b, d), SignStamp(self, account, d, at))],
            pending := b.pending - {d}))
  }

  /** A device proved the account key but nobody vouches for it. */
  ghost function NotePending(b: BookState, d: Device, p: PendingDevice): BookState {
    if b.proofsV == 0 || IsMember(b, d) || IsRemoved(b, d) || d == b.me then b
    else if |b.pending| >= MAX_PENDING && d !in b.pending then b
    else b.(pending := b.pending[d := p])
  }

  // ---------- vouching for what was linked here ----------

  /** The first voucher by `me`. */
  function VoucherBy(v: seq<Stamp>, me: Device): (r: Option<Stamp>)
    ensures r.Some? ==> r.value in v && r.value.signer == me
    ensures r.None? ==> !SignedBy(v, me)
  {
    if v == [] then None
    else if v[0].signer == me then Some(v[0])
    else
      assert v == [v[0]] + v[1..];
      VoucherBy(v[1..], me)
  }

  /** Linked here and vouched for by nobody, or linked again since this device vouched. */
  predicate NeedsVoucher(b: BookState, self: Device, d: Device) {
    && d in b.linked && d != self && !IsRemoved(b, d)
    && (VouchersOf(b, d) == []
        || (VoucherBy(VouchersOf(b, d), self).Some?
            && VoucherBy(VouchersOf(b, d), self).value.at < b.linked[d]))
  }

  /** A book from before vouchers keeps the devices this one already trusted. */
  function Upgrade(b: BookState, self: Device, own: set<Device>): BookState {
    var named := b.(me := self);
    if b.proofsV != 0 then named
    else named.(
      linked := b.linked + (map d | d in own && d != self && !IsRemoved(b, d) && d !in b.linked :: 1),
      proofsV := 1)
  }

  function Due(b: BookState, self: Device): set<Device> {
    set d | d in b.linked && NeedsVoucher(b, self, d)
  }

  /** The lists of the devices that are due, each with this device's voucher at the link time. */
  function DueVouchers(b: BookState, account: string, self: Device): map<Device, seq<Stamp>> {
    map d | d in Due(b, self) :: AddTo(VouchersOf(b, d), SignStamp(self, account, d, b.linked[d]))
  }

  function VouchForDue(b: BookState, account: string, self: Device): BookState {
    b.(linkProofs := b.linkProofs + DueVouchers(b, account, self))
  }

  function EnsureProofs(b: BookState, account: string, self: Device, own: set<Device>): BookState {
    VouchForDue(Upgrade(b, self, own), account, self)
  }

  // ---------- signed removals from another device ----------

  datatype Removals = Removals(account: string, me: Device, now: U64, stamps: map<Device, Stamp>)

  ghost predicate RemovalEligible(b: BookState, k: Removals, d: Device) {
    && d in k.stamps
    && !(d in b.removalProofs && b.removalProofs[d].at >= k.stamps[d].at)
    && (k.stamps[d].signer == d || k.stamps[d].signer == k.me || IsMember(b, k.stamps[d].signer))
    && RemovalValid(k.account, d, k.stamps[d])
  }

  function AcceptRemoval(b: BookState, now: U64, d: Device, s: Stamp): BookState {
    var at := Clamp(now, s.at);
    b.(removedDevices := b.removedDevices[d := Max(TimeOf(b.removedDevices, d), at)],
       removalProofs := b.removalProofs[d := s.(at := at)],
       pending := b.pending - {d})
  }

  function AcceptRemovals(b: BookState, k: Removals, tr: seq<Device>): BookState
    requires forall d :: d in tr ==> d in k.stamps
  {
    if tr == [] then b
    else AcceptRemoval(AcceptRemovals(b, k, tr[..|tr| - 1]), k.now, tr[|tr| - 1], k.stamps[tr[|tr| - 1]])
  }

  /** `tr` lists the devices whose removals one walk over the batch accepts, in walk order. */
  ghost predicate RemovalTrace(b: BookState, k: Removals, tr: seq<Device>) {
    && (forall d :: d in tr ==> d in k.stamps)
    && (tr == [] ||
        (var init, last := tr[..|tr| - 1], tr[|tr| - 1];
         RemovalTrace(b, k, init) && RemovalEligible(AcceptRemovals(b, k, init), k, last)))
  }

  /** Removals only ever grow, and nothing else about membership moves. */
  ghost predicate OnlyRemoves(b: BookState, r: BookState) {
    && r.linked == b.linked && r.linkProofs == b.linkProofs
    && r.me == b.me && r.proofsV == b.proofsV && r.removedFriends == b.removedFriends
    && b.removedDevices.Keys <= r.removedDevices.Keys
    && (forall d :: TimeOf(b.removedDevices, d) <= TimeOf(r.removedDevices, d))
  }

  lemma MembershipShrinks(b: BookState, r: BookState, d: Device)
    requires OnlyRemoves(b, r) && IsMember(r, d)
    ensures IsMember(b, d)
  {
    forall x ensures IsRemoved(b, x) ==> IsRemoved(r, x) {
      assert TimeOf(b.removedDevices, x) <= TimeOf(r.removedDevices, x);
    }
    if b.proofsV != 0 && b.me != "" {
      var path :| Chain(r, path) && EndsAt(path, d);
      assert Chain(b, path);
    }
  }

  lemma {:induction false} RemovalRun(b: BookState, k: Removals, tr: seq<Device>)
    requires RemovalTrace(b, k, tr)
    ensures OnlyRemoves(b, AcceptRemovals(b, k, tr))
  {
    if tr != [] {
      RemovalRun(b, k, tr[..|tr| - 1]);
      var m, r := AcceptRemovals(b, k, tr[..|tr| - 1]), AcceptRemovals(b, k, tr);
      forall d ensures TimeOf(b.removedDevices, d) <= TimeOf(r.removedDevices, d) {
        assert TimeOf(b.removedDevices, d) <= TimeOf(m.removedDevices, d);
      }
    }
  }

  /** A removal believed of `d`: signed by itself, by this device, or by a member of `b`. */
  ghost predicate BelievedRemoval(b: BookState, k: Removals, d: Device) {
    && d in k.stamps && RemovalValid(k.account, d, k.stamps[d])
    && (k.stamps[d].signer == d || k.stamps[d].signer == k.me || IsMember(b, k.stamps[d].signer))
  }

  /**
    Merging removals is sound in every walk order: whoever is newly out was removed by a
    stamp signed by itself, by this device or by a device that was a member before, and
    nobody becomes a member.
   */
  lemma {:induction false} RemovalsAreSound(b: BookState, k: Removals, tr: seq<Device>, d: Device)
    requires RemovalTrace(b, k, tr)
    ensures IsRemoved(AcceptRemovals(b, k, tr), d) && !IsRemoved(b, d) ==> BelievedRemoval(b, k, d)
    ensures IsMember(AcceptRemovals(b, k, tr), d) ==> IsMember(b, d)
  {
    if tr != [] {
      var init, last := tr[..|tr| - 1], tr[|tr| - 1];
      var m := AcceptRemovals(b, k, init);
      RemovalsAreSound(b, k, init, d);
      RemovalRun(b, k, init);
      RemovalRun(b, k, tr);
      if IsMember(m, k.stamps[last].signer) {
        MembershipShrinks(b, m, k.stamps[last].signer);
      }
      if IsMember(AcceptRemovals(b, k, tr), d) {
        MembershipShrinks(b, AcceptRemovals(b, k, tr), d);
      }
    }
  }

  // ---------- what a walk over removals leaves ----------

  /** The offered removal of `d`, believed, is what the book keeps now; only a time past the clamp is cut. */
  ghost predicate TookRemoval(b: BookState, k: Removals, r: BookState, d: Device) {
    && BelievedRemoval(b, k, d)
    && d in r.removalProofs && r.removalProofs[d] == k.stamps[d].(at := Clamp(k.now, k.stamps[d].at))
    && d in r.removedDevices
    && r.removedDevices[d] == Max(TimeOf(b.removedDevices, d), Clamp(k.now, k.stamps[d].at))
    && d !in r.pending
  }

  /** Nothing about `d` changed. */
  ghost predicate LeftAlone(b: BookState, r: BookState, d: Device) {
    && (d in r.removalProofs <==> d in b.removalProofs)
    && (d in r.removalProofs ==> r.removalProofs[d] == b.removalProofs[d])
    && (d in r.removedDevices <==> d in b.removedDevices)
    && (d in r.removedDevices ==> r.removedDevices[d] == b.removedDevices[d])
    && (d in r.pending <==> d in b.pending) && (d in r.pending ==> r.pending[d] == b.pending[d])
  }

  lemma RemovalTaken(b: BookState, k: Removals, r: BookState, d: Device)
    requires OnlyRemoves(b, r) && RemovalEligible(r, k, d) && (TookRemoval(b, k, r, d) || LeftAlone(b, r, d))
    ensures TookRemoval(b, k, AcceptRemoval(r, k.now, d, k.stamps[d]), d)
  {
    if IsMember(r, k.stamps[d].signer) { MembershipShrinks(b, r, k.stamps[d].signer); }
  }

  lemma RemovalElsewhere(b: BookState, k: Removals, r: BookState, last: Device, d: Device)
    requires last in k.stamps && d != last
    ensures var r' := AcceptRemoval(r, k.now, last, k.stamps[last]);
            && (TookRemoval(b, k, r', d) <==> TookRemoval(b, k, r, d)) && (LeftAlone(b, r', d) <==> LeftAlone(b, r, d))
  {
  }

  /**
    After any walk what the book keeps of a device's removal is as it was, or the believed
    stamp as it was offered, only a time past the clamp cut: those of the devices accepted.
   */
  lemma {:induction false} RemovalsAreTaken(b: BookState, k: Removals, tr: seq<Device>, d: Device)
    requires RemovalTrace(b, k, tr)
    ensures var r := AcceptRemovals(b, k, tr); if d in tr then TookRemoval(b, k, r, d) else LeftAlone(b, r, d)
  {
    if tr != [] {
      var init, last := tr[..|tr| - 1], tr[|tr| - 1];
      assert tr == init + [last];
      RemovalsAreTaken(b, k, init, d);
      if d == last {
        RemovalRun(b, k, init);
        RemovalTaken(b, k, AcceptRemovals(b, k, init), d);
      } else {
        RemovalElsewhere(b, k, AcceptRemovals(b, k, init), last, d);
      }
    }
  }

  // ---------- a device that left says so itself ----------

  /** What a device's hello says about the account it left. */
  datatype LeftNotice = LeftNotice(at: U64, since: Option<U64>, proof: Option<Stamp>)

  /** `own`: this device lists `who` as one of the account's own devices. */
  function ApplyLeft(b: BookState, account: string, who: Device, n: LeftNotice, own: bool, now: U64): BookState {
    if who !in b.linked && !own then b
    else
      var linked := TimeOf(b.linked, who);
      var current := if n.since.Some? then n.since.value >= linked else n.at > linked;
      if !current || IsRemoved(b, who) then b
      else
        var at := Max(Max(TimeOf(b.removedDevices, who), Clamp(now, n.at)), SatAdd(linked, 1));
        var signed := n.proof.Some? && n.proof.value.signer == who && RemovalValid(account, who, n.proof.value);
        b.(removedDevices := b.removedDevices[who := at],
           removalProofs := if signed then b.removalProofs[who := n.proof.value] else b.removalProofs)
  }

  /** The notice is about the link known here, and not one that was made again since. */
  ghost predicate Leaves(b: BookState, who: Device, n: LeftNotice, own: bool) {
    && (who in b.linked || own) && !IsRemoved(b, who)
    && if n.since.Some? then TimeOf(b.linked, who) <= n.since.value else TimeOf(b.linked, who) < n.at
  }

  /**
    A device that says it left is out exactly if it was, or the notice is about the link
    known here; its removal is then past that link and no earlier than said, and its signed
    word is kept if it is genuine. Nobody else is touched, and nothing else of the book.
   */
  lemma LeftLaw(b: BookState, account: string, who: Device, n: LeftNotice, own: bool, now: U64)
    ensures var r := ApplyLeft(b, account, who, n, own, now);
            && (IsRemoved(r, who) <==> IsRemoved(b, who) || Leaves(b, who, n, own))
            && (!Leaves(b, who, n, own) ==> r == b)
            && r == b.(removedDevices := r.removedDevices, removalProofs := r.removalProofs)
            && (forall x :: x != who ==> LeftAlone(b, r, x))
            && (Leaves(b, who, n, own) ==> SaidSo(b, r, account, who, n, now))
  {
  }

  ghost predicate SaidSo(b: BookState, r: BookState, account: string, who: Device, n: LeftNotice, now: U64) {
    && who in r.removedDevices
    && r.removedDevices[who] >= Clamp(now, n.at) && r.removedDevices[who] >= TimeOf(b.removedDevices, who)
    && (TimeOf(b.linked, who) < U64_MAX ==> r.removedDevices[who] > TimeOf(b.linked, who))
    && (if n.proof.Some? && n.proof.value.signer == who && RemovalValid(account, who, n.proof.value)
        then who in r.removalProofs && r.removalProofs[who] == n.proof.value
        else r.removalProofs == b.removalProofs)
  }
}
