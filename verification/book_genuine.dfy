/** Signatures along every run of a book, and what vouching and removing amount to on other devices. */
module BookGenuine {
  import opened Common
  import opened Vouchers
  import opened Ledger
  import opened MergeProofs
  import opened MergeLimits
  import opened BookOps
  import opened BookRuns

  // ---------- every stored signature ----------

  /** The book belongs to one account: whatever is signed or checked names it. */
  predicate ForAccount(op: Op, account: string) {
    match op
    case Ensure(a, own) => a == account
    case TakeVoucher(k, e) => k.account == account
    case TakeRemoval(r, d) => r.account == account
    case Approve(a, d, now) => a == account
    case Remove(a, d, now, signed) => a == account
    case Left(a, d, notice, isOwn, now) => a == account
    case _ => true
  }

  ghost predicate OneAccount(ops: seq<Op>, account: string) {
    forall op :: op in ops ==> ForAccount(op, account)
  }

  /** The clamp cut the time of this genuine stamp when it came in, and with that its signature. */
  ghost predicate CutVoucher(ops: seq<Op>, d: Device, c: Stamp) {
    exists op :: op in ops && op.TakeVoucher? && op.e.eid == d
                 && op.e.stamp.at > ClampBound(op.k.now) && c == op.e.stamp.(at := ClampBound(op.k.now))
  }

  ghost predicate CutRemoval(ops: seq<Op>, d: Device, s: Stamp) {
    exists op :: op in ops && op.TakeRemoval? && op.d == d && d in op.r.stamps
                 && op.r.stamps[d].at > ClampBound(op.r.now) && s == op.r.stamps[d].(at := ClampBound(op.r.now))
  }

  ghost predicate GenuineVouchers(b: BookState, account: string, ops: seq<Op>) {
    forall d, c :: Knows(b, d, c) ==> StampValid(account, d, c) || CutVoucher(ops, d, c)
  }

  ghost predicate GenuineRemovals(b: BookState, account: string, ops: seq<Op>) {
    forall d :: d in b.removalProofs ==>
      RemovalValid(account, d, b.removalProofs[d]) || CutRemoval(ops, d, b.removalProofs[d])
  }

  ghost predicate Genuine(b: BookState, account: string, self: Device, ops: seq<Op>) {
    GenuineVouchers(b, account, ops) && GenuineRemovals(b, account, ops) && self !in b.pending && |b.pending| <= 16
  }

  lemma CutEarlier(ops: seq<Op>, op: Op)
    ensures forall d, c :: CutVoucher(ops, d, c) ==> CutVoucher(ops + [op], d, c)
    ensures forall d, s :: CutRemoval(ops, d, s) ==> CutRemoval(ops + [op], d, s)
  {
    assert forall o :: o in ops ==> o in ops + [op];
  }

  /** Only these vouchers are new. */
  lemma VouchersStayGenuine(b: BookState, r: BookState, account: string, ops: seq<Op>, op: Op)
    requires GenuineVouchers(b, account, ops)
    requires forall d, c :: Knows(r, d, c) && !Knows(b, d, c) ==>
      StampValid(account, d, c) || CutVoucher(ops + [op], d, c)
    ensures GenuineVouchers(r, account, ops + [op])
  {
    CutEarlier(ops, op);
  }

  lemma RemovalsStayGenuine(b: BookState, r: BookState, account: string, ops: seq<Op>, op: Op)
    requires GenuineRemovals(b, account, ops)
    requires forall d :: d in r.removalProofs && !(d in b.removalProofs && r.removalProofs[d] == b.removalProofs[d]) ==>
      RemovalValid(account, d, r.removalProofs[d]) || CutRemoval(ops + [op], d, r.removalProofs[d])
    ensures GenuineRemovals(r, account, ops + [op])
  {
    CutEarlier(ops, op);
  }

  lemma TakenVoucherIsGenuine(b: BookState, op: Op, account: string, ops: seq<Op>)
    requires op.TakeVoucher? && op.k.account == account && Eligible(b, op.k, op.e) && GenuineVouchers(b, account, ops)
    ensures GenuineVouchers(Accept(b, op.k.now, op.e), account, ops + [op])
  {
    var r, s := Accept(b, op.k.now, op.e), Stored(op.k.now, op.e.stamp);
    AcceptLists(b, op.k.now, op.e);
    assert op in ops + [op];
    assert StampValid(account, op.e.eid, s) || CutVoucher(ops + [op], op.e.eid, s);
    forall d, c | Knows(r, d, c) && !Knows(b, d, c) ensures d == op.e.eid && c == s {
      if d == op.e.eid { AddedFrom(VouchersOf(b, d), s, c); }
    }
    VouchersStayGenuine(b, r, account, ops, op);
  }

  lemma OneRemoval(b: BookState, k: Removals, d: Device)
    requires RemovalEligible(b, k, d)
    ensures RemovalTrace(b, k, [d]) && AcceptRemovals(b, k, [d]) == AcceptRemoval(b, k.now, d, k.stamps[d])
  {
    assert [d][..0] == [];
    assert AcceptRemovals(b, k, []) == b && RemovalTrace(b, k, []);
  }

  lemma TakenRemovalIsGenuine(b: BookState, op: Op, account: string, ops: seq<Op>)
    requires op.TakeRemoval? && op.r.account == account && RemovalEligible(b, op.r, op.d)
    requires GenuineRemovals(b, account, ops)
    ensures GenuineRemovals(AcceptRemoval(b, op.r.now, op.d, op.r.stamps[op.d]), account, ops + [op])
  {
    var r := AcceptRemoval(b, op.r.now, op.d, op.r.stamps[op.d]);
    OneRemoval(b, op.r, op.d);
    assert op in ops + [op];
    forall d ensures if d == op.d then TookRemoval(b, op.r, r, d) else LeftAlone(b, r, d) {
      RemovalsAreTaken(b, op.r, [op.d], d);
    }
    RemovalsStayGenuine(b, r, account, ops, op);
  }

  lemma EnsuredAreGenuine(b: BookState, op: Op, account: string, self: Device, ops: seq<Op>)
    requires self != "" && Sound(b, self) && op.Ensure? && op.account == account && GenuineVouchers(b, account, ops)
    ensures GenuineVouchers(EnsureProofs(b, account, self, op.own), account, ops + [op])
  {
    var r := EnsureProofs(b, account, self, op.own);
    forall d, c | Knows(r, d, c) && !Knows(b, d, c) ensures StampValid(account, d, c) {
      EnsureVouches(b, account, self, op.own, d);
      assert VouchersOf(r, d) != VouchersOf(b, d);
    }
    VouchersStayGenuine(b, r, account, ops, op);
  }

  lemma ApprovedIsGenuine(b: BookState, op: Op, account: string, self: Device, ops: seq<Op>)
    requires op.Approve? && op.account == account && op.d in b.pending && op.d != self
    requires GenuineVouchers(b, account, ops)
    ensures GenuineVouchers(ApproveDevice(b, account, op.d, op.now, self).value, account, ops + [op])
  {
    var r := ApproveDevice(b, account, op.d, op.now, self).value;
    var s := SignStamp(self, account, op.d, ApprovalTime(b, op.d, op.now));
    ApprovalAdds(b, account, op.d, op.now, self);
    forall d, c | Knows(r, d, c) && !Knows(b, d, c) ensures StampValid(account, d, c) {
      AddedFrom(VouchersOf(b, op.d), s, c);
    }
    VouchersStayGenuine(b, r, account, ops, op);
  }

  lemma StepVouchersGenuine(b: BookState, op: Op, account: string, self: Device, ops: seq<Op>)
    requires self != "" && Sound(b, self) && Enabled(b, op, self) && ForAccount(op, account)
    requires Genuine(b, account, self, ops)
    ensures GenuineVouchers(Step(b, op, self), account, ops + [op])
  {
    match op
    case TakeVoucher(k, e) => TakenVoucherIsGenuine(b, op, account, ops);
    case Ensure(a, own) => EnsuredAreGenuine(b, op, account, self, ops);
    case Approve(a, d, now) =>
      if d in b.pending {
        ApprovedIsGenuine(b, op, account, self, ops);
      } else {
        VouchersStayGenuine(b, b, account, ops, op);
      }
    case _ => VouchersStayGenuine(b, Step(b, op, self), account, ops, op);
  }

  lemma StepRemovalsGenuine(b: BookState, op: Op, account: string, self: Device, ops: seq<Op>)
    requires Enabled(b, op, self) && ForAccount(op, account) && GenuineRemovals(b, account, ops)
    ensures GenuineRemovals(Step(b, op, self), account, ops + [op])
  {
    if op.TakeRemoval? {
      TakenRemovalIsGenuine(b, op, account, ops);
    } else {
      SignedHereOrByLeaver(b, op, account, self);
      RemovalsStayGenuine(b, Step(b, op, self), account, ops, op);
    }
  }

  /** A removal made here is signed here, and one a leaving device sends is checked. */
  lemma SignedHereOrByLeaver(b: BookState, op: Op, account: string, self: Device)
    requires Enabled(b, op, self) && ForAccount(op, account) && !op.TakeRemoval?
    ensures var r := Step(b, op, self);
            forall d :: d in r.removalProofs && !(d in b.removalProofs && r.removalProofs[d] == b.removalProofs[d]) ==>
              RemovalValid(account, d, r.removalProofs[d])
  {
  }

  lemma StepPending(b: BookState, op: Op, self: Device)
    requires Sound(b, self) && Enabled(b, op, self) && self !in b.pending && |b.pending| <= 16
    ensures self !in Step(b, op, self).pending && |Step(b, op, self).pending| <= 16
  {
    if op.Await? {
      AwaitPending(b, op.d, op.p);
    } else {
      OthersOnlyClear(b, op, self);
      SubsetCardinality(Step(b, op, self).pending.Keys, b.pending.Keys);
    }
  }

  lemma AwaitPending(b: BookState, d: Device, p: PendingDevice)
    requires |b.pending| <= 16
    ensures |NotePending(b, d, p).pending| <= 16 && (NotePending(b, d, p).pending != b.pending ==> d != b.me)
    ensures NotePending(b, d, p).pending.Keys <= b.pending.Keys + {d}
    ensures b.proofsV == 0 ==> NotePending(b, d, p).pending == b.pending
  {
    if d in b.pending { assert b.pending[d := p].Keys == b.pending.Keys; }
  }

  lemma OthersOnlyClear(b: BookState, op: Op, self: Device)
    requires Enabled(b, op, self) && !op.Await?
    ensures Step(b, op, self).pending.Keys <= b.pending.Keys
  {
  }

  /**
    In every run of one account's book each stored voucher and removal carries the signature
    it was made with, unless the clamp cut its time when it came in; at most sixteen devices wait
    for approval, never this one.
   */
  lemma {:induction false} RunsAreGenuine(states: seq<BookState>, ops: seq<Op>, account: string, self: Device, n: nat)
    requires self != "" && BookRun(states, ops, self) && OneAccount(ops, account) && n < |states|
    ensures Genuine(states[n], account, self, ops[..n])
  {
    if n == 0 {
      assert forall d, c :: !Knows(states[0], d, c);
    } else {
      RunsAreGenuine(states, ops, account, self, n - 1);
      RunsAreSound(states, ops, self, n - 1);
      var b, op := states[n - 1], ops[n - 1];
      assert StepTo(b, op, self, states[n - 1 + 1]) && op in ops;
      assert ops[..n] == ops[..n - 1] + [op];
      StepVouchersGenuine(b, op, account, self, ops[..n - 1]);
      StepRemovalsGenuine(b, op, account, self, ops[..n - 1]);
      StepPending(b, op, self);
    }
  }

  // ---------- a removal told to the device removed ----------

  /**
    The device removed, told with a genuine removal, believes it and is out in its own book:
    if the signer is itself or counts there as a member, and it keeps none as new and no
    later link.
   */
  lemma ToldIsBelieved(c: BookState, account: string, who: Device, now: U64, proof: Stamp)
    requires RemovalValid(account, who, proof)
    requires proof.signer == who || IsMember(c, proof.signer)
    requires who in c.removalProofs ==> c.removalProofs[who].at < proof.at
    requires TimeOf(c.linked, who) <= proof.at <= ClampBound(now)
    ensures var k := Removals(account, who, now, map[who := proof]);
            RemovalEligible(c, k, who) && IsRemoved(AcceptRemoval(c, now, who, proof), who)
  {
  }

  // ---------- a relink on its way ----------

  lemma {:induction false} MergeKeepsSound(b: BookState, k: Batch, tr: seq<Entry>)
    requires Ready(b, k) && Sound(b, k.me) && MergeTrace(b, k, tr)
    ensures Sound(AcceptAll(b, k.now, tr), k.me) && AcceptAll(b, k.now, tr).proofsV == b.proofsV
    ensures AcceptAll(b, k.now, tr).removedDevices == b.removedDevices
  {
    if tr != [] {
      var r, e := AcceptAll(b, k.now, tr[..|tr| - 1]), tr[|tr| - 1];
      MergeKeepsSound(b, k, tr[..|tr| - 1]);
      TakingVoucherKeepsSound(r, k, e, k.me);
    }
  }

  /** Device A's book once it linked `d` again and vouched for what was due. */
  function Relinked(a: BookState, account: string, self: Device, own: set<Device>, d: Device, now: U64): BookState {
    EnsureProofs(MarkLinked(a, d, now), account, self, own)
  }

  lemma RelinkedTimes(a: BookState, account: string, self: Device, own: set<Device>, d: Device, now: U64)
    requires TimeOf(a.removedDevices, d) < U64_MAX
    ensures var r := Relinked(a, account, self, own, d, now);
            d in r.linked && r.linked[d] >= PastRemoval(a, d) && !IsRemoved(r, d)
  {
    var m := MarkLinked(a, d, now);
    assert d in m.linked && Upgrade(m, self, own).linked[d] == m.linked[d];
  }

  lemma RelinkedIsSound(a: BookState, account: string, self: Device, own: set<Device>, d: Device, now: U64)
    requires Sound(a, self)
    ensures Sound(MarkLinked(a, d, now), self) && Sound(Relinked(a, account, self, own, d, now), self)
    ensures VouchersOf(MarkLinked(a, d, now), d) == VouchersOf(a, d)
  {
    OtherStepsKeepSound(a, Link(d, now), self);
    EnsuringKeepsSound(MarkLinked(a, d, now), account, own, self);
  }

  /** This device vouches for `d` itself, or nobody does; what it signed is its own. */
  ghost predicate Vouching(a: BookState, account: string, self: Device, d: Device) {
    && (VouchersOf(a, d) == [] || SignedBy(VouchersOf(a, d), self))
    && forall x :: x in VouchersOf(a, d) && x.signer == self ==> StampValid(account, d, x)
  }

  lemma RelinkVouches(a: BookState, account: string, self: Device, own: set<Device>, d: Device, now: U64)
    returns (c: Stamp)
    requires self != "" && Sound(a, self) && d != self && TimeOf(a.removedDevices, d) < U64_MAX
    requires Vouching(a, account, self, d)
    ensures var v := VouchersOf(Relinked(a, account, self, own, d, now), d); c in v && |v| <= MAX_VOUCHERS
    ensures c.signer == self && StampValid(account, d, c) && c.at >= PastRemoval(a, d)
  {
    var r := Relinked(a, account, self, own, d, now);
    RelinkedIsSound(a, account, self, own, d, now);
    RelinkedTimes(a, account, self, own, d, now);
    EnsureVouches(MarkLinked(a, d, now), account, self, own, d);
    assert VouchedNow(MarkLinked(a, d, now), r, self, d);
    c :| c in VouchersOf(r, d) && c.signer == self && c.at == r.linked[d];
    assert VouchersInOrder(r, self);
  }

  /** Where a genuine voucher past every removal known is offered, and its signer is in, its device ends in. */
  lemma OfferedIsIn(b: BookState, k: Batch, tr: seq<Entry>, d: Device, c: Stamp)
    requires Ready(b, k) && Sound(b, k.me) && !IsRemoved(b, b.me) && SettledAfter(b, k, tr)
    requires Offered(k, Entry(d, c)) && StampValid(k.account, d, c) && Trusted(AcceptAll(b, k.now, tr), k, c.signer)
    requires d in b.removedDevices ==> b.removedDevices[d] < c.at
    ensures !IsRemoved(AcceptAll(b, k.now, tr), d) && IsMember(AcceptAll(b, k.now, tr), d)
  {
    var f := AcceptAll(b, k.now, tr);
    assert Covered(f, Entry(d, c));
    var x :| x in VouchersOf(f, d) && x.signer == c.signer && x.at >= c.at;
    MergeKeepsSound(b, k, tr);
    assert Knows(f, d, x) && VouchersInOrder(f, k.me);
    RunBrings(b, k, tr);
    assert TimeOf(b.linked, b.me) <= TimeOf(f.linked, b.me);
    RootReachable(f);
    ReachableStep(f, c.signer, d);
  }

  /**
    A relink reaches other devices. Device A links `d` again, vouches for what is due, and
    its list for `d` comes to device B, which knows no removal of `d` that A does not. When
    B's merge stops, and A is in there, `d` is in and a member too.
   */
  lemma RelinkTravels(a: BookState, account: string, self: Device, own: set<Device>, d: Device, now: U64,
                      b: BookState, k: Batch, tr: seq<Entry>)
    requires self != "" && Sound(a, self) && d != self && TimeOf(a.removedDevices, d) < U64_MAX
    requires Vouching(a, account, self, d)
    requires k.account == account && d in k.proofs
    requires k.proofs[d] == VouchersOf(Relinked(a, account, self, own, d, now), d)
    requires Ready(b, k) && Sound(b, k.me) && !IsRemoved(b, b.me) && SettledAfter(b, k, tr)
    requires d in b.removedDevices ==> d in a.removedDevices && b.removedDevices[d] <= a.removedDevices[d]
    requires Trusted(AcceptAll(b, k.now, tr), k, self)
    ensures !IsRemoved(AcceptAll(b, k.now, tr), d) && IsMember(AcceptAll(b, k.now, tr), d)
  {
    var c := RelinkVouches(a, account, self, own, d, now);
    RelinkComesIn(a, b, k, tr, d, c);
  }

  lemma RelinkComesIn(a: BookState, b: BookState, k: Batch, tr: seq<Entry>, d: Device, c: Stamp)
    requires Ready(b, k) && Sound(b, k.me) && !IsRemoved(b, b.me) && SettledAfter(b, k, tr)
    requires d in k.proofs && |k.proofs[d]| <= MAX_VOUCHERS && c in k.proofs[d] && StampValid(k.account, d, c)
    requires Trusted(AcceptAll(b, k.now, tr), k, c.signer) && TimeOf(a.removedDevices, d) < U64_MAX
    requires d in b.removedDevices ==> d in a.removedDevices && b.removedDevices[d] <= a.removedDevices[d]
    requires c.at >= PastRemoval(a, d)
    ensures !IsRemoved(AcceptAll(b, k.now, tr), d) && IsMember(AcceptAll(b, k.now, tr), d)
  {
    assert Offered(k, Entry(d, c));
    OfferedIsIn(b, k, tr, d, c);
  }

  /**
    So does a removal. Device A removes `d`, and its signed removal comes to device B, which
    knows no newer removal or link of `d` than A does. When B's walk is over, and A is in
    there, `d` is out, unless the clamp there cuts A's time.
   */
  lemma RemovalTravels(a: BookState, account: string, self: Device, d: Device, now: U64,
                       b: BookState, k: Removals, tr: seq<Device>)
    requires k.account == account && d in k.stamps
    requires k.stamps[d] == RemoveDevice(a, account, d, now, Some(self)).removalProofs[d]
    requires RemovalTrace(b, k, tr)
    requires forall x :: RemovalEligible(AcceptRemovals(b, k, tr), k, x) ==> k.stamps[x].at > ClampBound(k.now)
    requires self == k.me || self == d || IsMember(AcceptRemovals(b, k, tr), self)
    requires TimeOf(b.linked, d) <= TimeOf(a.linked, d) && k.stamps[d].at <= ClampBound(k.now)
    requires d in b.removalProofs ==> b.removalProofs[d].at < k.stamps[d].at
    ensures IsRemoved(AcceptRemovals(b, k, tr), d)
  {
    RemovalsAreTaken(b, k, tr, d);
    RemovalRun(b, k, tr);
    StampedPastAll(a, d, now, account, self);
  }

  /** A link is stamped past every removal known here, a removal past every link, and neither before the clock. */
  lemma StampedPastAll(a: BookState, d: Device, now: U64, account: string, self: Device)
    ensures var at := MarkLinked(a, d, now).linked[d];
            && now <= at && TimeOf(a.linked, d) <= at
            && (d in a.removedDevices && a.removedDevices[d] < U64_MAX ==> a.removedDevices[d] < at)
            && (at == now || at == TimeOf(a.linked, d) || at == PastRemoval(a, d))
    ensures var r := RemoveDevice(a, account, d, now, Some(self));
            var at := r.removedDevices[d];
            && now <= at && TimeOf(a.removedDevices, d) <= at
            && (d in a.linked && a.linked[d] < U64_MAX ==> a.linked[d] < at) && TimeOf(a.linked, d) <= at
            && (at == now || at == TimeOf(a.removedDevices, d) || at == PastLink(a, d))
            && d in r.removalProofs && r.removalProofs[d] == SignRemoval(self, account, d, at)
  {
  }
}
