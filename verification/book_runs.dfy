/** Every run of a device's book, from the empty book on, and what vouching at its end does. */
module BookRuns {
  import opened Common
  import opened Vouchers
  import opened Ledger
  import opened MergeProofs
  import opened MergeLimits
  import opened BookOps

  datatype Op =
    | Link(d: Device, now: U64)
    | Ensure(account: string, own: set<Device>)
    | TakeVoucher(k: Batch, e: Entry)
    | TakeRemoval(r: Removals, d: Device)
    | Approve(account: string, d: Device, now: U64)
    | Remove(account: string, d: Device, now: U64, signed: bool)
    | Await(d: Device, p: PendingDevice)
    | Left(account: string, d: Device, notice: LeftNotice, isOwn: bool, now: U64)

  /** Vouchers and removals count only when the book would accept them. */
  ghost predicate Enabled(b: BookState, op: Op, self: Device) {
    match op
    case TakeVoucher(k, e) => k.me == self && b.proofsV != 0 && Eligible(b, k, e)
    case TakeRemoval(r, d) => r.me == self && RemovalEligible(b, r, d)
    case _ => true
  }

  ghost function Step(b: BookState, op: Op, self: Device): BookState
    requires Enabled(b, op, self)
  {
    match op
    case Link(d, now) => MarkLinked(b, d, now)
    case Ensure(account, own) => EnsureProofs(b, account, self, own)
    case TakeVoucher(k, e) => Accept(b, k.now, e)
    case TakeRemoval(r, d) => AcceptRemoval(b, r.now, d, r.stamps[d])
    case Approve(account, d, now) =>
      (match ApproveDevice(b, account, d, now, self) case Ok(b') => b' case Err(_) => b)
    case Remove(account, d, now, signed) => RemoveDevice(b, account, d, now, if signed then Some(self) else None)
    case Await(d, p) => NotePending(b, d, p)
    case Left(account, d, notice, own, now) => ApplyLeft(b, account, d, notice, own, now)
  }

  /** `states[0]` is the empty book and each next state is one enabled step further. */
  ghost predicate BookRun(states: seq<BookState>, ops: seq<Op>, self: Device) {
    && |states| == |ops| + 1 && states[0] == EMPTY_BOOK
    && forall i :: 0 <= i < |ops| ==> StepTo(states[i], ops[i], self, states[i + 1])
  }

  ghost predicate StepTo(b: BookState, op: Op, self: Device, r: BookState) {
    Enabled(b, op, self) && r == Step(b, op, self)
  }

  /** Signed by this device, or by a device that itself has a voucher. */
  ghost predicate SignersVouched(b: BookState, self: Device) {
    forall d, c :: Knows(b, d, c) ==> c.signer == self || VouchersOf(b, c.signer) != []
  }

  ghost predicate ShortLists(b: BookState) {
    forall d :: OnePerSigner(VouchersOf(b, d)) && |VouchersOf(b, d)| <= MAX_VOUCHERS
  }

  ghost predicate Sound(b: BookState, self: Device) {
    && VouchersInOrder(b, self)
    && (b.proofsV == 0 ==> b.linkProofs == map[] && b.pending == map[])
    && (b.proofsV != 0 ==> b.me == self)
  }

  ghost predicate LinksGrow(b: BookState, b': BookState) {
    b.linked.Keys <= b'.linked.Keys && forall x :: x in b.linked ==> b.linked[x] <= b'.linked[x]
  }

  ghost predicate VouchersInOrder(b: BookState, self: Device) {
    ShortLists(b) && WithinLink(b) && SignersVouched(b, self)
  }

  /** Each list changes only by vouchers that are in order themselves, and none is emptied. */
  lemma ListsKeepOrder(b: BookState, b': BookState, self: Device)
    requires VouchersInOrder(b, self) && LinksGrow(b, b') && ShortLists(b')
    requires forall d :: VouchersOf(b, d) != [] ==> VouchersOf(b', d) != []
    requires forall d, c :: Knows(b', d, c) ==>
      Knows(b, d, c) || (d in b'.linked && c.at <= b'.linked[d] && (c.signer == self || VouchersOf(b, c.signer) != []))
    ensures VouchersInOrder(b', self)
  {
    forall d, c | Knows(b', d, c)
      ensures d in b'.linked && c.at <= b'.linked[d]
      ensures c.signer == self || VouchersOf(b', c.signer) != []
    {
      if Knows(b, d, c) {
        assert c.signer == self || VouchersOf(b, c.signer) != [];
      }
    }
  }

  ghost predicate Adds(b: BookState, b': BookState, d: Device, s: Stamp) {
    && VouchersOf(b', d) == AddTo(VouchersOf(b, d), s)
    && forall x :: x != d ==> VouchersOf(b', x) == VouchersOf(b, x)
  }

  lemma AddedList(b: BookState, b': BookState, d: Device, s: Stamp, x: Device)
    requires ShortLists(b) && Adds(b, b', d, s)
    ensures OnePerSigner(VouchersOf(b', x)) && |VouchersOf(b', x)| <= MAX_VOUCHERS
    ensures VouchersOf(b, x) != [] ==> VouchersOf(b', x) != []
    ensures forall c :: c in VouchersOf(b', x) ==> c in VouchersOf(b, x) || (x == d && c == s)
  {
    assert OnePerSigner(VouchersOf(b, x));
    if x == d {
      AddToKeepsShape(VouchersOf(b, d), s);
    }
  }

  /** Adding one voucher within the link time, by this device or by someone vouched for. */
  lemma AddingKeepsOrder(b: BookState, b': BookState, d: Device, s: Stamp, self: Device)
    requires VouchersInOrder(b, self) && LinksGrow(b, b') && Adds(b, b', d, s)
    requires d in b'.linked && s.at <= b'.linked[d]
    requires s.signer == self || VouchersOf(b, s.signer) != []
    ensures VouchersInOrder(b', self)
  {
    forall x { AddedList(b, b', d, s, x); }
    forall x, c | Knows(b', x, c) && !Knows(b, x, c) ensures x == d && c == s {
    }
    ListsKeepOrder(b, b', self);
  }

  lemma SameVouchersKeepOrder(b: BookState, b': BookState, self: Device)
    requires VouchersInOrder(b, self) && LinksGrow(b, b') && b'.linkProofs == b.linkProofs
    ensures VouchersInOrder(b', self)
  {
    assert forall x :: VouchersOf(b', x) == VouchersOf(b, x);
    ListsKeepOrder(b, b', self);
  }

  lemma TrustedIsVouched(b: BookState, k: Batch, who: Device)
    requires b.proofsV != 0 && b.me != "" && k.me == b.me && Trusted(b, k, who)
    ensures who == b.me || VouchersOf(b, who) != []
  {
    if who != k.me {
      var path :| Chain(b, path) && EndsAt(path, who);
      if |path| > 1 {
        assert SignedBy(VouchersOf(b, path[|path| - 1]), path[|path| - 2]);
      }
    }
  }

  /** The lists after vouching for everything due. */
  lemma VouchedLists(b: BookState, account: string, self: Device, d: Device)
    ensures var r := VouchForDue(b, account, self);
            VouchersOf(r, d) == if NeedsVoucher(b, self, d)
                                then AddTo(VouchersOf(b, d), SignStamp(self, account, d, b.linked[d]))
                                else VouchersOf(b, d)
  {
  }

  lemma VouchedList(b: BookState, account: string, self: Device, d: Device)
    requires ShortLists(b)
    ensures var v := VouchersOf(VouchForDue(b, account, self), d);
            && OnePerSigner(v) && |v| <= MAX_VOUCHERS
            && (VouchersOf(b, d) != [] ==> v != [])
            && forall c :: c in v ==>
                 c in VouchersOf(b, d) || (d in b.linked && c == SignStamp(self, account, d, b.linked[d]))
  {
    VouchedLists(b, account, self, d);
    assert OnePerSigner(VouchersOf(b, d));
    if NeedsVoucher(b, self, d) {
      AddToKeepsShape(VouchersOf(b, d), SignStamp(self, account, d, b.linked[d]));
    }
  }

  lemma VouchingKeepsOrder(b: BookState, account: string, self: Device)
    requires VouchersInOrder(b, self)
    ensures VouchersInOrder(VouchForDue(b, account, self), self)
  {
    var r := VouchForDue(b, account, self);
    forall d { VouchedList(b, account, self, d); }
    forall d, c | Knows(r, d, c)
      ensures || Knows(b, d, c)
              || (d in r.linked && c.at <= r.linked[d] && (c.signer == self || VouchersOf(b, c.signer) != []))
    {
    }
    ListsKeepOrder(b, r, self);
  }

  lemma TakingVoucherKeepsSound(b: BookState, k: Batch, e: Entry, self: Device)
    requires self != "" && Sound(b, self) && Enabled(b, TakeVoucher(k, e), self)
    ensures Sound(Accept(b, k.now, e), self)
  {
    TrustedIsVouched(b, k, e.stamp.signer);
    AcceptLists(b, k.now, e);
    AddingKeepsOrder(b, Accept(b, k.now, e), e.eid, Stored(k.now, e.stamp), self);
  }

  lemma ApprovalAdds(b: BookState, account: string, d: Device, now: U64, self: Device)
    requires d in b.pending
    ensures var b' := ApproveDevice(b, account, d, now, self).value;
            var at := ApprovalTime(b, d, now);
            Adds(b, b', d, SignStamp(self, account, d, at)) && LinksGrow(b, b') && d in b'.linked && b'.linked[d] == at
  {
  }

  lemma ApprovingKeepsSound(b: BookState, account: string, d: Device, now: U64, self: Device)
    requires Sound(b, self)
    ensures Sound(Step(b, Approve(account, d, now), self), self)
  {
    if d in b.pending {
      var b' := ApproveDevice(b, account, d, now, self).value;
      ApprovalAdds(b, account, d, now, self);
      AddingKeepsOrder(b, b', d, SignStamp(self, account, d, ApprovalTime(b, d, now)), self);
    }
  }

  lemma EnsuringKeepsSound(b: BookState, account: string, own: set<Device>, self: Device)
    requires Sound(b, self)
    ensures Sound(EnsureProofs(b, account, self, own), self)
  {
    var u := Upgrade(b, self, own);
    SameVouchersKeepOrder(b, u, self);
    VouchingKeepsOrder(u, account, self);
  }

  /** The steps that touch no voucher list. */
  lemma OtherStepsKeepSound(b: BookState, op: Op, self: Device)
    requires Sound(b, self) && Enabled(b, op, self)
    requires op.Link? || op.TakeRemoval? || op.Remove? || op.Await? || op.Left?
    ensures Sound(Step(b, op, self), self)
  {
    var b' := Step(b, op, self);
    assert b'.linkProofs == b.linkProofs && b'.proofsV == b.proofsV && b'.me == b.me;
    assert LinksGrow(b, b');
    SameVouchersKeepOrder(b, b', self);
  }

  lemma StepKeepsSound(b: BookState, op: Op, self: Device)
    requires self != "" && Sound(b, self) && Enabled(b, op, self)
    ensures Sound(Step(b, op, self), self)
  {
    match op
    case TakeVoucher(k, e) => TakingVoucherKeepsSound(b, k, e, self);
    case Approve(account, d, now) => ApprovingKeepsSound(b, account, d, now, self);
    case Ensure(account, own) => EnsuringKeepsSound(b, account, own, self);
    case _ => OtherStepsKeepSound(b, op, self);
  }

  /**
    In every run each stored voucher is signed by this device or by a device that itself
    has a voucher, is no newer than the link time, and is the only one of its signer.
   */
  lemma {:induction false} RunsAreSound(states: seq<BookState>, ops: seq<Op>, self: Device, n: nat)
    requires self != "" && BookRun(states, ops, self) && n < |states|
    ensures Sound(states[n], self)
  {
    if n > 0 {
      RunsAreSound(states, ops, self, n - 1);
      assert StepTo(states[n - 1], ops[n - 1], self, states[n - 1 + 1]);
      StepKeepsSound(states[n - 1], ops[n - 1], self);
    } else {
      forall d, c ensures !Knows(states[0], d, c) {
      }
    }
  }

  // ---------- what vouching admits ----------

  /** Linked on this device, still in, and never vouched for by anyone. */
  predicate LinkedHereOnly(b: BookState, self: Device, d: Device) {
    d in b.linked && d != self && !IsRemoved(b, d) && VouchersOf(b, d) == []
  }

  /** Renewing a signer's voucher leaves the signers of a list as they were. */
  lemma RenewalKeepsSigners(v: seq<Stamp>, s: Stamp)
    requires OnePerSigner(v) && |v| <= MAX_VOUCHERS
    requires v == [] || SignedBy(v, s.signer)
    ensures Signers(AddTo(v, s)) == Signers(v) + {s.signer}
  {
    SignersSize(v);
    if v != [] {
      assert Signers(v) + {s.signer} == Signers(v);
    }
    AddToWithRoom(v, s);
  }

  lemma RenewedSigners(v: seq<Stamp>, s: Stamp)
    requires OnePerSigner(v) && |v| <= MAX_VOUCHERS && (v == [] || SignedBy(v, s.signer))
    ensures Signers(AddTo(v, s)) == if v == [] then {s.signer} else Signers(v)
  {
    RenewalKeepsSigners(v, s);
    if v != [] {
      assert s.signer in Signers(v);
    }
  }

  lemma RenewalIsOwn(b: BookState, self: Device, d: Device)
    requires NeedsVoucher(b, self, d) && VouchersOf(b, d) != []
    ensures SignedBy(VouchersOf(b, d), self)
  {
  }

  lemma VouchingSigners(b: BookState, account: string, self: Device, d: Device)
    requires ShortLists(b)
    ensures var r := VouchForDue(b, account, self);
            Signers(VouchersOf(r, d)) == if LinkedHereOnly(b, self, d) then {self} else Signers(VouchersOf(b, d))
  {
    VouchedLists(b, account, self, d);
    if NeedsVoucher(b, self, d) {
      var v := VouchersOf(b, d);
      if v != [] { RenewalIsOwn(b, self, d); }
      RenewedSigners(v, SignStamp(self, account, d, b.linked[d]));
    }
  }

  lemma SignedByIsSigner(v: seq<Stamp>, x: Device)
    ensures SignedBy(v, x) <==> x in Signers(v)
  {
  }

  lemma VouchingKeepsMembers(b: BookState, account: string, self: Device, d: Device)
    requires Sound(b, self) && IsMember(b, d)
    ensures IsMember(VouchForDue(b, account, self), d)
  {
    var r := VouchForDue(b, account, self);
    forall x, y | SignedBy(VouchersOf(b, y), x) ensures SignedBy(VouchersOf(r, y), x) {
      VouchingSigners(b, account, self, y);
      SignedByIsSigner(VouchersOf(b, y), x);
      SignedByIsSigner(VouchersOf(r, y), x);
    }
    MembershipGrows(b, r, d);
  }

  lemma VouchingAdmitsNoMore(b: BookState, account: string, self: Device, d: Device)
    requires Sound(b, self) && b.proofsV != 0 && self != ""
    requires IsMember(VouchForDue(b, account, self), d)
    ensures IsMember(b, d) || LinkedHereOnly(b, self, d)
  {
    var r := VouchForDue(b, account, self);
    var s := iset x | Reachable(b, x) || LinkedHereOnly(b, self, x);
    var path :| Chain(r, path) && EndsAt(path, d);
    assert !IsRemoved(r, path[0]);
    RootReachable(b);
    forall x, y | x in s && SignedBy(VouchersOf(r, y), x) && !IsRemoved(r, y) ensures y in s {
      VouchingSigners(b, account, self, y);
      SignedByIsSigner(VouchersOf(r, y), x);
      if !LinkedHereOnly(b, self, y) {
        SignedByIsSigner(VouchersOf(b, y), x);
        var c :| c in VouchersOf(b, y) && c.signer == x;
        assert Knows(b, y, c);
        ReachableStep(b, x, y);
      }
    }
    ReachableIsLeast(r, d, s);
  }

  /**
    While this device is not removed, `ensure_proofs` adds to the members exactly the
    devices linked here that nobody ever vouched for. A device whose vouchers all come
    from devices since removed stays out.
   */
  lemma EnsureAdmitsExactly(b: BookState, account: string, self: Device, own: set<Device>, d: Device)
    requires self != "" && Sound(b, self) && b.proofsV != 0 && !IsRemoved(b, self)
    ensures IsMember(EnsureProofs(b, account, self, own), d) <==>
            IsMember(b, d) || LinkedHereOnly(b, self, d)
  {
    assert Upgrade(b, self, own) == b;
    var r := VouchForDue(b, account, self);
    if IsMember(b, d) {
      VouchingKeepsMembers(b, account, self, d);
    }
    if LinkedHereOnly(b, self, d) {
      VouchingSigners(b, account, self, d);
      SignedByIsSigner(VouchersOf(r, d), self);
      RootReachable(r);
      ReachableStep(r, self, d);
    }
    if IsMember(r, d) {
      VouchingAdmitsNoMore(b, account, self, d);
    }
  }

  /** A voucher by `self`, dated at `t`. */
  ghost predicate VouchedAt(v: seq<Stamp>, self: Device, t: U64) {
    exists c :: c in v && c.signer == self && c.at == t
  }

  lemma OwnVoucher(v: seq<Stamp>, self: Device, c: Stamp)
    requires OnePerSigner(v) && c in v && c.signer == self
    ensures VoucherBy(v, self) == Some(c)
  {
    var o := VoucherBy(v, self);
    assert o.Some?;
    OneVoucher(v, o.value, c);
  }

  lemma RenewedVoucher(v: seq<Stamp>, s: Stamp)
    requires OnePerSigner(v) && |v| <= MAX_VOUCHERS && (v == [] || SignedBy(v, s.signer))
    ensures s in AddTo(v, s)
  {
    SignersSize(v);
    if v != [] { assert Signers(v) + {s.signer} == Signers(v); }
    AddToWithRoom(v, s);
  }

  /** This device's voucher for `d` at its link time: exactly if nobody had vouched for it or this device had. */
  ghost predicate VouchedNow(b: BookState, r: BookState, self: Device, d: Device) {
    d != self && d in r.linked && !IsRemoved(r, d) ==>
      (VouchedAt(VouchersOf(r, d), self, r.linked[d]) <==> VouchersOf(b, d) == [] || SignedBy(VouchersOf(b, d), self))
  }

  /** Nothing else is vouched for, nor a device again whose voucher is up to date. */
  ghost predicate VouchedOnly(b: BookState, r: BookState, account: string, self: Device, d: Device) {
    && (d == self || d !in r.linked || IsRemoved(r, d) || VouchedAt(VouchersOf(b, d), self, r.linked[d]) ==>
          VouchersOf(r, d) == VouchersOf(b, d))
    && forall c :: c in VouchersOf(r, d) ==>
         c in VouchersOf(b, d) || (d in r.linked && c == SignStamp(self, account, d, r.linked[d]))
  }

  lemma VouchingVouches(b: BookState, account: string, self: Device, d: Device)
    requires VouchersInOrder(b, self)
    ensures VouchedNow(b, VouchForDue(b, account, self), self, d)
    ensures VouchedOnly(b, VouchForDue(b, account, self), account, self, d)
  {
    VouchedLists(b, account, self, d);
    VouchedList(b, account, self, d);
    var v := VouchersOf(b, d);
    assert OnePerSigner(v);
    if d != self && d in b.linked && !IsRemoved(b, d) {
      if v == [] {
        RenewedVoucher(v, SignStamp(self, account, d, b.linked[d]));
      } else if c :| c in v && c.signer == self {
        assert Knows(b, d, c);
        OwnVoucher(v, self, c);
        if c.at < b.linked[d] { RenewedVoucher(v, SignStamp(self, account, d, b.linked[d])); }
      }
    }
  }

  /**
    After vouching for what is due, a linked device that is in has this device's voucher at
    its link time exactly if nobody had vouched for it or this device had: a relink renews
    it. No other voucher is made, and none that is up to date is made again.
   */
  lemma EnsureVouches(b: BookState, account: string, self: Device, own: set<Device>, d: Device)
    requires self != "" && Sound(b, self)
    ensures VouchedNow(b, EnsureProofs(b, account, self, own), self, d)
    ensures VouchedOnly(b, EnsureProofs(b, account, self, own), account, self, d)
  {
    var u := Upgrade(b, self, own);
    SameVouchersKeepOrder(b, u, self);
    VouchingVouches(u, account, self, d);
    assert VouchersOf(u, d) == VouchersOf(b, d);
  }

  /** The same at the end of every run, with what it means for a revoked device. */
  lemma EnsureNeverRevives(states: seq<BookState>, ops: seq<Op>, self: Device, account: string, own: set<Device>,
                           d: Device)
    requires self != "" && BookRun(states, ops, self)
    requires var b := states[|ops|]; b.proofsV != 0 && !IsRemoved(b, self) && !IsMember(b, d) && VouchersOf(b, d) != []
    ensures !IsMember(EnsureProofs(states[|ops|], account, self, own), d)
  {
    RunsAreSound(states, ops, self, |ops|);
    EnsureAdmitsExactly(states[|ops|], account, self, own, d);
  }

  /** Upgrading an old book makes members of exactly the devices it trusted already. */
  lemma UpgradeKeepsTrusted(b: BookState, account: string, self: Device, own: set<Device>, d: Device)
    requires self != "" && Sound(b, self) && b.proofsV == 0 && !IsRemoved(b, self)
    ensures IsMember(EnsureProofs(b, account, self, own), d) <==>
            !IsRemoved(b, d) && (d == self || d in b.linked || d in own)
  {
    var u := Upgrade(b, self, own);
    SameVouchersKeepOrder(b, u, self);
    forall x ensures IsRemoved(u, x) ==> IsRemoved(b, x) {
    }
    forall x ensures VouchersOf(u, x) == [] {
    }
    EnsureAdmitsExactly(u, account, self, own, d);
    assert Upgrade(u, self, own) == u;
    if Reachable(u, d) {
      var path :| Chain(u, path) && EndsAt(path, d);
      assert |path| > 1 ==> SignedBy(VouchersOf(u, path[|path| - 1]), path[|path| - 2]);
    }
    RootReachable(u);
    assert IsMember(u, d) <==> d == self;
  }
}
