/** The account book as the program keeps it: maps updated in place by loops. */
module AccountBook {
  import opened Common
  import opened Sorting
  import opened Vouchers
  import opened Ledger
  import opened MergeProofs
  import opened MergeLimits
  import opened BookOps
  import opened BookRuns
  import opened Decisions

  /** What the listener answers before it merges anything a caller says; `NoAnswer` while it still merges. */
  datatype Answer = Denied | Removed(proof: Stamp) | Accepted | NoAnswer

  /** The part of a caller's first frame that concerns the book. */
  datatype Roster = Roster(
    linkProofs: map<Device, seq<Stamp>>,
    removalProofs: map<Device, Stamp>,
    removedFriends: map<Device, U64>)

  class Book {
    var linked: map<Device, U64>
    var removedDevices: map<Device, U64>
    var removedFriends: map<Device, U64>
    var linkProofs: map<Device, seq<Stamp>>
    var proofsV: nat
    var me: Device
    var removalProofs: map<Device, Stamp>
    var pending: map<Device, PendingDevice>

    ghost function Value(): BookState
      reads this
    {
      BookState(linked, removedDevices, removedFriends, linkProofs, proofsV, me, removalProofs, pending)
    }

    constructor ()
      ensures Value() == EMPTY_BOOK
    {
      linked, removedDevices, removedFriends, linkProofs := map[], map[], map[], map[];
      proofsV, me, removalProofs, pending := 0, "", map[], map[];
    }

    method IsRemovedHere(d: Device) returns (out: bool)
      ensures out == IsRemoved(Value(), d)
    {
      out := d in removedDevices && removedDevices[d] >= TimeOf(linked, d);
    }

    ghost predicate AllReachable(found: set<Device>)
      reads this
    {
      found <= linkProofs.Keys + {me} && forall d :: d in found ==> Reachable(Value(), d)
    }

    /** Is `d` still in, and vouched for by someone found already? */
    method JoinsMembers(d: Device, found: set<Device>) returns (joins: bool)
      requires d in linkProofs && AllReachable(found)
      ensures joins ==> Reachable(Value(), d)
      ensures !joins ==> d in found || IsRemoved(Value(), d) || forall x :: x in found ==> !SignedBy(linkProofs[d], x)
    {
      var out := IsRemovedHere(d);
      joins := d !in found && !out && exists c :: c in linkProofs[d] && c.signer in found;
      if joins {
        var c :| c in linkProofs[d] && c.signer in found;
        ReachableStep(Value(), c.signer, d);
      }
    }

    /** One pass over the vouchers, in whatever order the map is walked. */
    method GrowMembers(known: set<Device>) returns (found: set<Device>)
      requires AllReachable(known)
      ensures known <= found && AllReachable(found)
      ensures found == known ==>
        forall d :: d in linkProofs && d !in found && !IsRemoved(Value(), d) ==>
          forall x :: x in found ==> !SignedBy(linkProofs[d], x)
    {
      found := known;
      var rest := linkProofs.Keys;
      while rest != {}
        invariant rest <= linkProofs.Keys
        invariant known <= found && AllReachable(found)
        invariant found == known ==>
          forall d :: d in linkProofs && d !in rest && d !in found && !IsRemoved(Value(), d) ==>
            forall x :: x in found ==> !SignedBy(linkProofs[d], x)
      {
        var d :| d in rest;
        rest := rest - {d};
        var joins := JoinsMembers(d, found);
        if joins { found := found + {d}; }
      }
    }

    /** Grow the set of members until a pass over the vouchers adds nobody. */
    method ListMembers() returns (found: set<Device>)
      ensures found == Members(Value())
    {
      found := {};
      var selfRemoved := IsRemovedHere(me);
      if me != "" && !selfRemoved {
        RootReachable(Value());
        found := {me};
      }
      while true
        invariant AllReachable(found)
        invariant me != "" && !IsRemoved(Value(), me) ==> me in found
        decreases linkProofs.Keys + {me} - found
      {
        var before := found;
        found := GrowMembers(before);
        if |found| == |before| {
          SameSizeSameSet(before, found);
          FoundAll(found);
          return;
        }
        assert before <= found && found != before;
      }
    }

    lemma FoundAll(found: set<Device>)
      requires AllReachable(found) && (me != "" && !IsRemoved(Value(), me) ==> me in found)
      requires forall d :: d in linkProofs && d !in found && !IsRemoved(Value(), d) ==>
        forall x :: x in found ==> !SignedBy(linkProofs[d], x)
      ensures found == Members(Value())
    {
      MembersIsLeastFixpoint(Value(), found);
    }

    method IsMemberHere(d: Device) returns (yes: bool)
      ensures yes == IsMember(Value(), d)
    {
      var out := IsRemovedHere(d);
      if out { return false; }
      if proofsV == 0 { return true; }
      if me == "" { return d in linkProofs && linkProofs[d] != []; }
      var all := ListMembers();
      yes := d in all;
      MembersAreReachable(Value());
    }

    /** Put a voucher into its device's list: replace its signer's, newest first, and keep the newest few. */
    method AddVoucher(d: Device, s: Stamp)
      modifies this`linkProofs
      ensures linkProofs == old(linkProofs)[d := AddTo(VouchersOf(old(Value()), d), s)]
      ensures OnePerSigner(VouchersOf(old(Value()), d)) ==> TakesIn(VouchersOf(old(Value()), d), s, linkProofs[d])
    {
      ghost var before := VouchersOf(Value(), d);
      var v := if d in linkProofs then linkProofs[d] else [];
      v := Without(v, s.signer);
      v := v + [s];
      v := SortBy(v, Newer);
      if |v| > MAX_VOUCHERS {
        v := v[..MAX_VOUCHERS];
      }
      linkProofs := linkProofs[d := v];
      if OnePerSigner(before) { AddToTakesIn(before, s); }
    }

    /** Whether the checks let one stamp of a batch through. */
    method Admits(k: Batch, e: Entry) returns (ok: bool)
      ensures ok <==> Eligible(Value(), k, e)
    {
      var v := if e.eid in linkProofs then linkProofs[e.eid] else [];
      var covered := exists c :: c in v && c.signer == e.stamp.signer && c.at >= e.stamp.at;
      if covered { return false; }
      var member := IsMemberHere(e.stamp.signer);
      ok := (e.stamp.signer == k.me || member) && StampValid(k.account, e.eid, e.stamp);
    }

    /** One stamp of a batch: accepted exactly when it is new, trusted and genuine. */
    method TakeVoucher(k: Batch, e: Entry) returns (accepted: bool)
      modifies this
      ensures accepted <==> Eligible(old(Value()), k, e)
      ensures Value() == if accepted then Accept(old(Value()), k.now, e) else old(Value())
    {
      accepted := Admits(k, e);
      if accepted { Record(k.now, e); }
    }

    /** Keep one voucher: link time, list and pending devices. */
    method Record(now: U64, e: Entry)
      modifies this
      ensures Value() == Accept(old(Value()), now, e)
    {
      var at := Clamp(now, e.stamp.at);
      linked := linked[e.eid := Max(TimeOf(linked, e.eid), at)];
      AddVoucher(e.eid, e.stamp.(at := at));
      pending := pending - {e.eid};
    }

    /** One stamp of a run: one more step when it is accepted. */
    method TakeNext(k: Batch, e: Entry, ghost b: BookState, ghost tr: seq<Entry>)
      returns (accepted: bool, ghost tr': seq<Entry>)
      requires Offered(k, e) && Reaches(b, k, tr, Value())
      modifies this
      ensures Reaches(b, k, tr', Value())
      ensures if accepted then |tr'| == |tr| + 1
              else tr' == tr && Value() == old(Value()) && !Eligible(Value(), k, e)
    {
      ghost var before := Value();
      accepted := TakeVoucher(k, e);
      tr' := tr;
      if accepted {
        ReachFurther(b, k, tr, before, e);
        tr' := tr + [e];
      }
    }

    /** The stamps a batch offers for one device, in order. */
    method TakeStamps(k: Batch, d: Device, ghost b: BookState, ghost tr: seq<Entry>)
      returns (progress: bool, ghost tr': seq<Entry>)
      requires d in k.proofs && Reaches(b, k, tr, Value())
      modifies this
      ensures Reaches(b, k, tr', Value())
      ensures if progress then |tr'| > |tr| else tr' == tr && Value() == old(Value()) && NothingFor(Value(), k, d)
    {
      ghost var start := Value();
      var stamps := Taken(k.proofs[d]);
      progress, tr' := false, tr;
      for i := 0 to |stamps|
        invariant Reaches(b, k, tr', Value())
        invariant if progress then |tr'| > |tr|
                  else tr' == tr && Value() == start && NothingYet(start, k, d, stamps[..i])
      {
        var accepted;
        accepted, tr' := TakeNext(k, Entry(d, stamps[i]), b, tr');
        if !accepted && !progress {
          NothingMore(start, k, d, stamps, i);
        }
        progress := progress || accepted;
      }
      assert stamps[..|stamps|] == stamps;
    }

    /** One pass over the whole batch, in whatever order the map is walked. */
    method OnePass(k: Batch, ghost b: BookState, ghost tr: seq<Entry>)
      returns (progress: bool, ghost tr': seq<Entry>)
      requires Reaches(b, k, tr, Value())
      modifies this
      ensures Reaches(b, k, tr', Value())
      ensures if progress then |tr'| > |tr| else tr' == tr && Value() == old(Value()) && Settled(Value(), k)
    {
      ghost var start := Value();
      progress, tr' := false, tr;
      var rest := k.proofs.Keys;
      while rest != {}
        invariant rest <= k.proofs.Keys
        invariant Reaches(b, k, tr', Value())
        invariant if progress then |tr'| > |tr| else tr' == tr && Value() == start && NothingBut(start, k, rest)
      {
        var d :| d in rest;
        var more;
        more, tr' := TakeStamps(k, d, b, tr');
        progress := progress || more;
        rest := rest - {d};
      }
      if !progress { NothingLeft(start, k); }
    }

    /**
      Merge another device's vouchers until a whole pass accepts none, or `passes` are over:
      the program gives it any number, and on some batches no number is enough (see
      `StopsExactlyWhenInClamp` and `CrowdedStampNeverSettles`). Whatever order the maps are
      walked in, the book is one a run reaches. Once it stopped it is settled, and it stops
      when there is room and every acceptable stamp is within the clamp.
     */
    method MergeVouchers(k: Batch, passes: nat) returns (stopped: bool, changed: bool, ghost tr: seq<Entry>)
      modifies this
      ensures Reaches(old(Value()), k, tr, Value())
      ensures stopped ==> Settled(Value(), k)
      ensures changed <==> tr != []
      ensures Settled(old(Value()), k) ==> !changed && Value() == old(Value())
      ensures Mergeable(old(Value()), k) && passes > |Outstanding(old(Value()), k)| ==> stopped
    {
      ghost var b := Value();
      tr, changed, stopped := [], false, false;
      var left := passes;
      while left > 0 && !stopped
        invariant Reaches(b, k, tr, Value()) && (changed <==> tr != [])
        invariant stopped ==> Settled(Value(), k)
        invariant left <= passes && (!stopped ==> |tr| >= passes - left)
      {
        var progress;
        progress, tr := OnePass(k, b, tr);
        changed := changed || progress;
        stopped := !progress;
        left := left - 1;
      }
      if Settled(b, k) { SettledRunsAreEmpty(b, k, tr); }
      if Mergeable(b, k) { RunsAreBounded(b, k, tr); }
    }

    /** One signed removal: believed exactly when it is new, from someone entitled, and genuine. */
    method TakeRemoval(k: Removals, d: Device) returns (accepted: bool)
      requires d in k.stamps
      modifies this
      ensures accepted <==> RemovalEligible(old(Value()), k, d)
      ensures Value() == if accepted then AcceptRemoval(old(Value()), k.now, d, k.stamps[d]) else old(Value())
    {
      var s := k.stamps[d];
      if d in removalProofs && removalProofs[d].at >= s.at { return false; }
      var member := IsMemberHere(s.signer);
      accepted := (s.signer == d || s.signer == k.me || member) && RemovalValid(k.account, d, s);
      if accepted {
        var at := Clamp(k.now, s.at);
        removedDevices := removedDevices[d := Max(TimeOf(removedDevices, d), at)];
        removalProofs := removalProofs[d := s.(at := at)];
        pending := pending - {d};
      }
    }

    /**
      Merge another device's removals, one walk in any order. Nothing believable is
      skipped: what is still eligible afterwards was dated past the clamp. What is kept of
      those accepted is the stamp as it was offered, only a time past the clamp cut.
     */
    method MergeRemovals(k: Removals) returns (changed: bool, ghost tr: seq<Device>)
      modifies this
      ensures forall d ::
        if d in tr then TookRemoval(old(Value()), k, Value(), d) else LeftAlone(old(Value()), Value(), d)
      ensures RemovalTrace(old(Value()), k, tr) && Value() == AcceptRemovals(old(Value()), k, tr)
      ensures changed <==> tr != []
      ensures forall d :: RemovalEligible(Value(), k, d) ==> k.stamps[d].at > ClampBound(k.now)
    {
      ghost var b := Value();
      changed, tr := false, [];
      var rest := k.stamps.Keys;
      while rest != {}
        invariant rest <= k.stamps.Keys
        invariant RemovalTrace(b, k, tr) && Value() == AcceptRemovals(b, k, tr) && (changed <==> tr != [])
        invariant forall d :: d !in rest && RemovalEligible(Value(), k, d) ==> k.stamps[d].at > ClampBound(k.now)
      {
        var d :| d in rest;
        rest := rest - {d};
        ghost var before := Value();
        var accepted := TakeRemoval(k, d);
        if accepted {
          assert (tr + [d])[..|tr|] == tr;
          tr, changed := tr + [d], true;
          RemovalsStayDecided(before, k, d);
        }
      }
      forall d { RemovalsAreTaken(b, k, tr, d); }
    }

    /**
      This device joined or saw another join the account: the device is in from now on, unless
      its removal is at the last 64-bit time, and nobody else's place changes for the worse.
     */
    method MarkLinkedHere(d: Device, now: U64)
      modifies this`linked
      ensures Value() == MarkLinked(old(Value()), d, now)
      ensures IsRemoved(Value(), d) <==> d in removedDevices && removedDevices[d] == U64_MAX
      ensures linked[d] >= now && linked[d] >= TimeOf(old(linked), d)
      ensures forall x :: x != d ==> (IsRemoved(Value(), x) <==> IsRemoved(old(Value()), x))
      ensures forall x :: IsMember(old(Value()), x) ==> IsMember(Value(), x)
    {
      ghost var before := Value();
      var at := Max(TimeOf(linked, d), now);
      if d in removedDevices {
        at := Max(at, SatAdd(removedDevices[d], 1));
      }
      linked := linked[d := at];
      LinkingKeepsMembers(before, d, now);
    }

    /**
      The user removed a device here: it is out, the members left are those reached without
      it, and a signed removal is one every other device can check.
     */
    method RemoveDeviceHere(account: string, d: Device, now: U64, signer: Option<Device>)
      modifies this
      ensures Value() == RemoveDevice(old(Value()), account, d, now, signer)
      ensures IsRemoved(Value(), d) && d !in pending
      ensures forall x :: Reachable(Value(), x) <==> ReachedAround(old(Value()), d, x)
      ensures signer.Some? ==> d in removalProofs && RemovalValid(account, d, removalProofs[d])
                               && removalProofs[d].signer == signer.value && removalProofs[d].at == removedDevices[d]
    {
      ghost var before := Value();
      var at := Max(now, TimeOf(removedDevices, d));
      if d in linked {
        at := Max(at, SatAdd(linked[d], 1));
      }
      removedDevices := removedDevices[d := at];
      if signer.Some? {
        removalProofs := removalProofs[d := SignRemoval(signer.value, account, d, at)];
      }
      pending := pending - {d};
      assert Value() == RemoveDevice(before, account, d, now, signer);
      forall x ensures Reachable(Value(), x) <==> ReachedAround(before, d, x) {
        RemovalIsSeenHere(before, account, d, now, signer, x);
      }
    }

    /** The user approved a waiting device: it no longer waits, and is in here unless its removal is pinned. */
    method ApproveDeviceHere(account: string, d: Device, now: U64, self: Device) returns (ok: bool)
      modifies this
      ensures ok <==> d in old(pending)
      ensures pending == old(pending) - {d}
      ensures ok && CanApprove(old(Value()), self, d) ==>
        (IsMember(Value(), d) <==> !(d in removedDevices && removedDevices[d] == U64_MAX))
      ensures ok <==> ApproveDevice(old(Value()), account, d, now, self).Ok?
      ensures Value() == if ok then ApproveDevice(old(Value()), account, d, now, self).value else old(Value())
    {
      ghost var before := Value();
      if d in pending && CanApprove(before, self, d) { ApprovedIsIn(before, account, d, now, self); }
      ok := LinkAndVouch(account, d, now, self);
    }

    method LinkAndVouch(account: string, d: Device, now: U64, self: Device) returns (ok: bool)
      modifies this
      ensures ok <==> d in old(pending)
      ensures Value() == if ok then ApproveDevice(old(Value()), account, d, now, self).value else old(Value())
    {
      ok := d in pending;
      pending := pending - {d};
      if ok {
        var at := Max(Max(now, SatAdd(TimeOf(linked, d), 1)),
                      if d in removedDevices then SatAdd(removedDevices[d], 1) else 0);
        linked := linked[d := at];
        AddVoucher(d, SignStamp(self, account, d, at));
      }
    }

    /** A device's hello says it left the account: true if that took it out. */
    method ApplyLeftHere(account: string, who: Device, n: LeftNotice, own: bool, now: U64) returns (removed: bool)
      modifies this`removedDevices, this`removalProofs
      ensures Value() == ApplyLeft(old(Value()), account, who, n, own, now)
      ensures removed <==> Leaves(old(Value()), who, n, own)
      ensures IsRemoved(Value(), who) <==> IsRemoved(old(Value()), who) || removed
      ensures removed ==> SaidSo(old(Value()), Value(), account, who, n, now)
    {
      LeftLaw(Value(), account, who, n, own, now);
      removed := TakeNotice(account, who, n, own, now);
    }

    method TakeNotice(account: string, who: Device, n: LeftNotice, own: bool, now: U64) returns (removed: bool)
      modifies this`removedDevices, this`removalProofs
      ensures Value() == ApplyLeft(old(Value()), account, who, n, own, now)
      ensures removed <==> Leaves(old(Value()), who, n, own)
    {
      if who !in linked && !own { return false; }
      var at := TimeOf(linked, who);
      var current := if n.since.Some? then n.since.value >= at else n.at > at;
      var out := IsRemovedHere(who);
      if !current || out { return false; }
      removedDevices := removedDevices[who := Max(Max(TimeOf(removedDevices, who), Clamp(now, n.at)), SatAdd(at, 1))];
      if n.proof.Some? && n.proof.value.signer == who && RemovalValid(account, who, n.proof.value) {
        removalProofs := removalProofs[who := n.proof.value];
      }
      return true;
    }

    /**
      A device proved the account key but nobody vouches for it: it is listed for approval,
      unless it is a member, removed or this device, or sixteen others wait already.
     */
    method NotePendingHere(d: Device, p: PendingDevice)
      modifies this`pending
      ensures Value() == NotePending(old(Value()), d, p)
      ensures pending == old(pending)[d := p] || pending == old(pending)
      ensures Waits(old(Value()), d) ==> d in pending && pending[d] == p
      ensures pending != old(pending) ==> Waits(old(Value()), d)
    {
      var member := IsMemberHere(d);
      var out := IsRemovedHere(d);
      if proofsV == 0 || member || out || d == me { return; }
      if |pending| >= MAX_PENDING && d !in pending { return; }
      pending := pending[d := p];
    }

    /** Keep the devices an old book trusted, in any order. */
    method AdoptOwn(self: Device, own: set<Device>)
      modifies this`linked
      ensures linked.Keys == old(linked).Keys + set d | d in own && d != self && !IsRemoved(old(Value()), d)
      ensures forall d :: d in linked ==> linked[d] == if d in old(linked) then old(linked[d]) else 1
    {
      var before := linked;
      var rest := own;
      while rest != {}
        invariant rest <= own
        invariant before.Keys <= linked.Keys
        invariant linked.Keys == before.Keys + set d | d in own - rest && d != self && !IsRemoved(old(Value()), d)
        invariant forall d :: d in linked ==> linked[d] == if d in before then before[d] else 1
      {
        var d :| d in rest;
        rest := rest - {d};
        if d != self && d !in linked {
          var out := IsRemovedHere(d);
          if !out { linked := linked[d := 1]; }
        }
      }
    }

    method UpgradeHere(self: Device, own: set<Device>)
      modifies this
      ensures Value() == Upgrade(old(Value()), self, own)
    {
      ghost var b := Value();
      me := self;
      if proofsV == 0 {
        AdoptOwn(self, own);
        proofsV := 1;
        AdoptedIsUpgrade(b, self, own, linked);
      }
    }

    /** Vouch for each device that is due, in any order. */
    method VouchFor(due: set<Device>, account: string, self: Device)
      requires due == Due(Value(), self)
      modifies this`linkProofs
      ensures linkProofs == old(linkProofs) + DueVouchers(old(Value()), account, self)
    {
      VouchForEach(due, account, self, DueVouchers(Value(), account, self));
    }

    /** `want`: the lists to end with. */
    method VouchForEach(due: set<Device>, account: string, self: Device, ghost want: map<Device, seq<Stamp>>)
      requires due == want.Keys <= linked.Keys
      requires forall d :: d in want ==>
                 want[d] == AddTo(VouchersOf(Value(), d), SignStamp(self, account, d, linked[d]))
      modifies this`linkProofs
      ensures linkProofs == old(linkProofs) + want
    {
      ghost var before := linkProofs;
      var rest := due;
      while rest != {}
        invariant rest <= due
        invariant Halfway(linkProofs, before, want, rest)
      {
        var d :| d in rest;
        HalfwayStep(linkProofs, before, want, rest, d);
        AddVoucher(d, SignStamp(self, account, d, linked[d]));
        rest := rest - {d};
      }
    }

    method IsDue(self: Device, d: Device) returns (due: bool)
      ensures due == NeedsVoucher(Value(), self, d)
    {
      var out := IsRemovedHere(d);
      if d !in linked || d == self || out { return false; }
      var v := if d in linkProofs then linkProofs[d] else [];
      if v == [] { return true; }
      var mine := VoucherBy(v, self);
      due := mine.Some? && mine.value.at < linked[d];
    }

    method FindDue(self: Device) returns (due: set<Device>)
      ensures due == Due(Value(), self)
    {
      due := {};
      var rest := linked.Keys;
      while rest != {}
        invariant rest <= linked.Keys
        invariant due == set d | d in linked && d !in rest && NeedsVoucher(Value(), self, d)
      {
        var d :| d in rest;
        rest := rest - {d};
        var needs := IsDue(self, d);
        if needs { due := due + {d}; }
      }
    }

    /**
      Vouch for every device linked here that is due: whoever nobody vouched for, and whoever
      this device vouched for before it was linked again.
     */
    method EnsureVouchers(account: string, self: Device, own: set<Device>)
      modifies this
      ensures Value() == EnsureProofs(old(Value()), account, self, own)
      ensures self != "" && Sound(old(Value()), self) ==>
        forall d :: VouchedNow(old(Value()), Value(), self, d) && VouchedOnly(old(Value()), Value(), account, self, d)
    {
      if self != "" && Sound(Value(), self) {
        forall d ensures VouchedNow(Value(), EnsureProofs(Value(), account, self, own), self, d)
          && VouchedOnly(Value(), EnsureProofs(Value(), account, self, own), account, self, d)
        {
          EnsureVouches(Value(), account, self, own, d);
        }
      }
      UpgradeHere(self, own);
      ghost var b := Value();
      var due := FindDue(self);
      VouchFor(due, account, self);
    }

    /** A friend removed on another own device: times merge by maximum. */
    method MergeRemovedFriends(theirs: map<Device, U64>, now: U64)
      modifies this`removedFriends
      ensures removedFriends == MergeTimes(old(removedFriends), theirs, now)
    {
      var before := removedFriends;
      var rest := theirs.Keys;
      while rest != {}
        invariant rest <= theirs.Keys
        invariant removedFriends.Keys == before.Keys + (theirs.Keys - rest)
        invariant forall d :: d in removedFriends ==>
          removedFriends[d] ==
            if d in theirs && d !in rest then Max(TimeOf(before, d), Clamp(now, theirs[d])) else before[d]
      {
        var d :| d in rest;
        rest := rest - {d};
        removedFriends := removedFriends[d := Max(TimeOf(removedFriends, d), Clamp(now, theirs[d]))];
      }
    }

    /**
      The listener's side of an exchange, up to the point where the caller is accepted.
      `verified`: the caller named this account and proved its key. Only the caller's
      vouchers are merged before it is judged. A caller that still is not a member then
      gets no removal and nothing else merged; a removed one is told with the signed
      removal when there is one. While the merge goes on nothing is answered.
     */
    method Serve(verified: bool, account: string, self: Device, own: set<Device>,
                 who: Device, roster: Roster, now: U64, passes: nat)
      returns (answer: Answer, ghost judged: BookState, ghost tr: seq<Entry>, ghost removals: seq<Device>)
      requires self != ""
      modifies this
      ensures !verified ==> answer == Denied && Value() == old(Value())
      ensures verified ==>
        var ready := EnsureProofs(old(Value()), account, self, own);
        Judged(ready, Batch(account, self, now, roster.linkProofs), tr, judged, passes, answer)
      ensures verified ==> (answer == Accepted <==> answer != NoAnswer && IsMember(judged, who))
      ensures verified && answer != Accepted ==> Value() == judged
      ensures verified && answer != NoAnswer && IsRemoved(judged, who) ==> answer == ToldRemoved(judged, who)
      ensures AllRemovalsValid(old(Value()), account) && answer.Removed? ==> RemovalValid(account, who, answer.proof)
      ensures answer == Accepted ==>
        var k := Removals(account, self, now, roster.removalProofs);
        AcceptedAfter(judged, k, removals, roster.removedFriends, Value())
    {
      answer, judged, tr, removals := Denied, Value(), [], [];
      if !verified { return; }
      EnsureVouchers(account, self, own);
      var k := Batch(account, self, now, roster.linkProofs);
      var stopped, changed;
      stopped, changed, tr := MergeVouchers(k, passes);
      judged := Value();
      VouchersLeaveRemovals(EnsureProofs(old(Value()), account, self, own), now, tr);
      if !stopped {
        answer := NoAnswer;
        return;
      }
      var out := IsRemovedHere(who);
      if out {
        if who in removalProofs { answer := Removed(removalProofs[who]); }
        return;
      }
      var member := IsMemberHere(who);
      if !member { return; }
      answer := Accepted;
      removals := MergeAccepted(k, judged, roster);
    }

    /** The rest of an accepted caller's roster: its vouchers again, then removals and removed friends. */
    method MergeAccepted(k: Batch, ghost judged: BookState, roster: Roster) returns (ghost removals: seq<Device>)
      requires Value() == judged && Settled(judged, k)
      modifies this
      ensures var r := Removals(k.account, k.me, k.now, roster.removalProofs);
              AcceptedAfter(judged, r, removals, roster.removedFriends, Value())
    {
      var again;
      ghost var tr;
      again, tr := OnePass(k, judged, []);
      SettledRunsAreEmpty(judged, k, tr);
      var removed;
      removed, removals := MergeRemovals(Removals(k.account, k.me, k.now, roster.removalProofs));
      RemovalRun(judged, Removals(k.account, k.me, k.now, roster.removalProofs), removals);
      MergeRemovedFriends(roster.removedFriends, k.now);
    }
  }

  lemma {:induction false} VouchersLeaveRemovals(b: BookState, now: U64, tr: seq<Entry>)
    ensures AcceptAll(b, now, tr).removalProofs == b.removalProofs
  {
    if tr != [] { VouchersLeaveRemovals(b, now, tr[..|tr| - 1]); }
  }

  /** Every stored removal carries its signer's signature. */
  ghost predicate AllRemovalsValid(b: BookState, account: string) {
    forall d :: d in b.removalProofs ==> RemovalValid(account, d, b.removalProofs[d])
  }

  /** A caller is judged by a book some run over its vouchers reaches, settled unless there is no answer. */
  ghost predicate Judged(ready: BookState, k: Batch, tr: seq<Entry>, judged: BookState, passes: nat, answer: Answer) {
    && Reaches(ready, k, tr, judged)
    && (answer != NoAnswer ==> Settled(judged, k))
    && (Mergeable(ready, k) && passes > |Outstanding(ready, k)| ==> answer != NoAnswer)
  }

  function ToldRemoved(judged: BookState, who: Device): Answer {
    if who in judged.removalProofs then Removed(judged.removalProofs[who]) else Denied
  }

  /** The book after an accepted caller: believable removals, and the times of removed friends. */
  ghost predicate AcceptedAfter(judged: BookState, k: Removals, removals: seq<Device>, friends: map<Device, U64>,
                                after: BookState) {
    && RemovalTrace(judged, k, removals)
    && after == AcceptRemovals(judged, k, removals).(
                  removedFriends := MergeTimes(judged.removedFriends, friends, k.now))
  }

  lemma AdoptedIsUpgrade(b: BookState, self: Device, own: set<Device>, m: map<Device, U64>)
    requires b.proofsV == 0
    requires m.Keys == b.linked.Keys + set d | d in own && d != self && !IsRemoved(b, d)
    requires forall d :: d in m ==> m[d] == if d in b.linked then b.linked[d] else 1
    ensures m == Upgrade(b, self, own).linked
  {
  }

  /** Between `before` and `before + want`, with `rest` still to change. */
  ghost predicate Halfway<K, V>(m: map<K, V>, before: map<K, V>, want: map<K, V>, rest: set<K>) {
    && m.Keys == before.Keys + (want.Keys - rest)
    && forall d :: d in m ==> m[d] == if d in want && d !in rest then want[d] else before[d]
  }

  lemma HalfwayStep<K, V>(m: map<K, V>, before: map<K, V>, want: map<K, V>, rest: set<K>, d: K)
    requires Halfway(m, before, want, rest) && d in rest && d in want
    ensures (d in m <==> d in before) && (d in m ==> m[d] == before[d])
    ensures Halfway(m[d := want[d]], before, want, rest - {d})
  {
  }

  /** This device is in itself, and its clock for `d` is not at its end. */
  ghost predicate CanApprove(b: BookState, self: Device, d: Device) {
    self != "" && self != d && Sound(b, self) && b.proofsV != 0 && !IsRemoved(b, self) && TimeOf(b.linked, d) < U64_MAX
  }

  lemma ApprovedIsIn(b: BookState, account: string, d: Device, now: U64, self: Device)
    requires d in b.pending && CanApprove(b, self, d)
    ensures IsMember(ApproveDevice(b, account, d, now, self).value, d) <==>
              !(d in b.removedDevices && b.removedDevices[d] == U64_MAX)
  {
    assert VouchersInOrder(b, self) && OnePerSigner(VouchersOf(b, d));
    forall c | c in VouchersOf(b, d) ensures c.at <= TimeOf(b.linked, d) {
      assert Knows(b, d, c);
    }
    ApprovalAdmits(b, account, d, now);
  }

  /** A stranger with room on the list, in a book in use. */
  ghost predicate Waits(b: BookState, d: Device) {
    && b.proofsV != 0 && d != b.me && !IsMember(b, d) && !IsRemoved(b, d)
    && (d in b.pending || |b.pending| < 16)
  }

  /** Times merge to the least that is no earlier than ours and theirs as the clamp lets them in. */
  lemma MergeTimesIsJoin(mine: map<Device, U64>, theirs: map<Device, U64>, now: U64, other: map<Device, U64>)
    ensures var r := MergeTimes(mine, theirs, now);
            && NoEarlier(mine, r) && NoEarlier(map d | d in theirs :: Clamp(now, theirs[d]), r)
            && (NoEarlier(mine, other) && NoEarlier(map d | d in theirs :: Clamp(now, theirs[d]), other) ==>
                  NoEarlier(r, other))
  {
    var theirTimes := map d | d in theirs :: Clamp(now, theirs[d]);
    if NoEarlier(mine, other) && NoEarlier(theirTimes, other) {
      forall d | d in MergeTimes(mine, theirs, now) ensures d in other && MergeTimes(mine, theirs, now)[d] <= other[d] {
        assert d in theirs ==> d in theirTimes;
      }
    }
  }

  ghost predicate NoEarlier(m: map<Device, U64>, n: map<Device, U64>) {
    forall d :: d in m ==> d in n && m[d] <= n[d]
  }

  function MergeTimes(mine: map<Device, U64>, theirs: map<Device, U64>, now: U64): map<Device, U64> {
    map d | d in mine.Keys + theirs.Keys ::
      if d in theirs then Max(TimeOf(mine, d), Clamp(now, theirs[d])) else mine[d]
  }

  ghost predicate Reaches(b: BookState, k: Batch, tr: seq<Entry>, v: BookState) {
    MergeTrace(b, k, tr) && v == AcceptAll(b, k.now, tr)
  }

  ghost predicate NothingYet(b: BookState, k: Batch, d: Device, stamps: seq<Stamp>) {
    forall s :: s in stamps ==> !Eligible(b, k, Entry(d, s))
  }

  lemma NothingMore(b: BookState, k: Batch, d: Device, stamps: seq<Stamp>, i: nat)
    requires i < |stamps| && !Eligible(b, k, Entry(d, stamps[i]))
    ensures NothingYet(b, k, d, stamps[..i]) ==> NothingYet(b, k, d, stamps[..i + 1])
  {
    assert stamps[..i + 1] == stamps[..i] + [stamps[i]];
  }

  ghost predicate NothingFor(b: BookState, k: Batch, d: Device)
    requires d in k.proofs
  {
    NothingYet(b, k, d, Taken(k.proofs[d]))
  }

  /** Nothing is left to accept for any device but those in `rest`. */
  ghost predicate NothingBut(b: BookState, k: Batch, rest: set<Device>) {
    forall d :: d in k.proofs && d !in rest ==> NothingFor(b, k, d)
  }

  lemma NothingLeft(b: BookState, k: Batch)
    requires NothingBut(b, k, {})
    ensures Settled(b, k)
  {
    forall e | Offered(k, e) ensures !Eligible(b, k, e) {
      assert NothingFor(b, k, e.eid);
      assert Entry(e.eid, e.stamp) == e;
    }
  }

  lemma LinkingKeepsMembers(b: BookState, d: Device, now: U64)
    ensures var r := MarkLinked(b, d, now);
            && (forall x :: x != d ==> (IsRemoved(r, x) <==> IsRemoved(b, x)))
            && forall x :: IsMember(b, x) ==> IsMember(r, x)
  {
    var r := MarkLinked(b, d, now);
    assert forall x :: IsRemoved(r, x) ==> IsRemoved(b, x);
    forall x | IsMember(b, x) ensures IsMember(r, x) {
      MembershipGrows(b, r, x);
    }
  }

  /** Accepting one removal never makes another believable again. */
  lemma RemovalsStayDecided(b: BookState, k: Removals, d: Device)
    requires RemovalEligible(b, k, d)
    ensures var r := AcceptRemoval(b, k.now, d, k.stamps[d]);
            && (forall x :: x != d && RemovalEligible(r, k, x) ==> RemovalEligible(b, k, x))
            && (RemovalEligible(r, k, d) ==> k.stamps[d].at > ClampBound(k.now))
  {
    var r := AcceptRemoval(b, k.now, d, k.stamps[d]);
    assert OnlyRemoves(b, r);
    forall x | x != d && RemovalEligible(r, k, x) ensures RemovalEligible(b, k, x) {
      if IsMember(r, k.stamps[x].signer) {
        MembershipShrinks(b, r, k.stamps[x].signer);
      }
    }
  }

  lemma ReachFurther(b: BookState, k: Batch, tr: seq<Entry>, v: BookState, e: Entry)
    requires Reaches(b, k, tr, v) && Offered(k, e) && Eligible(v, k, e)
    ensures Reaches(b, k, tr + [e], Accept(v, k.now, e))
  {
    ExtendTrace(b, k, tr, e);
  }
}
