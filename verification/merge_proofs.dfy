/**
  Merging another device's vouchers. One accepted stamp is a step; a merge is any
  sequence of accepted steps that ends with nothing left to accept, since the program
  walks its hash maps in no particular order.
 */
module MergeProofs {
  import opened Common
  import opened Vouchers
  import opened Ledger

  /** One incoming batch, with the account, this device and the clock it is merged under. */
  datatype Batch = Batch(account: string, me: Device, now: U64, proofs: map<Device, seq<Stamp>>)

  datatype Entry = Entry(eid: Device, stamp: Stamp)

  function ClampBound(now: U64): U64 {
    SatAdd(now, SKEW_MS)
  }

  function Clamp(now: U64, t: U64): U64 {
    Min(t, ClampBound(now))
  }

  /** Only the first few stamps a batch lists for a device are looked at. */
  function Taken(v: seq<Stamp>): seq<Stamp> {
    if |v| > MAX_VOUCHERS then v[..MAX_VOUCHERS] else v
  }

  ghost predicate Offered(k: Batch, e: Entry) {
    e.eid in k.proofs && e.stamp in Taken(k.proofs[e.eid])
  }

  /** A voucher from the same signer, at least as new, is already kept. */
  ghost predicate Covered(b: BookState, e: Entry) {
    exists c :: c in VouchersOf(b, e.eid) && c.signer == e.stamp.signer && c.at >= e.stamp.at
  }

  ghost predicate Trusted(b: BookState, k: Batch, who: Device) {
    who == k.me || IsMember(b, who)
  }

  ghost predicate Eligible(b: BookState, k: Batch, e: Entry) {
    !Covered(b, e) && Trusted(b, k, e.stamp.signer) && StampValid(k.account, e.eid, e.stamp)
  }

  /** The book after accepting one stamp. */
  function Accept(b: BookState, now: U64, e: Entry): BookState {
    var at := Clamp(now, e.stamp.at);
    b.(linked := b.linked[e.eid := Max(TimeOf(b.linked, e.eid), at)],
       linkProofs := b.linkProofs[e.eid := AddTo(VouchersOf(b, e.eid), e.stamp.(at := at))],
       pending := b.pending - {e.eid})
  }

  function AcceptAll(b: BookState, now: U64, tr: seq<Entry>): BookState {
    if tr == [] then b
    else Accept(AcceptAll(b, now, tr[..|tr| - 1]), now, tr[|tr| - 1])
  }

  /** `tr` lists stamps the loop accepts one after another, starting from `b`. */
  ghost predicate MergeTrace(b: BookState, k: Batch, tr: seq<Entry>) {
    tr == [] ||
    (var init, last := tr[..|tr| - 1], tr[|tr| - 1];
     && MergeTrace(b, k, init)
     && Offered(k, last)
     && Eligible(AcceptAll(b, k.now, init), k, last))
  }

  /** The loop stops here: a whole pass accepts nothing. */
  ghost predicate Settled(b: BookState, k: Batch) {
    forall e :: Offered(k, e) ==> !Eligible(b, k, e)
  }

  // ---------- which stamps could ever matter ----------

  ghost predicate Genuine(k: Batch, e: Entry) {
    Offered(k, e) && StampValid(k.account, e.eid, e.stamp)
  }

  ghost predicate Vouches(b: BookState, k: Batch, signer: Device, d: Device) {
    || SignedBy(VouchersOf(b, d), signer)
    || exists s: Stamp :: s.signer == signer && Genuine(k, Entry(d, s))
  }

  /** `d` is not removed, or someone in `s` offers a link newer than its removal. */
  ghost predicate StaysIn(b: BookState, k: Batch, d: Device, s: iset<Device>) {
    || !IsRemoved(b, d)
    || exists c: Stamp :: c.signer in s && Genuine(k, Entry(d, c)) && Clamp(k.now, c.at) > b.removedDevices[d]
  }

  /** `s` holds everyone trusted already and everyone those in it vouch for. */
  ghost predicate ClosedUnderVouching(b: BookState, k: Batch, s: iset<Device>) {
    && (forall x :: Trusted(b, k, x) ==> x in s)
    && (forall x, d :: x in s && Vouches(b, k, x, d) && StaysIn(b, k, d, s) ==> d in s)
  }

  /** `who` is in the smallest circle of devices closed under stored and offered vouchers. */
  ghost predicate Trustable(b: BookState, k: Batch, who: Device) {
    forall s: iset<Device> :: ClosedUnderVouching(b, k, s) ==> who in s
  }

  ghost predicate Relevant(b: BookState, k: Batch, e: Entry) {
    Genuine(k, e) && Trustable(b, k, e.stamp.signer)
  }

  /** No stamp that could be accepted is dated past what the clamp allows. */
  ghost predicate InClamp(b: BookState, k: Batch) {
    forall e :: Relevant(b, k, e) ==> e.stamp.at <= ClampBound(k.now)
  }

  /** Signers of stamps for `d` that could be accepted. */
  ghost function RelevantSigners(b: BookState, k: Batch, d: Device): set<Device> {
    if d in k.proofs then
      set s | s in Taken(k.proofs[d]) && Relevant(b, k, Entry(d, s)) :: s.signer
    else {}
  }

  /** No device ends up with more signers than its list holds. */
  ghost predicate Room(b: BookState, k: Batch) {
    forall d :: |Signers(VouchersOf(b, d)) + RelevantSigners(b, k, d)| <= MAX_VOUCHERS
  }

  ghost predicate TidyLists(b: BookState) {
    forall d :: OnePerSigner(VouchersOf(b, d))
  }

  /** Vouchers are merged only by a book that uses them and knows its own device. */
  ghost predicate Ready(b: BookState, k: Batch) {
    b.proofsV != 0 && b.me == k.me && b.me != ""
  }

  ghost predicate Mergeable(b: BookState, k: Batch) {
    Ready(b, k) && TidyLists(b) && InClamp(b, k) && Room(b, k)
  }

  // ---------- what every run keeps ----------

  /** `c` is kept for `d`. */
  ghost predicate Knows(b: BookState, d: Device, c: Stamp) {
    c in VouchersOf(b, d)
  }

  /** Everything a run of accepted stamps leaves alone. */
  ghost predicate Frame(b: BookState, r: BookState) {
    && r.removedDevices == b.removedDevices && r.removalProofs == b.removalProofs
    && r.removedFriends == b.removedFriends
    && r.me == b.me && r.proofsV == b.proofsV
    && b.linked.Keys <= r.linked.Keys
    && b.linkProofs.Keys <= r.linkProofs.Keys
    && forall d :: TimeOf(b.linked, d) <= TimeOf(r.linked, d)
  }

  lemma FrameIsTransitive(a: BookState, b: BookState, c: BookState)
    requires Frame(a, b) && Frame(b, c)
    ensures Frame(a, c)
  {
    forall d ensures TimeOf(a.linked, d) <= TimeOf(c.linked, d) {
      assert TimeOf(a.linked, d) <= TimeOf(b.linked, d) <= TimeOf(c.linked, d);
    }
  }

  /** The stamp as it is stored. */
  function Stored(now: U64, s: Stamp): Stamp {
    s.(at := Clamp(now, s.at))
  }

  lemma AcceptLists(b: BookState, now: U64, e: Entry)
    ensures var r := Accept(b, now, e);
            var s := Stored(now, e.stamp);
            && VouchersOf(r, e.eid) == AddTo(VouchersOf(b, e.eid), s)
            && (forall d :: d != e.eid ==> VouchersOf(r, d) == VouchersOf(b, d))
            && r.linked.Keys == b.linked.Keys + {e.eid}
            && r.linked[e.eid] == Max(TimeOf(b.linked, e.eid), s.at)
            && (forall d :: d != e.eid ==> TimeOf(r.linked, d) == TimeOf(b.linked, d))
  {
  }

  lemma SignerOf(v: seq<Stamp>, c: Stamp)
    requires c in v
    ensures c.signer in Signers(v) && SignedBy(v, c.signer)
  {
  }

  // ---------- every run at all ----------

  /** A voucher offered by someone trustable, as it is stored. */
  ghost predicate Arrived(b: BookState, k: Batch, d: Device, c: Stamp) {
    exists s: Stamp :: Relevant(b, k, Entry(d, s)) && c == Stored(k.now, s)
  }

  ghost predicate RaisedWithin(b: BookState, k: Batch, d: Device, t: U64) {
    exists s: Stamp :: Relevant(b, k, Entry(d, s)) && Clamp(k.now, s.at) == t
  }

  /** What a run may bring, even one that overflows a list or meets absurd times. */
  ghost predicate Brought(b: BookState, k: Batch, r: BookState) {
    && Frame(b, r)
    && (forall d :: TimeOf(r.linked, d) == TimeOf(b.linked, d) || RaisedWithin(b, k, d, TimeOf(r.linked, d)))
    && (forall d, c :: Knows(r, d, c) ==> Knows(b, d, c) || Arrived(b, k, d, c))
  }

  lemma HopIsBacked(b: BookState, k: Batch, r: BookState, x: Device, y: Device)
    requires Brought(b, k, r) && SignedBy(VouchersOf(r, y), x)
    ensures Vouches(b, k, x, y)
  {
    var c :| c in VouchersOf(r, y) && c.signer == x;
    assert Knows(r, y, c);
    if Knows(b, y, c) {
      SignerOf(VouchersOf(b, y), c);
    } else {
      var s: Stamp :| Relevant(b, k, Entry(y, s)) && c == Stored(k.now, s);
      assert s.signer == x && Genuine(k, Entry(y, s));
    }
  }

  /** One more device along a chain stays inside every closed circle. */
  lemma ChainStepStaysInside(b: BookState, k: Batch, r: BookState, s: iset<Device>, x: Device, y: Device)
    requires Brought(b, k, r) && ClosedUnderVouching(b, k, s)
    requires x in s && SignedBy(VouchersOf(r, y), x) && !IsRemoved(r, y)
    ensures y in s
  {
    HopIsBacked(b, k, r, x, y);
    if IsRemoved(b, y) {
      var t := TimeOf(r.linked, y);
      assert RaisedWithin(b, k, y, t);
      var raise: Stamp :| Relevant(b, k, Entry(y, raise)) && Clamp(k.now, raise.at) == t;
      assert raise.signer in s;
    }
    assert StaysIn(b, k, y, s);
  }

  /** A signer trusted anywhere along a run lies in the smallest closed circle. */
  lemma TrustedIsTrustable(b: BookState, k: Batch, r: BookState, who: Device)
    requires Ready(b, k) && Brought(b, k, r) && Trusted(r, k, who)
    ensures Trustable(b, k, who)
  {
    forall s: iset<Device> | ClosedUnderVouching(b, k, s) ensures who in s {
      assert Trusted(b, k, k.me);
      if who != k.me {
        forall x, y | x in s && SignedBy(VouchersOf(r, y), x) && !IsRemoved(r, y) ensures y in s {
          ChainStepStaysInside(b, k, r, s, x, y);
        }
        ReachableIsLeast(r, who, s);
      }
    }
  }

  lemma AddedFrom(v: seq<Stamp>, s: Stamp, c: Stamp)
    requires c in AddTo(v, s)
    ensures c == s || c in v
  {
    TakenInShape(v, s);
    assert c in TakenIn(v, s);
  }

  lemma StepBrings(b: BookState, k: Batch, r: BookState, e: Entry)
    requires Brought(b, k, r) && Relevant(b, k, e)
    ensures Brought(b, k, Accept(r, k.now, e))
  {
    var r' := Accept(r, k.now, e);
    AcceptLists(r, k.now, e);
    FrameIsTransitive(b, r, r');
    assert Entry(e.eid, e.stamp) == e;
    forall d, c | Knows(r', d, c) ensures Knows(b, d, c) || Arrived(b, k, d, c) {
      if d == e.eid {
        AddedFrom(VouchersOf(r, d), Stored(k.now, e.stamp), c);
      }
      if d == e.eid && c == Stored(k.now, e.stamp) {
        assert Arrived(b, k, d, c);
      } else {
        assert Knows(r, d, c);
      }
    }
    forall d ensures TimeOf(r'.linked, d) == TimeOf(b.linked, d) || RaisedWithin(b, k, d, TimeOf(r'.linked, d)) {
      if d == e.eid && TimeOf(r'.linked, d) != TimeOf(r.linked, d) {
        assert TimeOf(r'.linked, d) == Clamp(k.now, e.stamp.at);
      }
    }
  }

  /**
    Whatever a run accepts, in any order, each voucher is an old one or a genuine offered one
    of a signer in the smallest circle, and link times rise only to such stamps.
   */
  lemma {:induction false} RunBrings(b: BookState, k: Batch, tr: seq<Entry>)
    requires Ready(b, k) && MergeTrace(b, k, tr)
    ensures Brought(b, k, AcceptAll(b, k.now, tr))
  {
    if tr != [] {
      var init, e := tr[..|tr| - 1], tr[|tr| - 1];
      RunBrings(b, k, init);
      TrustedIsTrustable(b, k, AcceptAll(b, k.now, init), e.stamp.signer);
      StepBrings(b, k, AcceptAll(b, k.now, init), e);
    }
  }

  predicate AcceptedFor(tr: seq<Entry>, d: Device) {
    tr != [] && (tr[|tr| - 1].eid == d || AcceptedFor(tr[..|tr| - 1], d))
  }

  lemma AcceptClears(r: BookState, now: U64, e: Entry, d: Device)
    ensures var r' := Accept(r, now, e);
            && (d in r'.pending <==> d in r.pending && d != e.eid)
            && (d in r'.pending ==> r'.pending[d] == r.pending[d])
  {
  }

  /** In every run a device stops waiting for approval exactly when a voucher for it is accepted. */
  lemma {:induction false} RunClearsPending(b: BookState, now: U64, tr: seq<Entry>, d: Device)
    ensures var r := AcceptAll(b, now, tr);
            && (d in r.pending <==> d in b.pending && !AcceptedFor(tr, d))
            && (d in r.pending ==> r.pending[d] == b.pending[d])
  {
    if tr != [] {
      RunClearsPending(b, now, tr[..|tr| - 1], d);
      AcceptClears(AcceptAll(b, now, tr[..|tr| - 1]), now, tr[|tr| - 1], d);
    }
  }

  // ---------- runs with room, within the clamp ----------

  /** A voucher this merge brought: offered, genuine, newer than what its signer had said. */
  ghost predicate Fresh(b: BookState, k: Batch, r: BookState, d: Device, c: Stamp) {
    && Relevant(b, k, Entry(d, c)) && !Covered(b, Entry(d, c))
    && d in r.linked && c.at <= r.linked[d]
  }

  ghost predicate RaisedTo(b: BookState, k: Batch, d: Device, t: U64) {
    exists c: Stamp :: Relevant(b, k, Entry(d, c)) && c.at == t
  }

  /** How a book reached by a run relates to the book the run started from. */
  ghost predicate Follows(b: BookState, k: Batch, r: BookState) {
    && Frame(b, r)
    && TidyLists(r)
    && (forall d :: TimeOf(r.linked, d) == TimeOf(b.linked, d) || RaisedTo(b, k, d, TimeOf(r.linked, d)))
    && (forall d :: Signers(VouchersOf(r, d)) <= Signers(VouchersOf(b, d)) + RelevantSigners(b, k, d))
    && (forall d, c :: Knows(b, d, c) ==> Covered(r, Entry(d, c)))
    && (forall d, c :: Knows(r, d, c) ==> Knows(b, d, c) || Fresh(b, k, r, d, c))
  }

  lemma FollowsBrings(b: BookState, k: Batch, r: BookState)
    requires Follows(b, k, r) && InClamp(b, k)
    ensures Brought(b, k, r)
  {
    forall d, c | Knows(r, d, c) && !Knows(b, d, c) ensures Arrived(b, k, d, c) {
      assert Fresh(b, k, r, d, c);
      assert c == Stored(k.now, c);
    }
    forall d | RaisedTo(b, k, d, TimeOf(r.linked, d)) ensures RaisedWithin(b, k, d, TimeOf(r.linked, d)) {
      var c: Stamp :| Relevant(b, k, Entry(d, c)) && c.at == TimeOf(r.linked, d);
      assert Clamp(k.now, c.at) == c.at;
    }
  }

  /** Accepting a stamp replaces its signer's voucher for that device and nothing else. */
  ghost predicate Replaces(r: BookState, r': BookState, e: Entry) {
    && OnePerSigner(VouchersOf(r', e.eid))
    && (forall c :: c in VouchersOf(r', e.eid) <==>
          c == e.stamp || (c in VouchersOf(r, e.eid) && c.signer != e.stamp.signer))
    && Signers(VouchersOf(r', e.eid)) == Signers(VouchersOf(r, e.eid)) + {e.stamp.signer}
    && (forall d :: d != e.eid ==> VouchersOf(r', d) == VouchersOf(r, d))
    && r'.linked.Keys == r.linked.Keys + {e.eid}
    && r'.linked[e.eid] == Max(TimeOf(r.linked, e.eid), e.stamp.at)
    && (forall d :: d != e.eid ==> TimeOf(r'.linked, d) == TimeOf(r.linked, d))
  }

  lemma AcceptReplaces(b: BookState, k: Batch, r: BookState, e: Entry)
    requires Mergeable(b, k) && Follows(b, k, r)
    requires Offered(k, e) && Eligible(r, k, e)
    ensures Relevant(b, k, e)
    ensures Replaces(r, Accept(r, k.now, e), e)
  {
    FollowsBrings(b, k, r);
    TrustedIsTrustable(b, k, r, e.stamp.signer);
    AcceptLists(r, k.now, e);
    assert Stored(k.now, e.stamp) == e.stamp;
    var d, v := e.eid, VouchersOf(r, e.eid);
    assert e.stamp.signer in RelevantSigners(b, k, d);
    SubsetCardinality(Signers(v) + {e.stamp.signer}, Signers(VouchersOf(b, d)) + RelevantSigners(b, k, d));
    AddToWithRoom(v, e.stamp);
  }

  lemma CoveredFromTheStart(b: BookState, k: Batch, r: BookState, e: Entry)
    requires Follows(b, k, r) && Covered(b, e)
    ensures Covered(r, e)
  {
    var c :| c in VouchersOf(b, e.eid) && c.signer == e.stamp.signer && c.at >= e.stamp.at;
    assert Knows(b, e.eid, c) && Covered(r, Entry(e.eid, c));
  }

  /** A covered stamp stays covered when a newer voucher replaces an older one. */
  lemma CoveredStays(r: BookState, r': BookState, e: Entry, f: Entry)
    requires Replaces(r, r', e) && !Covered(r, e) && Covered(r, f)
    ensures Covered(r', f)
  {
    var c :| c in VouchersOf(r, f.eid) && c.signer == f.stamp.signer && c.at >= f.stamp.at;
    if f.eid == e.eid && c.signer == e.stamp.signer {
      assert e.stamp in VouchersOf(r', f.eid);
    } else {
      assert c in VouchersOf(r', f.eid);
    }
  }

  lemma UncoveredSoFar(b: BookState, k: Batch, r: BookState, e: Entry)
    requires Follows(b, k, r) && !Covered(r, e)
    ensures !Covered(b, e)
  {
    if Covered(b, e) {
      CoveredFromTheStart(b, k, r, e);
    }
  }

  lemma StepCovers(b: BookState, r: BookState, r': BookState, e: Entry)
    requires Replaces(r, r', e) && !Covered(r, e)
    requires forall d, c :: Knows(b, d, c) ==> Covered(r, Entry(d, c))
    ensures forall d, c :: Knows(b, d, c) ==> Covered(r', Entry(d, c))
  {
    forall d, c | Knows(b, d, c) ensures Covered(r', Entry(d, c)) {
      CoveredStays(r, r', e, Entry(d, c));
    }
  }

  lemma StepProvenance(b: BookState, k: Batch, r: BookState, r': BookState, e: Entry)
    requires Replaces(r, r', e) && Relevant(b, k, e) && !Covered(b, e)
    requires Frame(r, r')
    requires forall d, c :: Knows(r, d, c) ==> Knows(b, d, c) || Fresh(b, k, r, d, c)
    ensures forall d, c :: Knows(r', d, c) ==> Knows(b, d, c) || Fresh(b, k, r', d, c)
  {
    forall d, c | Knows(r', d, c) ensures Knows(b, d, c) || Fresh(b, k, r', d, c) {
      if d == e.eid && c == e.stamp {
        assert Entry(d, c) == e;
      } else {
        assert Knows(r, d, c);
        assert TimeOf(r.linked, d) <= TimeOf(r'.linked, d);
      }
    }
  }

  lemma StepSigners(b: BookState, k: Batch, r: BookState, r': BookState, e: Entry)
    requires Replaces(r, r', e) && Relevant(b, k, e) && TidyLists(r)
    requires forall d :: Signers(VouchersOf(r, d)) <= Signers(VouchersOf(b, d)) + RelevantSigners(b, k, d)
    ensures TidyLists(r')
    ensures forall d :: Signers(VouchersOf(r', d)) <= Signers(VouchersOf(b, d)) + RelevantSigners(b, k, d)
  {
    assert e.stamp.signer in RelevantSigners(b, k, e.eid);
    forall d ensures OnePerSigner(VouchersOf(r', d))
      && Signers(VouchersOf(r', d)) <= Signers(VouchersOf(b, d)) + RelevantSigners(b, k, d) {
      assert d != e.eid ==> VouchersOf(r', d) == VouchersOf(r, d);
    }
  }

  lemma StepRaises(b: BookState, k: Batch, r: BookState, r': BookState, e: Entry)
    requires Replaces(r, r', e) && Relevant(b, k, e)
    requires forall d :: TimeOf(r.linked, d) == TimeOf(b.linked, d) || RaisedTo(b, k, d, TimeOf(r.linked, d))
    ensures forall d :: TimeOf(r'.linked, d) == TimeOf(b.linked, d) || RaisedTo(b, k, d, TimeOf(r'.linked, d))
  {
    forall d ensures TimeOf(r'.linked, d) == TimeOf(b.linked, d) || RaisedTo(b, k, d, TimeOf(r'.linked, d)) {
      assert Relevant(b, k, Entry(e.eid, e.stamp));
      if d == e.eid && TimeOf(r'.linked, d) == e.stamp.at {
        assert RaisedTo(b, k, d, e.stamp.at);
      } else {
        assert TimeOf(r'.linked, d) == TimeOf(r.linked, d);
      }
    }
  }

  lemma StepFollows(b: BookState, k: Batch, r: BookState, e: Entry)
    requires Mergeable(b, k) && Follows(b, k, r)
    requires Offered(k, e) && Eligible(r, k, e)
    ensures Relevant(b, k, e)
    ensures Follows(b, k, Accept(r, k.now, e))
  {
    AcceptReplaces(b, k, r, e);
    UncoveredSoFar(b, k, r, e);
    var r' := Accept(r, k.now, e);
    FrameIsTransitive(b, r, r');
    StepCovers(b, r, r', e);
    StepProvenance(b, k, r, r', e);
    StepSigners(b, k, r, r', e);
    StepRaises(b, k, r, r', e);
  }

  lemma {:induction false} RunFollows(b: BookState, k: Batch, tr: seq<Entry>)
    requires Mergeable(b, k) && MergeTrace(b, k, tr)
    ensures Follows(b, k, AcceptAll(b, k.now, tr))
  {
    if tr == [] {
      forall d, c | Knows(b, d, c) ensures Covered(b, Entry(d, c)) {
      }
    } else {
      RunFollows(b, k, tr[..|tr| - 1]);
      StepFollows(b, k, AcceptAll(b, k.now, tr[..|tr| - 1]), tr[|tr| - 1]);
    }
  }

  // ---------- every walk order ends in the same book ----------

  /** Whatever `r` holds, `f` holds at least as new. */
  ghost predicate Below(r: BookState, f: BookState) {
    && r.linked.Keys <= f.linked.Keys
    && (forall d :: TimeOf(r.linked, d) <= TimeOf(f.linked, d))
    && (forall d, c :: Knows(r, d, c) ==> Covered(f, Entry(d, c)))
  }

  lemma MembersGrow(r: BookState, f: BookState, who: Device)
    requires r.removedDevices == f.removedDevices && r.me == f.me && r.proofsV == f.proofsV
    requires Below(r, f) && IsMember(r, who)
    ensures IsMember(f, who)
  {
    forall x | IsRemoved(f, x) ensures IsRemoved(r, x) {
      assert TimeOf(r.linked, x) <= TimeOf(f.linked, x);
    }
    forall x, y | SignedBy(VouchersOf(r, y), x) ensures SignedBy(VouchersOf(f, y), x) {
      var c :| c in VouchersOf(r, y) && c.signer == x;
      assert Knows(r, y, c) && Covered(f, Entry(y, c));
    }
    MembershipGrows(r, f, who);
  }

  /** A settled book already holds whatever a run below it accepts next. */
  lemma SettledHolds(b: BookState, k: Batch, r: BookState, f: BookState, e: Entry)
    requires Follows(b, k, r) && Follows(b, k, f) && Settled(f, k) && Below(r, f)
    requires Offered(k, e) && Eligible(r, k, e)
    ensures Covered(f, e) && e.eid in f.linked && e.stamp.at <= f.linked[e.eid]
  {
    if e.stamp.signer != k.me {
      MembersGrow(r, f, e.stamp.signer);
    }
    UncoveredSoFar(b, k, r, e);
    var c :| c in VouchersOf(f, e.eid) && c.signer == e.stamp.signer && c.at >= e.stamp.at;
    assert Knows(f, e.eid, c);
  }

  lemma ReplacedStaysBelow(r: BookState, r': BookState, f: BookState, e: Entry)
    requires Replaces(r, r', e) && Below(r, f)
    requires Covered(f, e) && e.eid in f.linked && e.stamp.at <= f.linked[e.eid]
    ensures Below(r', f)
  {
    forall d ensures TimeOf(r'.linked, d) <= TimeOf(f.linked, d) {
      assert TimeOf(r.linked, d) <= TimeOf(f.linked, d);
    }
    forall d, c | Knows(r', d, c) ensures Covered(f, Entry(d, c)) {
      if d == e.eid && c == e.stamp {
        assert Entry(d, c) == e;
      } else {
        assert Knows(r, d, c);
      }
    }
  }

  lemma StepStaysBelow(b: BookState, k: Batch, r: BookState, f: BookState, e: Entry)
    requires Mergeable(b, k) && Follows(b, k, r) && Below(r, f)
    requires Follows(b, k, f) && Settled(f, k)
    requires Offered(k, e) && Eligible(r, k, e)
    ensures Below(Accept(r, k.now, e), f)
  {
    SettledHolds(b, k, r, f, e);
    AcceptReplaces(b, k, r, e);
    ReplacedStaysBelow(r, Accept(r, k.now, e), f, e);
  }

  lemma {:induction false} RunStaysBelow(b: BookState, k: Batch, tr: seq<Entry>, f: BookState)
    requires Mergeable(b, k) && MergeTrace(b, k, tr)
    requires Follows(b, k, f) && Settled(f, k)
    ensures Below(AcceptAll(b, k.now, tr), f)
  {
    if tr != [] {
      var init, e := tr[..|tr| - 1], tr[|tr| - 1];
      var r := AcceptAll(b, k.now, init);
      RunStaysBelow(b, k, init, f);
      RunFollows(b, k, init);
      StepStaysBelow(b, k, r, f, e);
    }
  }

  // ---------- devices waiting for approval ----------

  /** The merge brought `d` a voucher. */
  ghost predicate Touched(b: BookState, r: BookState, d: Device) {
    exists c :: Knows(r, d, c) && !Knows(b, d, c)
  }

  ghost predicate PendingRule(b: BookState, r: BookState) {
    && (forall d :: d in r.pending <==> d in b.pending && !Touched(b, r, d))
    && (forall d :: d in r.pending ==> r.pending[d] == b.pending[d])
  }

  lemma ReplacedTouches(b: BookState, r: BookState, r': BookState, e: Entry)
    requires Replaces(r, r', e) && !Knows(b, e.eid, e.stamp)
    ensures Touched(b, r', e.eid)
    ensures forall d :: d != e.eid ==> (Touched(b, r', d) <==> Touched(b, r, d))
  {
    assert Knows(r', e.eid, e.stamp);
    forall d | d != e.eid ensures Touched(b, r', d) <==> Touched(b, r, d) {
      assert forall c :: Knows(r', d, c) <==> Knows(r, d, c);
    }
  }

  lemma AcceptBringsFresh(b: BookState, k: Batch, r: BookState, e: Entry)
    requires Mergeable(b, k) && Follows(b, k, r)
    requires Offered(k, e) && Eligible(r, k, e)
    ensures Replaces(r, Accept(r, k.now, e), e) && !Knows(b, e.eid, e.stamp)
  {
    AcceptReplaces(b, k, r, e);
    UncoveredSoFar(b, k, r, e);
  }

  lemma StepClearsPending(b: BookState, r: BookState, r': BookState, e: Entry)
    requires PendingRule(b, r) && Replaces(r, r', e) && !Knows(b, e.eid, e.stamp)
    requires r'.pending == r.pending - {e.eid}
    ensures PendingRule(b, r')
  {
    ReplacedTouches(b, r, r', e);
  }

  lemma {:induction false} PendingFollows(b: BookState, k: Batch, tr: seq<Entry>)
    requires Mergeable(b, k) && MergeTrace(b, k, tr)
    ensures PendingRule(b, AcceptAll(b, k.now, tr))
  {
    if tr != [] {
      var init, e := tr[..|tr| - 1], tr[|tr| - 1];
      var r := AcceptAll(b, k.now, init);
      PendingFollows(b, k, init);
      RunFollows(b, k, init);
      AcceptBringsFresh(b, k, r, e);
      StepClearsPending(b, r, Accept(r, k.now, e), e);
    }
  }

  // ---------- the result ----------

  /** Two books below each other that follow from the same start keep the same vouchers. */
  lemma MutualVouchers(b: BookState, k: Batch, r: BookState, f: BookState, d: Device, c: Stamp)
    requires Follows(b, k, r) && Follows(b, k, f) && Below(r, f) && Below(f, r) && TidyLists(b)
    requires Knows(r, d, c)
    ensures Knows(f, d, c)
  {
    assert Covered(f, Entry(d, c));
    var c2 :| c2 in VouchersOf(f, d) && c2.signer == c.signer && c2.at >= c.at;
    assert Knows(f, d, c2) && Covered(r, Entry(d, c2));
    var c3 :| c3 in VouchersOf(r, d) && c3.signer == c2.signer && c3.at >= c2.at;
    OneVoucher(VouchersOf(r, d), c, c3);
    SameTimeSameVoucher(b, k, r, f, d, c, c2);
  }

  lemma SameTimeSameVoucher(b: BookState, k: Batch, r: BookState, f: BookState, d: Device, c: Stamp, c2: Stamp)
    requires Follows(b, k, r) && Follows(b, k, f) && TidyLists(b)
    requires Knows(r, d, c) && Knows(f, d, c2) && c.signer == c2.signer && c.at == c2.at
    ensures c == c2
  {
    if Knows(b, d, c) && Knows(b, d, c2) {
      OneVoucher(VouchersOf(b, d), c, c2);
    } else {
      assert Knows(b, d, c) ==> Covered(b, Entry(d, c2));
      assert Knows(b, d, c2) ==> Covered(b, Entry(d, c));
    }
  }

  lemma MutuallyBelow(b: BookState, k: Batch, r: BookState, f: BookState)
    requires Follows(b, k, r) && Follows(b, k, f) && Below(r, f) && Below(f, r) && TidyLists(b)
    ensures r.linked == f.linked
    ensures forall d, c :: Knows(r, d, c) <==> Knows(f, d, c)
  {
    forall d, c ensures Knows(r, d, c) <==> Knows(f, d, c) {
      if Knows(r, d, c) { MutualVouchers(b, k, r, f, d, c); }
      if Knows(f, d, c) { MutualVouchers(b, k, f, r, d, c); }
    }
    forall d | d in r.linked ensures r.linked[d] == f.linked[d] {
      assert TimeOf(r.linked, d) == TimeOf(f.linked, d);
    }
  }

  lemma SamePending(b: BookState, r: BookState, f: BookState)
    requires PendingRule(b, r) && PendingRule(b, f)
    requires forall d, c :: Knows(r, d, c) <==> Knows(f, d, c)
    ensures r.pending == f.pending
  {
    forall d ensures Touched(b, r, d) <==> Touched(b, f, d) {
      if c :| Knows(r, d, c) && !Knows(b, d, c) { assert Knows(f, d, c); }
      if c :| Knows(f, d, c) && !Knows(b, d, c) { assert Knows(r, d, c); }
    }
  }

  /**
    Merging vouchers is a closure: two runs that stop, whatever order they walked the
    maps in, leave the same link times, the same vouchers and the same pending devices.
   */
  lemma MergeOrderDoesNotMatter(b: BookState, k: Batch, tr1: seq<Entry>, tr2: seq<Entry>)
    requires Mergeable(b, k) && MergeTrace(b, k, tr1) && MergeTrace(b, k, tr2)
    requires Settled(AcceptAll(b, k.now, tr1), k) && Settled(AcceptAll(b, k.now, tr2), k)
    ensures AcceptAll(b, k.now, tr1).linked == AcceptAll(b, k.now, tr2).linked
    ensures AcceptAll(b, k.now, tr1).pending == AcceptAll(b, k.now, tr2).pending
    ensures forall d, c :: Knows(AcceptAll(b, k.now, tr1), d, c) <==> Knows(AcceptAll(b, k.now, tr2), d, c)
  {
    var r, f := AcceptAll(b, k.now, tr1), AcceptAll(b, k.now, tr2);
    RunFollows(b, k, tr1);
    RunFollows(b, k, tr2);
    RunStaysBelow(b, k, tr1, f);
    RunStaysBelow(b, k, tr2, r);
    MutuallyBelow(b, k, r, f);
    PendingFollows(b, k, tr1);
    PendingFollows(b, k, tr2);
    SamePending(b, r, f);
  }

  /** No run ever loses a member. */
  lemma MergeKeepsMembers(b: BookState, k: Batch, tr: seq<Entry>, d: Device)
    requires Mergeable(b, k) && MergeTrace(b, k, tr)
    requires IsMember(b, d)
    ensures IsMember(AcceptAll(b, k.now, tr), d)
  {
    RunFollows(b, k, tr);
    MembersGrow(b, AcceptAll(b, k.now, tr), d);
  }
}
