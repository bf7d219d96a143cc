/**
  What a voucher merge amounts to, stated without the loop: who it admits, what it
  leaves alone, and exactly when the loop stops at all.
 */
module MergeLimits {
  import opened Common
  import opened Vouchers
  import opened Ledger
  import opened MergeProofs

  /** No voucher kept is newer than its device's link time. */
  ghost predicate WithinLink(b: BookState) {
    forall d, c :: Knows(b, d, c) ==> d in b.linked && c.at <= b.linked[d]
  }

  lemma RunStaysWithinLink(b: BookState, k: Batch, r: BookState)
    requires WithinLink(b) && Follows(b, k, r)
    ensures WithinLink(r)
  {
    forall d, c | Knows(r, d, c) ensures d in r.linked && c.at <= r.linked[d] {
      assert TimeOf(b.linked, d) <= TimeOf(r.linked, d);
    }
  }

  // ---------- exactly who a merge admits ----------

  ghost predicate SignersKept(b: BookState, r: BookState) {
    forall d, x :: SignedBy(VouchersOf(b, d), x) ==> SignedBy(VouchersOf(r, d), x)
  }

  /** One closure rule holds in a book where nothing is left to accept. */
  lemma SettledVouching(b: BookState, k: Batch, f: BookState, x: Device, d: Device)
    requires Ready(b, k) && Frame(b, f) && WithinLink(f) && Settled(f, k)
    requires SignedBy(VouchersOf(b, d), x) ==> SignedBy(VouchersOf(f, d), x)
    requires !IsRemoved(f, f.me)
    requires Trusted(f, k, x) && Vouches(b, k, x, d)
    requires StaysIn(b, k, d, iset y | Trusted(f, k, y))
    ensures Trusted(f, k, d)
  {
    assert SignedBy(VouchersOf(f, d), x) by {
      if !SignedBy(VouchersOf(b, d), x) {
        var s: Stamp :| s.signer == x && Genuine(k, Entry(d, s));
        assert Covered(f, Entry(d, s));
      }
    }
    assert !IsRemoved(f, d) by {
      if IsRemoved(b, d) {
        var s: Stamp :| Trusted(f, k, s.signer) && Genuine(k, Entry(d, s)) && Clamp(k.now, s.at) > b.removedDevices[d];
        assert Covered(f, Entry(d, s));
        var c :| c in VouchersOf(f, d) && c.signer == s.signer && c.at >= s.at;
        assert Knows(f, d, c);
      } else {
        assert TimeOf(b.linked, d) <= TimeOf(f.linked, d);
      }
    }
    RootReachable(f);
    ReachableStep(f, x, d);
  }

  lemma SettledIsClosed(b: BookState, k: Batch, f: BookState)
    requires Ready(b, k) && Frame(b, f) && SignersKept(b, f) && WithinLink(f) && Settled(f, k)
    requires !IsRemoved(b, b.me)
    ensures ClosedUnderVouching(b, k, iset y | Trusted(f, k, y))
  {
    var s := iset y | Trusted(f, k, y);
    forall x ensures !IsRemoved(b, x) ==> !IsRemoved(f, x) {
      assert TimeOf(b.linked, x) <= TimeOf(f.linked, x);
    }
    forall x | Trusted(b, k, x) ensures x in s {
      if x != k.me {
        MembershipGrows(b, f, x);
      }
    }
    forall x, d | x in s && Vouches(b, k, x, d) && StaysIn(b, k, d, s) ensures d in s {
      SettledVouching(b, k, f, x, d);
    }
  }

  lemma FollowsKeepsSigners(b: BookState, k: Batch, r: BookState)
    requires Follows(b, k, r)
    ensures SignersKept(b, r)
  {
    forall d, x | SignedBy(VouchersOf(b, d), x) ensures SignedBy(VouchersOf(r, d), x) {
      var c :| c in VouchersOf(b, d) && c.signer == x;
      assert Knows(b, d, c) && Covered(r, Entry(d, c));
    }
  }

  /**
    The members after a merge are exactly the smallest circle that holds the members
    before it and is closed under stored and genuinely signed offered vouchers.
   */
  lemma MergeAdmitsExactly(b: BookState, k: Batch, tr: seq<Entry>, who: Device)
    requires Mergeable(b, k) && WithinLink(b) && !IsRemoved(b, b.me)
    requires MergeTrace(b, k, tr) && Settled(AcceptAll(b, k.now, tr), k)
    ensures Trusted(AcceptAll(b, k.now, tr), k, who) <==> Trustable(b, k, who)
  {
    var f := AcceptAll(b, k.now, tr);
    RunFollows(b, k, tr);
    RunStaysWithinLink(b, k, f);
    FollowsKeepsSigners(b, k, f);
    SettledIsClosed(b, k, f);
    if Trusted(f, k, who) {
      FollowsBrings(b, k, f);
      TrustedIsTrustable(b, k, f, who);
    }
  }

  // ---------- what a merge leaves alone ----------

  /** With nothing to accept there is nothing to run: merging the same batch again changes nothing. */
  lemma {:induction false} SettledRunsAreEmpty(b: BookState, k: Batch, tr: seq<Entry>)
    requires Settled(b, k) && MergeTrace(b, k, tr)
    ensures tr == []
  {
    if tr != [] {
      SettledRunsAreEmpty(b, k, tr[..|tr| - 1]);
    }
  }

  /** Stamps signed only by strangers, however they vouch for each other, change nothing. */
  lemma StrangersChangeNothing(b: BookState, k: Batch, tr: seq<Entry>)
    requires forall e :: Offered(k, e) ==> !Trusted(b, k, e.stamp.signer)
    requires MergeTrace(b, k, tr)
    ensures AcceptAll(b, k.now, tr) == b
  {
    SettledRunsAreEmpty(b, k, tr);
  }

  /** Every hop of a chain in the merged book is a voucher kept before or a genuine offered one. */
  ghost predicate BackedChain(b: BookState, k: Batch, path: seq<Device>) {
    && path != [] && path[0] == b.me
    && forall i :: 0 < i < |path| ==> Vouches(b, k, path[i - 1], path[i])
  }

  /** Nobody is admitted without a chain, whatever the batch: forged, absurdly dated or overflowing lists included. */
  lemma NewMembersHaveChains(b: BookState, k: Batch, tr: seq<Entry>, d: Device)
    requires Ready(b, k) && MergeTrace(b, k, tr)
    requires IsMember(AcceptAll(b, k.now, tr), d)
    ensures exists path :: BackedChain(b, k, path) && EndsAt(path, d)
  {
    var r := AcceptAll(b, k.now, tr);
    RunBrings(b, k, tr);
    var path :| Chain(r, path) && EndsAt(path, d);
    forall i | 0 < i < |path| ensures Vouches(b, k, path[i - 1], path[i]) {
      HopIsBacked(b, k, r, path[i - 1], path[i]);
    }
    assert BackedChain(b, k, path);
  }

  /** Nor is anyone outside the smallest circle. */
  lemma MergeAdmitsNoMore(b: BookState, k: Batch, tr: seq<Entry>, who: Device)
    requires Ready(b, k) && MergeTrace(b, k, tr) && Trusted(AcceptAll(b, k.now, tr), k, who)
    ensures Trustable(b, k, who)
  {
    RunBrings(b, k, tr);
    TrustedIsTrustable(b, k, AcceptAll(b, k.now, tr), who);
  }

  // ---------- when the loop stops ----------

  /** Offered stamps not yet covered: each accepted stamp makes this set smaller. */
  ghost function Outstanding(b: BookState, k: Batch): set<Entry> {
    set d, s | d in k.proofs && s in Taken(k.proofs[d]) && !Covered(b, Entry(d, s)) :: Entry(d, s)
  }

  /** Accepting a stamp within the clamp, into a list with room for its signer, leaves fewer outstanding. */
  lemma AcceptingMakesProgress(r: BookState, k: Batch, e: Entry)
    requires Offered(k, e) && !Covered(r, e) && e.stamp.at <= ClampBound(k.now)
    requires var v := VouchersOf(r, e.eid); OnePerSigner(v) && |Signers(v) + {e.stamp.signer}| <= MAX_VOUCHERS
    ensures Outstanding(Accept(r, k.now, e), k) < Outstanding(r, k)
  {
    var r' := Accept(r, k.now, e);
    RoomReplaces(r, k.now, e);
    assert Stored(k.now, e.stamp) == e.stamp;
    assert e.stamp in VouchersOf(r', e.eid);
    forall f | f in Outstanding(r', k) ensures f in Outstanding(r, k) {
      if Covered(r, f) {
        CoveredStays(r, r', e, f);
      }
    }
    assert Entry(e.eid, e.stamp) in Outstanding(r, k);
    assert Covered(r', e);
  }

  lemma RoomReplaces(r: BookState, now: U64, e: Entry)
    requires var v := VouchersOf(r, e.eid); OnePerSigner(v) && |Signers(v) + {e.stamp.signer}| <= MAX_VOUCHERS
    ensures Replaces(r, Accept(r, now, e), Entry(e.eid, Stored(now, e.stamp)))
  {
    AcceptLists(r, now, e);
    AddToWithRoom(VouchersOf(r, e.eid), Stored(now, e.stamp));
  }

  /** A run with room accepts no more stamps than were outstanding. */
  lemma {:induction false} RunsAreBounded(b: BookState, k: Batch, tr: seq<Entry>)
    requires Mergeable(b, k) && MergeTrace(b, k, tr)
    ensures |tr| + |Outstanding(AcceptAll(b, k.now, tr), k)| <= |Outstanding(b, k)|
  {
    if tr != [] {
      var init, e := tr[..|tr| - 1], tr[|tr| - 1];
      var r := AcceptAll(b, k.now, init);
      RunsAreBounded(b, k, init);
      RunFollows(b, k, init);
      FollowingMakesProgress(b, k, r, e);
      StrictSubsetCardinality(Outstanding(Accept(r, k.now, e), k), Outstanding(r, k));
    }
  }

  lemma FollowingMakesProgress(b: BookState, k: Batch, r: BookState, e: Entry)
    requires Mergeable(b, k) && Follows(b, k, r) && Offered(k, e) && Eligible(r, k, e)
    ensures Outstanding(Accept(r, k.now, e), k) < Outstanding(r, k)
  {
    AcceptReplaces(b, k, r, e);
    var d, v := e.eid, VouchersOf(r, e.eid);
    assert e.stamp.signer in RelevantSigners(b, k, d);
    SubsetCardinality(Signers(v) + {e.stamp.signer}, Signers(VouchersOf(b, d)) + RelevantSigners(b, k, d));
    AcceptingMakesProgress(r, k, e);
  }

  ghost predicate SettledAfter(b: BookState, k: Batch, tr: seq<Entry>) {
    MergeTrace(b, k, tr) && Settled(AcceptAll(b, k.now, tr), k)
  }

  lemma ExtendTrace(b: BookState, k: Batch, tr: seq<Entry>, e: Entry)
    requires MergeTrace(b, k, tr) && Offered(k, e) && Eligible(AcceptAll(b, k.now, tr), k, e)
    ensures MergeTrace(b, k, tr + [e])
    ensures AcceptAll(b, k.now, tr + [e]) == Accept(AcceptAll(b, k.now, tr), k.now, e)
  {
    assert (tr + [e])[..|tr|] == tr;
  }

  lemma SomeRunSettles(b: BookState, k: Batch, tr: seq<Entry>) returns (done: seq<Entry>)
    requires Mergeable(b, k) && MergeTrace(b, k, tr)
    ensures SettledAfter(b, k, done)
    decreases Outstanding(AcceptAll(b, k.now, tr), k)
  {
    var r := AcceptAll(b, k.now, tr);
    if Settled(r, k) {
      done := tr;
    } else {
      var e :| Offered(k, e) && Eligible(r, k, e);
      ExtendTrace(b, k, tr, e);
      RunFollows(b, k, tr);
      FollowingMakesProgress(b, k, r, e);
      done := SomeRunSettles(b, k, tr + [e]);
    }
  }

  /** Kept vouchers are within the link times and within what the clamp allows. */
  ghost predicate Dated(b: BookState, now: U64) {
    WithinLink(b) && forall d, c :: Knows(b, d, c) ==> c.at <= ClampBound(now)
  }

  /** What holds along any run, even one whose stamps the clamp cuts down. */
  ghost predicate Loose(b: BookState, k: Batch, r: BookState) {
    && Frame(b, r) && TidyLists(r) && Dated(r, k.now)
    && (forall d :: Signers(VouchersOf(b, d)) <= Signers(VouchersOf(r, d))
                 <= Signers(VouchersOf(b, d)) + RelevantSigners(b, k, d))
  }

  lemma LooseAccept(b: BookState, k: Batch, r: BookState, e: Entry)
    requires Room(b, k) && Loose(b, k, r) && Relevant(b, k, e)
    ensures Replaces(r, Accept(r, k.now, e), Entry(e.eid, Stored(k.now, e.stamp)))
  {
    var d, v := e.eid, VouchersOf(r, e.eid);
    assert Entry(d, e.stamp) == e && e.stamp.signer in RelevantSigners(b, k, d);
    SubsetCardinality(Signers(v) + {e.stamp.signer}, Signers(VouchersOf(b, d)) + RelevantSigners(b, k, d));
    RoomReplaces(r, k.now, e);
  }

  lemma DatedStep(r: BookState, r': BookState, e: Entry, now: U64)
    requires Dated(r, now) && Frame(r, r') && Replaces(r, r', e) && e.stamp.at <= ClampBound(now)
    ensures Dated(r', now)
  {
    forall d, c | Knows(r', d, c) ensures d in r'.linked && c.at <= r'.linked[d] && c.at <= ClampBound(now) {
      if d != e.eid || c != e.stamp {
        assert Knows(r, d, c);
        assert TimeOf(r.linked, d) <= TimeOf(r'.linked, d);
      }
    }
  }

  lemma LooseStep(b: BookState, k: Batch, r: BookState, e: Entry)
    requires Room(b, k) && Loose(b, k, r) && Relevant(b, k, e)
    ensures Loose(b, k, Accept(r, k.now, e))
  {
    var r' := Accept(r, k.now, e);
    var f := Entry(e.eid, Stored(k.now, e.stamp));
    LooseAccept(b, k, r, e);
    FrameIsTransitive(b, r, r');
    DatedStep(r, r', f, k.now);
    assert Entry(e.eid, e.stamp) == e && f.stamp.signer in RelevantSigners(b, k, e.eid);
    forall d ensures OnePerSigner(VouchersOf(r', d))
      && Signers(VouchersOf(b, d)) <= Signers(VouchersOf(r', d)) <= Signers(VouchersOf(b, d)) + RelevantSigners(b, k, d)
    {
      assert d != e.eid ==> VouchersOf(r', d) == VouchersOf(r, d);
    }
  }

  lemma {:induction false} LooseRun(b: BookState, k: Batch, tr: seq<Entry>)
    requires Ready(b, k) && Room(b, k) && TidyLists(b) && Dated(b, k.now) && MergeTrace(b, k, tr)
    ensures Loose(b, k, AcceptAll(b, k.now, tr))
  {
    if tr != [] {
      var init, e := tr[..|tr| - 1], tr[|tr| - 1];
      LooseRun(b, k, init);
      RunBrings(b, k, init);
      TrustedIsTrustable(b, k, AcceptAll(b, k.now, init), e.stamp.signer);
      LooseStep(b, k, AcceptAll(b, k.now, init), e);
    }
  }

  lemma SignersMean(v: seq<Stamp>, w: seq<Stamp>, x: Device)
    requires Signers(v) <= Signers(w) && SignedBy(v, x)
    ensures SignedBy(w, x)
  {
    assert x in Signers(w);
  }

  lemma LooseKeepsSigners(b: BookState, k: Batch, r: BookState)
    requires Loose(b, k, r)
    ensures SignersKept(b, r)
  {
    forall d, x | SignedBy(VouchersOf(b, d), x) ensures SignedBy(VouchersOf(r, d), x) {
      SignersMean(VouchersOf(b, d), VouchersOf(r, d), x);
    }
  }

  lemma SettlingNeedsClamp(b: BookState, k: Batch, tr: seq<Entry>)
    requires Ready(b, k) && TidyLists(b) && Room(b, k) && Dated(b, k.now) && !IsRemoved(b, b.me)
    requires SettledAfter(b, k, tr)
    ensures InClamp(b, k)
  {
    var f := AcceptAll(b, k.now, tr);
    LooseRun(b, k, tr);
    LooseKeepsSigners(b, k, f);
    SettledIsClosed(b, k, f);
    forall e | Relevant(b, k, e) ensures e.stamp.at <= ClampBound(k.now) {
      assert Trusted(f, k, e.stamp.signer);
      CoveredIsWithinClamp(f, k.now, e);
    }
  }

  lemma CoveredIsWithinClamp(f: BookState, now: U64, e: Entry)
    requires Dated(f, now) && Covered(f, e)
    ensures e.stamp.at <= ClampBound(now)
  {
    var c :| c in VouchersOf(f, e.eid) && c.signer == e.stamp.signer && c.at >= e.stamp.at;
    assert Knows(f, e.eid, c);
  }

  /**
    Where no list overflows, the loop can stop exactly when no stamp it would have to accept
    is dated past the clamp: such a stamp is stored with an earlier time, so it never counts
    as covered and every pass accepts it again.
   */
  lemma StopsExactlyWhenInClamp(b: BookState, k: Batch)
    requires Ready(b, k) && TidyLists(b) && Room(b, k) && Dated(b, k.now) && !IsRemoved(b, b.me)
    ensures (exists tr :: SettledAfter(b, k, tr)) <==> InClamp(b, k)
  {
    if tr :| SettledAfter(b, k, tr) {
      SettlingNeedsClamp(b, k, tr);
    }
    if InClamp(b, k) {
      var done := SomeRunSettles(b, k, []);
    }
  }
}
