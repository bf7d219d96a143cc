/** A full list of vouchers and a stamp older than all of it. */
module MergeCrowding {
  import opened Common
  import opened Sorting
  import opened Vouchers
  import opened Ledger
  import opened MergeProofs
  import opened MergeLimits

  /** A full list by other signers, none of it older than the stamp. */
  predicate Crowded(v: seq<Stamp>, s: Stamp) {
    |v| == MAX_VOUCHERS && forall c :: c in v ==> c.signer != s.signer && c.at >= s.at
  }

  /** The stamp is added and cut off again. */
  lemma CrowdedAddsNothing(v: seq<Stamp>, s: Stamp)
    requires Crowded(v, s)
    ensures AddTo(v, s) == SortBy(v, Newer) && forall c :: c in AddTo(v, s) <==> c in v
  {
    WithoutStranger(v, s.signer);
    SortedElements(v);
    var sorted := SortBy(v, Newer);
    assert (v + [s])[..|v|] == v;
    assert sorted[|v| - 1] in sorted;
    assert TakenIn(v, s) == Place(sorted, s, Newer) == sorted + [s];
  }

  /** Any other list keeps it. */
  lemma UncrowdedKeeps(v: seq<Stamp>, s: Stamp)
    requires OnePerSigner(v) && |v| <= MAX_VOUCHERS && !Crowded(v, s)
    ensures s in AddTo(v, s)
  {
    var r := AddTo(v, s);
    if s !in r {
      AddToKeepsShape(v, s);
      AddToKeepsNewest(v, s, s);
      SignersSize(v);
      SignersSize(r);
      forall x | x in Signers(r) ensures x in Signers(v) {
        var c :| c in r && c.signer == x;
      }
      SameSizeSameSet(Signers(r), Signers(v));
      forall c | c in v ensures c.signer != s.signer && c.at >= s.at {
        assert c.signer in Signers(r);
        var d :| d in r && d.signer == c.signer;
        OneVoucher(v, c, d);
      }
    }
  }

  // ---------- one offered stamp ----------

  ghost predicate OffersOnly(k: Batch, e: Entry) {
    k.proofs == map[e.eid := [e.stamp]]
  }

  lemma OnlyOffer(k: Batch, e: Entry, f: Entry)
    requires OffersOnly(k, e)
    ensures Offered(k, f) <==> f == e
  {
    assert Taken([e.stamp]) == [e.stamp];
  }

  /** The same vouchers and removals, and link times no earlier. */
  ghost predicate SameVouchers(b: BookState, r: BookState) {
    && r.me == b.me && r.proofsV == b.proofsV && r.removedDevices == b.removedDevices
    && (forall d :: TimeOf(r.linked, d) >= TimeOf(b.linked, d))
    && (forall d, c :: Knows(r, d, c) <==> Knows(b, d, c))
    && (forall d :: |VouchersOf(r, d)| == |VouchersOf(b, d)|)
  }

  lemma SameVouchersStayEligible(b: BookState, k: Batch, r: BookState, e: Entry)
    requires SameVouchers(b, r) && Eligible(b, k, e)
    ensures Eligible(r, k, e)
  {
    if Covered(r, e) {
      var c :| c in VouchersOf(r, e.eid) && c.signer == e.stamp.signer && c.at >= e.stamp.at;
      assert Knows(r, e.eid, c);
    }
    if e.stamp.signer != k.me {
      forall x, y | SignedBy(VouchersOf(b, y), x) ensures SignedBy(VouchersOf(r, y), x) {
        var c :| c in VouchersOf(b, y) && c.signer == x;
        assert Knows(r, y, c);
      }
      MembershipGrows(b, r, e.stamp.signer);
    }
  }

  lemma CrowdedLists(r: BookState, now: U64, e: Entry, d: Device)
    requires Crowded(VouchersOf(r, e.eid), e.stamp) && e.stamp.at <= ClampBound(now)
    ensures var v, v' := VouchersOf(r, d), VouchersOf(Accept(r, now, e), d);
            |v'| == |v| && forall c :: c in v' <==> c in v
  {
    CrowdedAddsNothing(VouchersOf(r, e.eid), e.stamp);
    AcceptLists(r, now, e);
    assert Stored(now, e.stamp) == e.stamp;
  }

  lemma CrowdedStep(b: BookState, k: Batch, r: BookState, e: Entry)
    requires SameVouchers(b, r) && Crowded(VouchersOf(b, e.eid), e.stamp) && e.stamp.at <= ClampBound(k.now)
    ensures SameVouchers(b, Accept(r, k.now, e))
  {
    var r' := Accept(r, k.now, e);
    forall c | c in VouchersOf(r, e.eid) ensures c.signer != e.stamp.signer && c.at >= e.stamp.at {
      assert Knows(r, e.eid, c);
      assert Knows(b, e.eid, c);
    }
    forall d, c ensures Knows(r', d, c) <==> Knows(b, d, c) {
      CrowdedLists(r, k.now, e, d);
      assert Knows(r, d, c) <==> Knows(b, d, c);
    }
    forall d ensures |VouchersOf(r', d)| == |VouchersOf(b, d)| {
      CrowdedLists(r, k.now, e, d);
    }
  }

  lemma {:induction false} CrowdedRun(b: BookState, k: Batch, tr: seq<Entry>, e: Entry)
    requires OffersOnly(k, e) && MergeTrace(b, k, tr)
    requires Crowded(VouchersOf(b, e.eid), e.stamp) && e.stamp.at <= ClampBound(k.now)
    ensures SameVouchers(b, AcceptAll(b, k.now, tr))
  {
    if tr != [] {
      var init := tr[..|tr| - 1];
      CrowdedRun(b, k, init, e);
      OnlyOffer(k, e, tr[|tr| - 1]);
      CrowdedStep(b, k, AcceptAll(b, k.now, init), e);
    }
  }

  lemma OneAccepted(b: BookState, k: Batch, e: Entry)
    requires Offered(k, e) && Eligible(b, k, e)
    ensures MergeTrace(b, k, [e]) && AcceptAll(b, k.now, [e]) == Accept(b, k.now, e)
  {
    assert [e][..0] == [];
    assert AcceptAll(b, k.now, []) == b && MergeTrace(b, k, []);
  }

  lemma UncrowdedSettles(b: BookState, k: Batch, e: Entry)
    requires OffersOnly(k, e) && Eligible(b, k, e) && e.stamp.at <= ClampBound(k.now)
    requires OnePerSigner(VouchersOf(b, e.eid)) && |VouchersOf(b, e.eid)| <= MAX_VOUCHERS
    requires !Crowded(VouchersOf(b, e.eid), e.stamp)
    ensures SettledAfter(b, k, [e])
  {
    OnlyOffer(k, e, e);
    OneAccepted(b, k, e);
    UncrowdedKeeps(VouchersOf(b, e.eid), e.stamp);
    AcceptLists(b, k.now, e);
    var r := Accept(b, k.now, e);
    assert e.stamp in VouchersOf(r, e.eid) && Covered(r, e);
    forall f | Offered(k, f) ensures !Eligible(r, k, f) {
      OnlyOffer(k, e, f);
    }
  }

  lemma CrowdedNeverSettles(b: BookState, k: Batch, e: Entry, tr: seq<Entry>)
    requires OffersOnly(k, e) && Eligible(b, k, e) && e.stamp.at <= ClampBound(k.now)
    requires Crowded(VouchersOf(b, e.eid), e.stamp) && MergeTrace(b, k, tr)
    ensures !Settled(AcceptAll(b, k.now, tr), k)
  {
    OnlyOffer(k, e, e);
    CrowdedRun(b, k, tr, e);
    SameVouchersStayEligible(b, k, AcceptAll(b, k.now, tr), e);
  }

  /**
    A stamp the loop would accept, dated within the clamp and offered alone, lets the loop
    stop exactly when it does not meet a full list of vouchers all at least as new: there it
    is accepted, cut off and accepted again in every pass.
   */
  lemma StopsExactlyWhenUncrowded(b: BookState, k: Batch, e: Entry)
    requires OffersOnly(k, e) && Eligible(b, k, e) && e.stamp.at <= ClampBound(k.now)
    requires OnePerSigner(VouchersOf(b, e.eid)) && |VouchersOf(b, e.eid)| <= MAX_VOUCHERS
    ensures (exists tr :: SettledAfter(b, k, tr)) <==> !Crowded(VouchersOf(b, e.eid), e.stamp)
  {
    if Crowded(VouchersOf(b, e.eid), e.stamp) {
      forall tr | MergeTrace(b, k, tr) ensures !Settled(AcceptAll(b, k.now, tr), k) {
        CrowdedNeverSettles(b, k, e, tr);
      }
    } else {
      UncrowdedSettles(b, k, e);
    }
  }

  // ---------- any batch ----------

  lemma {:induction false} WithoutSize(v: seq<Stamp>, who: Device)
    requires OnePerSigner(v)
    ensures |Without(v, who)| == if SignedBy(v, who) then |v| - 1 else |v|
  {
    if v != [] {
      var init, last := v[..|v| - 1], v[|v| - 1];
      assert v == init + [last];
      WithoutSize(init, who);
      if last.signer == who {
        assert !SignedBy(init, who) by {
          if c :| c in init && c.signer == who { OneVoucher(v, c, last); }
        }
        assert last in v;
      } else {
        assert SignedBy(v, who) <==> SignedBy(init, who);
      }
    }
  }

  lemma AddToSize(v: seq<Stamp>, f: Stamp)
    requires OnePerSigner(v) && |v| == MAX_VOUCHERS
    ensures |AddTo(v, f)| == MAX_VOUCHERS
  {
    WithoutSize(v, f.signer);
  }

  /** A full list that is no older than `s` stays so whatever else is accepted. */
  lemma CrowdedStays(v: seq<Stamp>, s: Stamp, f: Stamp)
    requires OnePerSigner(v) && Crowded(v, s)
    requires f.signer == s.signer ==> f.at <= s.at
    requires forall c :: c in v && c.signer == f.signer ==> f.at >= s.at
    ensures Crowded(AddTo(v, f), s)
  {
    AddToSize(v, f);
    if Crowded(v, f) {
      CrowdedAddsNothing(v, f);
    } else {
      forall c | c in AddTo(v, f) ensures c.signer != s.signer && c.at >= s.at {
        AddedFrom(v, f, c);
      }
    }
  }

  /** The newest stamp its signer has in the batch for this device. */
  ghost predicate NewestOfSigner(k: Batch, e: Entry) {
    forall f :: Offered(k, f) && f.eid == e.eid && f.stamp.signer == e.stamp.signer ==> f.stamp.at <= e.stamp.at
  }

  lemma CrowdedAccept(k: Batch, r: BookState, e: Entry, f: Entry)
    requires e.stamp.at <= ClampBound(k.now) && NewestOfSigner(k, e)
    requires OnePerSigner(VouchersOf(r, e.eid)) && Crowded(VouchersOf(r, e.eid), e.stamp)
    requires Offered(k, f) && !Covered(r, f)
    ensures var v := VouchersOf(Accept(r, k.now, f), e.eid); OnePerSigner(v) && Crowded(v, e.stamp)
  {
    AcceptLists(r, k.now, f);
    if f.eid == e.eid {
      var v := VouchersOf(r, e.eid);
      AddToKeepsShape(v, Stored(k.now, f.stamp));
      forall c | c in v && c.signer == f.stamp.signer ensures Clamp(k.now, f.stamp.at) >= e.stamp.at {
        assert c.at < f.stamp.at;
      }
      CrowdedStays(v, e.stamp, Stored(k.now, f.stamp));
    }
  }

  lemma {:induction false} CrowdedThroughout(b: BookState, k: Batch, tr: seq<Entry>, e: Entry)
    requires MergeTrace(b, k, tr) && e.stamp.at <= ClampBound(k.now) && NewestOfSigner(k, e)
    requires OnePerSigner(VouchersOf(b, e.eid)) && Crowded(VouchersOf(b, e.eid), e.stamp)
    ensures var v := VouchersOf(AcceptAll(b, k.now, tr), e.eid); OnePerSigner(v) && Crowded(v, e.stamp)
  {
    if tr != [] {
      CrowdedThroughout(b, k, tr[..|tr| - 1], e);
      CrowdedAccept(k, AcceptAll(b, k.now, tr[..|tr| - 1]), e, tr[|tr| - 1]);
    }
  }

  /**
    Whatever else a batch offers, a genuine stamp that meets a full list of other signers'
    vouchers all at least as new is accepted and cut off in every pass: no run stops while its
    signer is trusted, and this device always trusts itself.
   */
  lemma CrowdedStampNeverSettles(b: BookState, k: Batch, tr: seq<Entry>, e: Entry)
    requires Genuine(k, e) && e.stamp.at <= ClampBound(k.now) && NewestOfSigner(k, e)
    requires OnePerSigner(VouchersOf(b, e.eid)) && Crowded(VouchersOf(b, e.eid), e.stamp)
    requires SettledAfter(b, k, tr)
    ensures !Trusted(AcceptAll(b, k.now, tr), k, e.stamp.signer) && e.stamp.signer != k.me
  {
    CrowdedThroughout(b, k, tr, e);
    assert !Covered(AcceptAll(b, k.now, tr), e);
  }
}
