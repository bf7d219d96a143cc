/** When merging a batch stops, for any number of stamps offered to lists that overflow. */
module MergeFitting {
  import opened Common
  import opened Sorting
  import opened Vouchers
  import opened Ledger
  import opened MergeProofs
  import opened MergeLimits
  import opened MergeLosses

  // ---------- the vouchers a batch asks a list to keep ----------

  /** `x` stands before `c` in the list. */
  ghost predicate Sooner(v: seq<Stamp>, x: Stamp, c: Stamp) {
    exists i, j :: 0 <= i < j < |v| && v[i] == x && v[j] == c
  }

  ghost predicate NoneNewer(b: BookState, k: Batch, d: Device, s: Stamp) {
    forall f: Stamp :: Relevant(b, k, Entry(d, f)) && f.signer == s.signer ==> f.at <= s.at
  }

  /** The voucher a signer must end with: its own old one if that covers all it offers, or else its newest offer. */
  ghost predicate Final(b: BookState, k: Batch, d: Device, s: Stamp) {
    && s.signer in RelevantSigners(b, k, d) && NoneNewer(b, k, d, s)
    && (s in VouchersOf(b, d) || (Relevant(b, k, Entry(d, s)) && !Covered(b, Entry(d, s))))
  }

  /** An old voucher `c` stays before `s` in every list that holds both. */
  ghost predicate Precedes(v: seq<Stamp>, c: Stamp, s: Stamp) {
    if s in v then Sooner(v, c, s) else c.at >= s.at
  }

  ghost predicate Holds(b: BookState, k: Batch, d: Device, c: Stamp) {
    && c in VouchersOf(b, d) && c.signer !in RelevantSigners(b, k, d)
    && exists s: Stamp :: Final(b, k, d, s) && Precedes(VouchersOf(b, d), c, s)
  }

  /** Signers of old vouchers nobody offers again that stand before one that must stay. */
  ghost function Holders(b: BookState, k: Batch, d: Device): set<Device> {
    set c | c in VouchersOf(b, d) && Holds(b, k, d, c) :: c.signer
  }

  /** The list for `d` has places for all that must stay and all that stand before those. */
  ghost predicate Fits(b: BookState, k: Batch, d: Device) {
    |RelevantSigners(b, k, d) + Holders(b, k, d)| <= MAX_VOUCHERS
  }

  // ---------- who surely stays trusted ----------

  ghost predicate Roomy(b: BookState, k: Batch, d: Device) {
    |Signers(VouchersOf(b, d)) + RelevantSigners(b, k, d)| <= MAX_VOUCHERS
  }

  /** `s` holds this device and everyone those in it vouch for in a list that cannot overflow. */
  ghost predicate ClosedInRoom(b: BookState, k: Batch, s: iset<Device>) {
    && k.me in s
    && forall x, d :: x in s && Vouches(b, k, x, d) && StaysIn(b, k, d, s) && Roomy(b, k, d) ==> d in s
  }

  /** Trusted whatever the overflowing lists lose. */
  ghost predicate Steady(b: BookState, k: Batch, who: Device) {
    forall s: iset<Device> :: ClosedInRoom(b, k, s) ==> who in s
  }

  ghost predicate AllSteady(b: BookState, k: Batch) {
    forall e :: Relevant(b, k, e) ==> Steady(b, k, e.stamp.signer)
  }

  ghost predicate Listed(v: seq<Stamp>) {
    OnePerSigner(v) && NewestFirst(v) && |v| <= MAX_VOUCHERS
  }

  /** A book in use, with its lists as `add_voucher` leaves them and nothing past the clamp. */
  ghost predicate Start(b: BookState, k: Batch) {
    Ready(b, k) && !IsRemoved(b, b.me) && Dated(b, k.now) && forall d :: Listed(VouchersOf(b, d))
  }

  // ---------- what every run keeps ----------

  lemma DatedAccept(r: BookState, now: U64, e: Entry)
    requires Dated(r, now)
    ensures Dated(Accept(r, now, e), now)
  {
    var r' := Accept(r, now, e);
    AcceptLists(r, now, e);
    forall d, c | Knows(r', d, c) ensures d in r'.linked && c.at <= r'.linked[d] && c.at <= ClampBound(now) {
      if d == e.eid { AddedFrom(VouchersOf(r, d), Stored(now, e.stamp), c); }
      assert TimeOf(r.linked, d) <= TimeOf(r'.linked, d);
      if !(d == e.eid && c == Stored(now, e.stamp)) { assert Knows(r, d, c); }
    }
  }

  lemma ListedAccept(r: BookState, now: U64, e: Entry)
    requires forall d :: Listed(VouchersOf(r, d))
    ensures forall d :: Listed(VouchersOf(Accept(r, now, e), d))
  {
    AcceptLists(r, now, e);
    AddToKeepsShape(VouchersOf(r, e.eid), Stored(now, e.stamp));
  }

  lemma {:induction false} RunKeepsLists(b: BookState, k: Batch, tr: seq<Entry>)
    requires Dated(b, k.now) && forall d :: Listed(VouchersOf(b, d))
    ensures var r := AcceptAll(b, k.now, tr); Dated(r, k.now) && forall d :: Listed(VouchersOf(r, d))
  {
    if tr != [] {
      RunKeepsLists(b, k, tr[..|tr| - 1]);
      DatedAccept(AcceptAll(b, k.now, tr[..|tr| - 1]), k.now, tr[|tr| - 1]);
      ListedAccept(AcceptAll(b, k.now, tr[..|tr| - 1]), k.now, tr[|tr| - 1]);
    }
  }

  lemma LastIsRelevant(b: BookState, k: Batch, tr: seq<Entry>)
    requires Ready(b, k) && MergeTrace(b, k, tr) && tr != []
    ensures Relevant(b, k, tr[|tr| - 1]) && Offered(k, tr[|tr| - 1])
    ensures !Covered(AcceptAll(b, k.now, tr[..|tr| - 1]), tr[|tr| - 1])
  {
    RunBrings(b, k, tr[..|tr| - 1]);
    TrustedIsTrustable(b, k, AcceptAll(b, k.now, tr[..|tr| - 1]), tr[|tr| - 1].stamp.signer);
  }

  /** A list that cannot overflow loses no signer. */
  ghost predicate KeptSigners(b: BookState, k: Batch, r: BookState, d: Device) {
    Signers(VouchersOf(b, d)) <= Signers(VouchersOf(r, d)) <= Signers(VouchersOf(b, d)) + RelevantSigners(b, k, d)
  }

  lemma KeptAccept(b: BookState, k: Batch, r: BookState, d: Device, e: Entry)
    requires Roomy(b, k, d) && KeptSigners(b, k, r, d) && OnePerSigner(VouchersOf(r, d)) && Relevant(b, k, e)
    ensures KeptSigners(b, k, Accept(r, k.now, e), d)
  {
    AcceptLists(r, k.now, e);
    if e.eid == d {
      var v := VouchersOf(r, d);
      assert Entry(d, e.stamp) == e && e.stamp.signer in RelevantSigners(b, k, d);
      SubsetCardinality(Signers(v) + {e.stamp.signer}, Signers(VouchersOf(b, d)) + RelevantSigners(b, k, d));
      AddToWithRoom(v, Stored(k.now, e.stamp));
    }
  }

  lemma {:induction false} RoomyRun(b: BookState, k: Batch, tr: seq<Entry>, d: Device)
    requires Start(b, k) && MergeTrace(b, k, tr) && Roomy(b, k, d)
    ensures KeptSigners(b, k, AcceptAll(b, k.now, tr), d)
  {
    if tr != [] {
      RoomyRun(b, k, tr[..|tr| - 1], d);
      RunKeepsLists(b, k, tr[..|tr| - 1]);
      LastIsRelevant(b, k, tr);
      assert Listed(VouchersOf(AcceptAll(b, k.now, tr[..|tr| - 1]), d));
      KeptAccept(b, k, AcceptAll(b, k.now, tr[..|tr| - 1]), d, tr[|tr| - 1]);
    }
  }

  /** Whoever is steady is trusted where a run ends. */
  lemma SteadyIsTrusted(b: BookState, k: Batch, tr: seq<Entry>, who: Device)
    requires Start(b, k) && SettledAfter(b, k, tr) && Steady(b, k, who)
    ensures Trusted(AcceptAll(b, k.now, tr), k, who)
  {
    var f := AcceptAll(b, k.now, tr);
    var s := iset y | Trusted(f, k, y);
    RunBrings(b, k, tr);
    RunKeepsLists(b, k, tr);
    assert !IsRemoved(f, f.me) by {
      assert TimeOf(b.linked, b.me) <= TimeOf(f.linked, b.me);
    }
    forall x, d | x in s && Vouches(b, k, x, d) && StaysIn(b, k, d, s) && Roomy(b, k, d) ensures d in s {
      RoomyRun(b, k, tr, d);
      if SignedBy(VouchersOf(b, d), x) { SignersMean(VouchersOf(b, d), VouchersOf(f, d), x); }
      SettledVouching(b, k, f, x, d);
    }
    assert ClosedInRoom(b, k, s);
  }

  /** So every stamp that counts is covered there. */
  lemma SettledCovers(b: BookState, k: Batch, tr: seq<Entry>, e: Entry)
    requires Start(b, k) && AllSteady(b, k) && SettledAfter(b, k, tr) && Relevant(b, k, e)
    ensures Covered(AcceptAll(b, k.now, tr), e)
  {
    SteadyIsTrusted(b, k, tr, e.stamp.signer);
  }

  lemma SettledIsInClamp(b: BookState, k: Batch, tr: seq<Entry>)
    requires Start(b, k) && AllSteady(b, k) && SettledAfter(b, k, tr)
    ensures InClamp(b, k)
  {
    RunKeepsLists(b, k, tr);
    forall e | Relevant(b, k, e) ensures e.stamp.at <= ClampBound(k.now) {
      SettledCovers(b, k, tr, e);
      CoveredIsWithinClamp(AcceptAll(b, k.now, tr), k.now, e);
    }
  }

  // ---------- one voucher taken into a sorted list ----------

  lemma {:induction false} PlacedAt(w: seq<Stamp>, s: Stamp) returns (r: nat)
    requires NewestFirst(w)
    ensures r <= |w| && Place(w, s, Newer) == w[..r] + [s] + w[r..]
    ensures (forall q :: 0 <= q < r ==> w[q].at >= s.at) && (forall q :: r <= q < |w| ==> w[q].at < s.at)
  {
    if w == [] || Newer(w[|w| - 1], s) {
      r := |w|;
    } else {
      var init, last := w[..|w| - 1], w[|w| - 1];
      r := PlacedAt(init, s);
      assert w == init + [last];
    }
  }

  lemma WithoutLast(w: seq<Stamp>)
    requires OnePerSigner(w) && w != []
    ensures Without(w, w[|w| - 1].signer) == w[..|w| - 1]
  {
    WithoutStranger(w[..|w| - 1], w[|w| - 1].signer);
  }

  lemma SignerFound(w: seq<Stamp>, who: Device)
    ensures SignedBy(w, who) <==> w != [] && (SignedBy(w[..|w| - 1], who) || w[|w| - 1].signer == who)
  {
    if w != [] { assert w == w[..|w| - 1] + [w[|w| - 1]]; }
  }

  /** The list without one signer's voucher. */
  lemma {:induction false} WithoutAt(w: seq<Stamp>, who: Device) returns (m: nat)
    requires OnePerSigner(w)
    ensures m <= |w|
    ensures m == |w| ==> Without(w, who) == w && !SignedBy(w, who)
    ensures m < |w| ==> w[m].signer == who && Without(w, who) == w[..m] + w[m + 1..]
  {
    if w == [] {
      m := 0;
    } else {
      var init, last := w[..|w| - 1], w[|w| - 1];
      SignerFound(w, who);
      if last.signer == who {
        WithoutLast(w);
        m := |w| - 1;
      } else {
        m := WithoutAt(init, who);
        assert m < |init| ==> w[..m] + w[m + 1..] == init[..m] + init[m + 1..] + [last];
        if m == |init| { m := |w|; }
      }
    }
  }

  lemma WithoutSorted(w: seq<Stamp>, who: Device)
    requires OnePerSigner(w) && NewestFirst(w)
    ensures NewestFirst(Without(w, who)) && OnePerSigner(Without(w, who))
  {
    var m := WithoutAt(w, who);
    WithoutElements(w, who);
  }

  lemma TakenInIs(w: seq<Stamp>, s: Stamp)
    requires OnePerSigner(w) && NewestFirst(w)
    ensures TakenIn(w, s) == Place(Without(w, s.signer), s, Newer)
  {
    var w1 := Without(w, s.signer);
    WithoutSorted(w, s.signer);
    SortedStays(w1);
    assert (w1 + [s])[..|w1|] == w1;
  }

  // ---------- an old voucher that nobody offers again ----------

  /** Nothing that came later stands before `c`, unless newer. */
  ghost predicate Ahead(v: seq<Stamp>, c: Stamp, x: Stamp) {
    x.at > c.at || (x.at == c.at && Sooner(v, x, c))
  }

  ghost predicate AllAhead(v: seq<Stamp>, c: Stamp, w: seq<Stamp>) {
    forall q :: 0 <= q < |w| ==> Ahead(v, c, w[q])
  }

  /** `c` is in the list behind ones ahead of it, or pushed out by a full list of them. */
  ghost predicate Standing(v: seq<Stamp>, c: Stamp, w: seq<Stamp>) {
    || (AllAhead(v, c, w) && |w| == MAX_VOUCHERS)
    || exists p :: StandsAt(v, c, w, p)
  }

  ghost predicate StandsAt(v: seq<Stamp>, c: Stamp, w: seq<Stamp>, p: int) {
    0 <= p < |w| && w[p] == c && AllAhead(v, c, w[..p])
  }

  lemma FirstStanding(v: seq<Stamp>, c: Stamp)
    requires Listed(v) && c in v
    ensures Standing(v, c, v)
  {
    var p :| 0 <= p < |v| && v[p] == c;
    forall q | 0 <= q < p ensures Ahead(v, c, v[q]) {
      assert Sooner(v, v[q], c);
    }
    assert StandsAt(v, c, v, p);
  }

  /** Taking in a newer voucher of somebody else. */
  lemma StandingStays(v: seq<Stamp>, c: Stamp, w: seq<Stamp>, s: Stamp)
    requires Listed(w) && Standing(v, c, w) && s.signer != c.signer
    requires forall x :: x in w && x.signer == s.signer ==> x.at < s.at
    ensures Standing(v, c, AddTo(w, s))
  {
    TakenInIs(w, s);
    if p :| StandsAt(v, c, w, p) {
      WithoutStands(v, c, w, s, p);
    } else {
      PushedOutStays(v, c, w, s);
    }
  }

  lemma WithoutStands(v: seq<Stamp>, c: Stamp, w: seq<Stamp>, s: Stamp, p: int)
    requires Listed(w) && StandsAt(v, c, w, p) && s.signer != c.signer
    requires TakenIn(w, s) == Place(Without(w, s.signer), s, Newer)
    ensures Standing(v, c, AddTo(w, s))
  {
    var m := WithoutAt(w, s.signer);
    WithoutSorted(w, s.signer);
    CutStands(v, c, w, Without(w, s.signer), p, m);
    PlaceStands(v, c, Without(w, s.signer), s, if m < p then p - 1 else p);
  }

  lemma CutStands(v: seq<Stamp>, c: Stamp, w: seq<Stamp>, w1: seq<Stamp>, p: int, m: nat)
    requires StandsAt(v, c, w, p) && m <= |w| && m != p
    requires w1 == if m < |w| then w[..m] + w[m + 1..] else w
    ensures StandsAt(v, c, w1, if m < p then p - 1 else p)
  {
    var n := if m < p then p - 1 else p;
    forall q | 0 <= q < n ensures Ahead(v, c, w1[..n][q]) {
      assert w1[q] == if q < m then w[..p][q] else w[..p][q + 1];
    }
  }

  lemma PlaceStands(v: seq<Stamp>, c: Stamp, w: seq<Stamp>, s: Stamp, p: int)
    requires NewestFirst(w) && StandsAt(v, c, w, p) && |w| <= MAX_VOUCHERS
    ensures Standing(v, c, Bounded(Place(w, s, Newer)))
  {
    var r := PlacedAt(w, s);
    var u := Place(w, s, Newer);
    if s.at > c.at {
      InsertedBefore(v, c, w, s, u, p, r);
      BoundedStands(v, c, u, p + 1);
    } else {
      assert u[..p] == w[..p];
      assert StandsAt(v, c, u, p);
      BoundedStands(v, c, u, p);
    }
  }

  lemma InsertedBefore(v: seq<Stamp>, c: Stamp, w: seq<Stamp>, s: Stamp, u: seq<Stamp>, p: int, r: nat)
    requires StandsAt(v, c, w, p) && r <= p && Ahead(v, c, s) && u == w[..r] + [s] + w[r..]
    ensures StandsAt(v, c, u, p + 1)
  {
    var front, before := u[..p + 1], w[..p];
    forall q | 0 <= q < |front| ensures Ahead(v, c, front[q]) {
      if q != r { assert front[q] == if q < r then before[q] else before[q - 1]; }
    }
  }

  lemma BoundedStands(v: seq<Stamp>, c: Stamp, u: seq<Stamp>, p: int)
    requires StandsAt(v, c, u, p)
    ensures Standing(v, c, Bounded(u))
  {
    if p < |Bounded(u)| {
      assert Bounded(u)[..p] == u[..p];
      assert StandsAt(v, c, Bounded(u), p);
    } else {
      forall q | 0 <= q < |Bounded(u)| ensures Ahead(v, c, Bounded(u)[q]) {
        assert Bounded(u)[q] == u[..p][q];
      }
    }
  }

  lemma PushedOutStays(v: seq<Stamp>, c: Stamp, w: seq<Stamp>, s: Stamp)
    requires Listed(w) && AllAhead(v, c, w) && |w| == MAX_VOUCHERS
    requires forall x :: x in w && x.signer == s.signer ==> x.at < s.at
    requires TakenIn(w, s) == Place(Without(w, s.signer), s, Newer)
    ensures AllAhead(v, c, AddTo(w, s)) && |AddTo(w, s)| == MAX_VOUCHERS
  {
    var m := WithoutAt(w, s.signer);
    var w1 := Without(w, s.signer);
    WithoutSorted(w, s.signer);
    if m < |w| { assert w[m] in w && Ahead(v, c, w[m]); }
    forall q | 0 <= q < |w1| ensures Ahead(v, c, w1[q]) {
      assert w1[q] == if q < m then w[q] else w[q + 1];
    }
    PlacedAhead(v, c, w1, s);
  }

  lemma PlacedAhead(v: seq<Stamp>, c: Stamp, w: seq<Stamp>, s: Stamp)
    requires NewestFirst(w) && AllAhead(v, c, w) && MAX_VOUCHERS - 1 <= |w| <= MAX_VOUCHERS
    requires |w| < MAX_VOUCHERS ==> s.at > c.at
    ensures var u := Bounded(Place(w, s, Newer)); AllAhead(v, c, u) && |u| == MAX_VOUCHERS
  {
    var r := PlacedAt(w, s);
    var u := Place(w, s, Newer);
    if r < |w| { assert Ahead(v, c, w[r]); }
    forall q | 0 <= q < MAX_VOUCHERS ensures Ahead(v, c, u[q]) {
      if q != r { assert u[q] == if q < r then w[q] else w[q - 1]; }
    }
  }

  lemma {:induction false} RunStanding(b: BookState, k: Batch, tr: seq<Entry>, d: Device, c: Stamp)
    requires Start(b, k) && InClamp(b, k) && MergeTrace(b, k, tr)
    requires c in VouchersOf(b, d) && c.signer !in RelevantSigners(b, k, d)
    ensures Standing(VouchersOf(b, d), c, VouchersOf(AcceptAll(b, k.now, tr), d))
  {
    if tr == [] {
      assert Listed(VouchersOf(b, d));
      FirstStanding(VouchersOf(b, d), c);
    } else {
      var r, e := AcceptAll(b, k.now, tr[..|tr| - 1]), tr[|tr| - 1];
      RunStanding(b, k, tr[..|tr| - 1], d, c);
      RunKeepsLists(b, k, tr[..|tr| - 1]);
      LastIsRelevant(b, k, tr);
      AcceptLists(r, k.now, e);
      assert Stored(k.now, e.stamp) == e.stamp && Listed(VouchersOf(r, d));
      if e.eid == d {
        assert Entry(d, e.stamp) == e && e.stamp.signer in RelevantSigners(b, k, d);
        StandingStays(VouchersOf(b, d), c, VouchersOf(r, d), e.stamp);
      }
    }
  }

  // ---------- stopping needs the places ----------

  /** What a run leaves in a list is old, or was offered and counts. */
  lemma RunLeaves(b: BookState, k: Batch, tr: seq<Entry>, d: Device, c: Stamp)
    requires Start(b, k) && InClamp(b, k) && MergeTrace(b, k, tr) && Knows(AcceptAll(b, k.now, tr), d, c)
    ensures c in VouchersOf(b, d) || Relevant(b, k, Entry(d, c))
  {
    RunBrings(b, k, tr);
    if !Knows(b, d, c) {
      var s: Stamp :| Relevant(b, k, Entry(d, s)) && c == Stored(k.now, s);
      assert Entry(d, s).stamp.at <= ClampBound(k.now);
    }
  }

  lemma RelevantOf(b: BookState, k: Batch, d: Device, o: Device) returns (s: Stamp)
    requires o in RelevantSigners(b, k, d)
    ensures s.signer == o && Relevant(b, k, Entry(d, s)) && d in k.proofs && s in Taken(k.proofs[d])
  {
    s :| s in Taken(k.proofs[d]) && Relevant(b, k, Entry(d, s)) && s.signer == o;
  }

  lemma SettledHasRelevant(b: BookState, k: Batch, tr: seq<Entry>, d: Device, o: Device)
    requires Start(b, k) && AllSteady(b, k) && SettledAfter(b, k, tr) && o in RelevantSigners(b, k, d)
    ensures o in Signers(VouchersOf(AcceptAll(b, k.now, tr), d))
  {
    var s := RelevantOf(b, k, d, o);
    SettledCovers(b, k, tr, Entry(d, s));
  }

  /** What the signer of `s` has where a run ends. */
  lemma SettledHasFinal(b: BookState, k: Batch, tr: seq<Entry>, d: Device, s: Stamp) returns (c: Stamp)
    requires Start(b, k) && AllSteady(b, k) && SettledAfter(b, k, tr) && InClamp(b, k) && Final(b, k, d, s)
    ensures Knows(AcceptAll(b, k.now, tr), d, c) && c.at <= s.at
    ensures if s in VouchersOf(b, d) then c in VouchersOf(b, d) ==> c == s else c !in VouchersOf(b, d)
  {
    var f := if s in VouchersOf(b, d) then RelevantFor(b, k, d, s) else s;
    SettledCovers(b, k, tr, Entry(d, f));
    c :| c in VouchersOf(AcceptAll(b, k.now, tr), d) && c.signer == f.signer && c.at >= f.at;
    RunLeaves(b, k, tr, d, c);
    assert Listed(VouchersOf(b, d));
    if c in VouchersOf(b, d) && s in VouchersOf(b, d) {
      OneVoucher(VouchersOf(b, d), c, s);
    }
  }

  ghost function RelevantFor(b: BookState, k: Batch, d: Device, s: Stamp): (f: Stamp)
    requires s.signer in RelevantSigners(b, k, d)
    ensures f.signer == s.signer && Relevant(b, k, Entry(d, f))
  {
    var f :| f in Taken(k.proofs[d]) && Relevant(b, k, Entry(d, f)) && f.signer == s.signer;
    f
  }

  lemma SettledHasHolder(b: BookState, k: Batch, tr: seq<Entry>, d: Device, c: Stamp)
    requires Start(b, k) && AllSteady(b, k) && SettledAfter(b, k, tr) && InClamp(b, k) && Holds(b, k, d, c)
    ensures c.signer in Signers(VouchersOf(AcceptAll(b, k.now, tr), d))
  {
    var v, w := VouchersOf(b, d), VouchersOf(AcceptAll(b, k.now, tr), d);
    RunStanding(b, k, tr, d, c);
    var s: Stamp :| Final(b, k, d, s) && Precedes(v, c, s);
    var x := SettledHasFinal(b, k, tr, d, s);
    assert Listed(v);
    NotBothWays(v, c, s, x);
    StandingWith(v, c, w, x);
  }

  lemma StandingWith(v: seq<Stamp>, c: Stamp, w: seq<Stamp>, x: Stamp)
    requires Standing(v, c, w) && x in w && !Ahead(v, c, x)
    ensures c in w
  {
    var q :| 0 <= q < |w| && w[q] == x;
  }

  lemma SettledHasHolders(b: BookState, k: Batch, tr: seq<Entry>, d: Device, o: Device)
    requires Start(b, k) && AllSteady(b, k) && SettledAfter(b, k, tr) && InClamp(b, k) && o in Holders(b, k, d)
    ensures o in Signers(VouchersOf(AcceptAll(b, k.now, tr), d))
  {
    var c :| c in VouchersOf(b, d) && Holds(b, k, d, c) && c.signer == o;
    SettledHasHolder(b, k, tr, d, c);
  }

  lemma NotBothWays(v: seq<Stamp>, c: Stamp, s: Stamp, x: Stamp)
    requires Listed(v) && Precedes(v, c, s) && x.at <= s.at
    requires if s in v then x in v ==> x == s else x !in v
    ensures !Ahead(v, c, x)
  {
    if s in v {
      var i, j :| 0 <= i < j < |v| && v[i] == c && v[j] == s;
      assert c.at >= s.at;
    }
  }

  lemma SettledFits(b: BookState, k: Batch, tr: seq<Entry>, d: Device)
    requires Start(b, k) && AllSteady(b, k) && SettledAfter(b, k, tr) && InClamp(b, k)
    ensures Fits(b, k, d)
  {
    var w := VouchersOf(AcceptAll(b, k.now, tr), d);
    SettledIsListed(b, k, tr, d);
    forall o | o in RelevantSigners(b, k, d) ensures o in Signers(w) {
      SettledHasRelevant(b, k, tr, d, o);
    }
    forall o | o in Holders(b, k, d) ensures o in Signers(w) {
      SettledHasHolders(b, k, tr, d, o);
    }
    SubsetCardinality(RelevantSigners(b, k, d) + Holders(b, k, d), Signers(w));
  }

  lemma SettledIsListed(b: BookState, k: Batch, tr: seq<Entry>, d: Device)
    requires Start(b, k)
    ensures |Signers(VouchersOf(AcceptAll(b, k.now, tr), d))| <= MAX_VOUCHERS
  {
    RunKeepsLists(b, k, tr);
    assert Listed(VouchersOf(AcceptAll(b, k.now, tr), d));
    SignersSize(VouchersOf(AcceptAll(b, k.now, tr), d));
  }

  // ---------- the places are enough ----------

  lemma NewestOf(s: set<Stamp>) returns (m: Stamp)
    requires s != {}
    ensures m in s && forall x :: x in s ==> x.at <= m.at
    decreases s
  {
    m :| m in s;
    if s != {m} {
      var n := NewestOf(s - {m});
      if n.at > m.at { m := n; }
    }
  }

  lemma FinalExists(b: BookState, k: Batch, d: Device, o: Device) returns (s: Stamp)
    requires o in RelevantSigners(b, k, d)
    ensures Final(b, k, d, s) && s.signer == o
  {
    var f := RelevantOf(b, k, d, o);
    var all := set x | x in Taken(k.proofs[d]) && Relevant(b, k, Entry(d, x)) && x.signer == o;
    assert f in all;
    s := NewestOf(all);
    forall x: Stamp | Relevant(b, k, Entry(d, x)) && x.signer == o ensures x.at <= s.at {
      assert x in all;
    }
    if Covered(b, Entry(d, s)) {
      s :| s in VouchersOf(b, d) && s.signer == o && forall x :: x in all ==> x.at <= s.at;
    }
  }

  lemma FinalIsOne(b: BookState, k: Batch, d: Device, c: Stamp, s: Stamp)
    requires Start(b, k) && Final(b, k, d, c) && Final(b, k, d, s) && c.signer == s.signer
    ensures c == s
  {
    assert Listed(VouchersOf(b, d));
    if c in VouchersOf(b, d) && s in VouchersOf(b, d) {
      OneVoucher(VouchersOf(b, d), c, s);
    } else if c in VouchersOf(b, d) {
      assert Covered(b, Entry(d, s));
    }
  }

  /** A list along a run that accepts only what must stay. */
  ghost predicate OnCourse(b: BookState, k: Batch, d: Device, w: seq<Stamp>) {
    && Listed(w)
    && (forall c :: c in w ==> c in VouchersOf(b, d) || Final(b, k, d, c))
    && KeepsOrder(VouchersOf(b, d), w)
    && (forall s :: s in VouchersOf(b, d) && Final(b, k, d, s) ==> s in w)
  }

  ghost predicate KeepsOrder(v: seq<Stamp>, w: seq<Stamp>) {
    forall p, q :: 0 <= p < q < |w| ==> !Sooner(v, w[q], w[p])
  }

  lemma OldKeepsOrder(v: seq<Stamp>)
    requires OnePerSigner(v)
    ensures KeepsOrder(v, v)
  {
    forall i, j | 0 <= i < |v| && 0 <= j < |v| && v[i] == v[j] ensures i == j {
    }
  }

  lemma NotOldKeepsOrder(v: seq<Stamp>, w: seq<Stamp>, s: Stamp)
    requires KeepsOrder(v, w) && OnePerSigner(w) && NewestFirst(w) && s !in v
    ensures KeepsOrder(v, TakenIn(w, s))
  {
    var m := WithoutAt(w, s.signer);
    var w1 := Without(w, s.signer);
    assert KeepsOrder(v, w1) by {
      forall p, q | 0 <= p < q < |w1| ensures !Sooner(v, w1[q], w1[p]) {
        assert w1[p] == (if p < m then w[p] else w[p + 1]) && w1[q] == if q < m then w[q] else w[q + 1];
      }
    }
    TakenInIs(w, s);
    WithoutSorted(w, s.signer);
    PlacedKeepsOrder(v, w1, s);
  }

  lemma PlacedKeepsOrder(v: seq<Stamp>, w: seq<Stamp>, s: Stamp)
    requires KeepsOrder(v, w) && NewestFirst(w) && s !in v
    ensures KeepsOrder(v, Place(w, s, Newer))
  {
    var r := PlacedAt(w, s);
    var u := Place(w, s, Newer);
    forall p, q | 0 <= p < q < |u| ensures !Sooner(v, u[q], u[p]) {
      if p != r && q != r {
        assert u[p] == (if p < r then w[p] else w[p - 1]) && u[q] == if q < r then w[q] else w[q - 1];
      }
    }
  }

  /** What is cut off need not stay. */
  lemma CutIsNotFinal(b: BookState, k: Batch, d: Device, all: seq<Stamp>, z: Stamp)
    requires Start(b, k) && Fits(b, k, d) && OnePerSigner(all) && NewestFirst(all) && KeepsOrder(VouchersOf(b, d), all)
    requires forall c :: c in all ==> c in VouchersOf(b, d) || Final(b, k, d, c)
    requires |all| == MAX_VOUCHERS + 1 && z == all[MAX_VOUCHERS]
    ensures !Final(b, k, d, z)
  {
    var x := SpareVoucher(b, k, d, all);
    var i :| 0 <= i < |all| && all[i] == x;
    assert z in all;
    if i < MAX_VOUCHERS && z.signer != x.signer {
      assert Newer(all[i], all[MAX_VOUCHERS]) && !Sooner(VouchersOf(b, d), z, x);
      OlderPrecedes(VouchersOf(b, d), x, z);
    }
  }

  lemma OlderPrecedes(v: seq<Stamp>, x: Stamp, z: Stamp)
    requires x in v && x != z && x.at >= z.at && !Sooner(v, z, x)
    ensures Precedes(v, x, z)
  {
    if z in v {
      var i :| 0 <= i < |v| && v[i] == x;
      var j :| 0 <= j < |v| && v[j] == z;
    }
  }

  /** Nine vouchers hold one that neither must stay nor stands before one that must. */
  lemma SpareVoucher(b: BookState, k: Batch, d: Device, all: seq<Stamp>) returns (x: Stamp)
    requires Fits(b, k, d) && OnePerSigner(all) && |all| == MAX_VOUCHERS + 1
    requires forall c :: c in all ==> c in VouchersOf(b, d) || Final(b, k, d, c)
    ensures x in all && x in VouchersOf(b, d) && x.signer !in RelevantSigners(b, k, d) && !Holds(b, k, d, x)
  {
    var stays := RelevantSigners(b, k, d) + Holders(b, k, d);
    SignersSize(all);
    if Signers(all) <= stays { SubsetCardinality(Signers(all), stays); }
    var o :| o in Signers(all) && o !in stays;
    x :| x in all && x.signer == o;
    assert Holds(b, k, d, x) ==> x.signer in Holders(b, k, d);
  }

  /** Taking in a voucher that must stay drops none that must. */
  lemma TakingKeepsCourse(b: BookState, k: Batch, d: Device, w: seq<Stamp>, s: Stamp)
    requires Start(b, k) && Fits(b, k, d) && OnCourse(b, k, d, w)
    requires Final(b, k, d, s) && s !in w
    ensures OnCourse(b, k, d, AddTo(w, s)) && s in AddTo(w, s)
    ensures forall c :: c in w && Final(b, k, d, c) ==> c in AddTo(w, s)
  {
    var all, r := TakenIn(w, s), AddTo(w, s);
    TakenInShape(w, s);
    AddToKeepsShape(w, s);
    NotOldKeepsOrder(VouchersOf(b, d), w, s);
    FrontKeepsOrder(VouchersOf(b, d), all);
    forall c | Final(b, k, d, c) && (c in w || c == s) ensures c in r {
      if c != s && c.signer == s.signer { FinalIsOne(b, k, d, c, s); }
      FinalStays(b, k, d, all, c);
    }
  }

  lemma FrontKeepsOrder(v: seq<Stamp>, all: seq<Stamp>)
    requires KeepsOrder(v, all)
    ensures KeepsOrder(v, Bounded(all))
  {
  }

  lemma FinalStays(b: BookState, k: Batch, d: Device, all: seq<Stamp>, c: Stamp)
    requires Start(b, k) && Fits(b, k, d) && OnePerSigner(all) && NewestFirst(all) && KeepsOrder(VouchersOf(b, d), all)
    requires forall x :: x in all ==> x in VouchersOf(b, d) || Final(b, k, d, x)
    requires |all| <= MAX_VOUCHERS + 1 && c in all && Final(b, k, d, c)
    ensures c in Bounded(all)
  {
    if |all| > MAX_VOUCHERS {
      CutIsNotFinal(b, k, d, all, all[MAX_VOUCHERS]);
      InFront(all, c);
    }
  }

  lemma InFront(all: seq<Stamp>, c: Stamp)
    requires c in all && |all| == MAX_VOUCHERS + 1 && c != all[MAX_VOUCHERS]
    ensures c in Bounded(all)
  {
    assert all == all[..MAX_VOUCHERS] + [all[MAX_VOUCHERS]];
  }

  ghost predicate AllOnCourse(b: BookState, k: Batch, r: BookState) {
    forall d :: OnCourse(b, k, d, VouchersOf(r, d))
  }

  /** What must stay and is not there yet. */
  ghost function Missing(b: BookState, k: Batch, r: BookState): set<Entry> {
    set d, s | d in k.proofs && s in Taken(k.proofs[d]) && Final(b, k, d, s) && s !in VouchersOf(r, d) :: Entry(d, s)
  }

  /** While some stamp would be accepted, one that must stay is missing and would be. */
  lemma NextFinal(b: BookState, k: Batch, r: BookState, e: Entry) returns (s: Stamp)
    requires Start(b, k) && Brought(b, k, r) && AllOnCourse(b, k, r) && Offered(k, e) && Eligible(r, k, e)
    ensures Final(b, k, e.eid, s) && s !in VouchersOf(r, e.eid)
    ensures Offered(k, Entry(e.eid, s)) && Eligible(r, k, Entry(e.eid, s)) && Entry(e.eid, s) in Missing(b, k, r)
  {
    var d, w := e.eid, VouchersOf(r, e.eid);
    TrustedIsTrustable(b, k, r, e.stamp.signer);
    assert Entry(d, e.stamp) == e && Relevant(b, k, e);
    s := FinalExists(b, k, d, e.stamp.signer);
    assert OnCourse(b, k, d, w);
    assert s !in w;
    forall c | c in w && c.signer == s.signer ensures c.at < s.at {
      if c in VouchersOf(b, d) {
        assert !Covered(b, Entry(d, s));
      } else {
        FinalIsOne(b, k, d, c, s);
      }
    }
  }

  lemma CourseStep(b: BookState, k: Batch, r: BookState, d: Device, s: Stamp)
    requires Start(b, k) && InClamp(b, k) && (forall x :: Fits(b, k, x)) && AllOnCourse(b, k, r)
    requires Final(b, k, d, s) && Relevant(b, k, Entry(d, s)) && s !in VouchersOf(r, d)
    ensures AllOnCourse(b, k, Accept(r, k.now, Entry(d, s)))
    ensures Missing(b, k, Accept(r, k.now, Entry(d, s))) < Missing(b, k, r)
  {
    var e := Entry(d, s);
    var r' := Accept(r, k.now, e);
    AcceptLists(r, k.now, e);
    assert e.stamp.at <= ClampBound(k.now) && Stored(k.now, s) == s;
    assert OnCourse(b, k, d, VouchersOf(r, d)) && Fits(b, k, d);
    TakingKeepsCourse(b, k, d, VouchersOf(r, d), s);
    forall x ensures OnCourse(b, k, x, VouchersOf(r', x)) {
      assert OnCourse(b, k, x, VouchersOf(r, x));
    }
    forall x: Device, c: Stamp | Final(b, k, x, c) && c in VouchersOf(r, x) ensures c in VouchersOf(r', x) {
    }
    FewerMissing(b, k, r, r', d, s);
  }

  lemma FewerMissing(b: BookState, k: Batch, r: BookState, r': BookState, d: Device, s: Stamp)
    requires forall x: Device, c: Stamp :: Final(b, k, x, c) && c in VouchersOf(r, x) ==> c in VouchersOf(r', x)
    requires Relevant(b, k, Entry(d, s)) && Final(b, k, d, s) && s !in VouchersOf(r, d) && s in VouchersOf(r', d)
    ensures Missing(b, k, r') < Missing(b, k, r)
  {
    assert Entry(d, s) in Missing(b, k, r) && Entry(d, s) !in Missing(b, k, r');
  }

  lemma FittingRunSettles(b: BookState, k: Batch, tr: seq<Entry>) returns (done: seq<Entry>)
    requires Start(b, k) && InClamp(b, k) && forall d :: Fits(b, k, d)
    requires MergeTrace(b, k, tr) && AllOnCourse(b, k, AcceptAll(b, k.now, tr))
    ensures SettledAfter(b, k, done)
    decreases Missing(b, k, AcceptAll(b, k.now, tr))
  {
    var r := AcceptAll(b, k.now, tr);
    if Settled(r, k) {
      done := tr;
    } else {
      var e :| Offered(k, e) && Eligible(r, k, e);
      RunBrings(b, k, tr);
      var s := NextFinal(b, k, r, e);
      TrustedIsTrustable(b, k, r, s.signer);
      ExtendTrace(b, k, tr, Entry(e.eid, s));
      CourseStep(b, k, r, e.eid, s);
      done := FittingRunSettles(b, k, tr + [Entry(e.eid, s)]);
    }
  }

  lemma FittingSettles(b: BookState, k: Batch) returns (done: seq<Entry>)
    requires Start(b, k) && InClamp(b, k) && forall d :: Fits(b, k, d)
    ensures SettledAfter(b, k, done)
  {
    forall d ensures OnCourse(b, k, d, VouchersOf(b, d)) {
      assert Listed(VouchersOf(b, d));
      OldKeepsOrder(VouchersOf(b, d));
    }
    done := FittingRunSettles(b, k, []);
  }

  // ---------- the theorem ----------

  /**
    Where the signers that count stay trusted, the loop can stop exactly when no stamp that
    counts is dated past the clamp and each list has places for the newest voucher of every
    such signer and for the old vouchers that stand before one of those.
   */
  lemma StopsExactlyWhenAllFit(b: BookState, k: Batch)
    requires Start(b, k) && AllSteady(b, k)
    ensures (exists tr :: SettledAfter(b, k, tr)) <==> InClamp(b, k) && forall d :: Fits(b, k, d)
  {
    if tr :| SettledAfter(b, k, tr) {
      SettledIsInClamp(b, k, tr);
      forall d ensures Fits(b, k, d) {
        SettledFits(b, k, tr, d);
      }
    }
    if InClamp(b, k) && forall d :: Fits(b, k, d) {
      var done := FittingSettles(b, k);
    }
  }

  /** With room in every list all of them fit and all signers that count stay trusted. */
  lemma RoomFits(b: BookState, k: Batch)
    requires Start(b, k) && Room(b, k)
    ensures AllSteady(b, k) && forall d :: Fits(b, k, d)
  {
    forall s: iset<Device> | ClosedInRoom(b, k, s) ensures ClosedUnderVouching(b, k, s) {
      RoomyIsClosed(b, k, s);
    }
    forall d ensures Fits(b, k, d) {
      assert Holders(b, k, d) <= Signers(VouchersOf(b, d));
      SubsetCardinality(RelevantSigners(b, k, d) + Holders(b, k, d),
                        Signers(VouchersOf(b, d)) + RelevantSigners(b, k, d));
    }
  }

  lemma RoomyIsClosed(b: BookState, k: Batch, s: iset<Device>)
    requires Start(b, k) && Room(b, k) && ClosedInRoom(b, k, s)
    ensures ClosedUnderVouching(b, k, s)
  {
    forall x, d | x in s && Vouches(b, k, x, d) && StaysIn(b, k, d, s) ensures d in s {
      assert Roomy(b, k, d);
    }
    forall x | Trusted(b, k, x) ensures x in s {
      TrustedIsInside(b, k, s, x);
    }
  }

  lemma TrustedIsInside(b: BookState, k: Batch, s: iset<Device>, who: Device)
    requires Ready(b, k) && Trusted(b, k, who) && k.me in s
    requires forall x, d :: x in s && Vouches(b, k, x, d) && StaysIn(b, k, d, s) ==> d in s
    ensures who in s
  {
    if who != k.me {
      forall x, y | x in s && SignedBy(VouchersOf(b, y), x) && !IsRemoved(b, y) ensures y in s {
        assert Vouches(b, k, x, y) && StaysIn(b, k, y, s);
      }
      ReachableIsLeast(b, who, s);
    }
  }
}
