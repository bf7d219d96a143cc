/** Books some run reaches, on which merging vouchers goes wrong. */
module MergeExamples {
  import opened Common
  import opened Sorting
  import opened Vouchers
  import opened Ledger
  import opened MergeProofs
  import opened MergeLimits
  import opened MergeCrowding
  import opened MergeLosses
  import opened BookOps
  import opened BookRuns

  ghost predicate Reached(b: BookState, self: Device) {
    exists states, ops :: BookRun(states, ops, self) && states[|ops|] == b
  }

  lemma EmptyIsReached(self: Device)
    ensures Reached(EMPTY_BOOK, self)
  {
    assert BookRun([EMPTY_BOOK], [], self);
  }

  lemma OneStepOn(b: BookState, op: BookRuns.Op, self: Device)
    requires Reached(b, self) && Enabled(b, op, self)
    ensures Reached(Step(b, op, self), self)
  {
    var states, ops :| BookRun(states, ops, self) && states[|ops|] == b;
    assert StepTo(b, op, self, Step(b, op, self));
    RunGrows(states, ops, op, self, Step(b, op, self));
  }

  lemma RunGrows(states: seq<BookState>, ops: seq<BookRuns.Op>, op: BookRuns.Op, self: Device, r: BookState)
    requires BookRun(states, ops, self) && StepTo(states[|ops|], op, self, r)
    ensures BookRun(states + [r], ops + [op], self) && (states + [r])[|ops + [op]|] == r
  {
    var longer, more := states + [r], ops + [op];
    forall i | 0 <= i < |more| ensures StepTo(longer[i], more[i], self, longer[i + 1]) {
      if i < |ops| { assert longer[i] == states[i] && longer[i + 1] == states[i + 1] && more[i] == ops[i]; }
    }
  }

  // ---------- a stamp past the clamp ----------

  /** A book just begun. */
  function NewBook(): BookState {
    EMPTY_BOOK.(me := "m", proofsV := 1)
  }

  lemma NewIsReached()
    ensures Reached(NewBook(), "m")
  {
    EmptyIsReached("m");
    OneStepOn(EMPTY_BOOK, Ensure("a", {}), "m");
    assert Upgrade(EMPTY_BOOK, "m", {}) == NewBook() by {
      assert Upgrade(EMPTY_BOOK, "m", {}).linked == map[];
    }
    assert Due(NewBook(), "m") == {};
    assert EnsureProofs(EMPTY_BOOK, "a", "m", {}) == NewBook();
  }

  /** A book just begun, and a stamp this very device made one millisecond past the clamp. */
  lemma OutOfClampExample()
    ensures
      var k := Batch("a", "m", 0, map["d" := [SignStamp("m", "a", "d", SKEW_MS + 1)]]);
      Reached(NewBook(), "m") && !exists tr :: SettledAfter(NewBook(), k, tr)
  {
    var b, s := NewBook(), SignStamp("m", "a", "d", SKEW_MS + 1);
    var k := Batch("a", "m", 0, map["d" := [s]]);
    NewIsReached();
    assert "m" != "d";
    NeverInClamp(b, k, "d", s);
  }

  /** The only stamp offered is this device's own, past the clamp. */
  lemma NeverInClamp(b: BookState, k: Batch, d: Device, s: Stamp)
    requires b.me != "" && b.proofsV != 0 && k.me == b.me && b.linkProofs == map[] && b.removedDevices == map[]
    requires k.proofs == map[d := [s]] && s.signer == k.me && StampValid(k.account, d, s) && s.at > ClampBound(k.now)
    ensures !exists tr :: SettledAfter(b, k, tr)
  {
    OwnIsRelevant(b, k, d, s);
    forall x ensures |Signers(VouchersOf(b, x)) + RelevantSigners(b, k, x)| <= MAX_VOUCHERS {
      SubsetCardinality(Signers(VouchersOf(b, x)) + RelevantSigners(b, k, x), {k.me});
    }
    StopsExactlyWhenInClamp(b, k);
  }

  lemma OwnIsRelevant(b: BookState, k: Batch, d: Device, s: Stamp)
    requires k.proofs == map[d := [s]] && s.signer == k.me && StampValid(k.account, d, s)
    ensures Relevant(b, k, Entry(d, s))
  {
    assert Trusted(b, k, k.me);
    assert s in Taken(k.proofs[d]);
  }

  // ---------- a list that overflows ----------

  /** One of the other devices: their names have different lengths. */
  function Other(i: nat): (r: Device)
    ensures |r| == i + 2
  {
    seq(i + 2, j => 'x')
  }

  /** `d` was linked here at 1 and is vouched for by this device alone. */
  function LinkedBook(): BookState {
    EMPTY_BOOK.(me := "m", proofsV := 1,
                linked := map["d" := 1], linkProofs := map["d" := [SignStamp("m", "a", "d", 1)]])
  }

  lemma FirstVoucher(s: Stamp)
    ensures AddTo([], s) == [s]
  {
    assert [] + [s] == [s] && [s][..0] == [];
    assert SortBy([s], Newer) == Place(SortBy([], Newer), s, Newer);
  }

  lemma LinkedIsReached()
    ensures Reached(LinkedBook(), "m")
  {
    EmptyIsReached("m");
    OneStepOn(EMPTY_BOOK, Link("d", 1), "m");
    var b := MarkLinked(EMPTY_BOOK, "d", 1);
    assert b == EMPTY_BOOK.(linked := map["d" := 1]);
    OneStepOn(b, Ensure("a", {}), "m");
    FirstEnsure(b);
  }

  lemma FirstDue(u: BookState)
    requires u == EMPTY_BOOK.(linked := map["d" := 1], me := "m", proofsV := 1)
    ensures DueVouchers(u, "a", "m") == map["d" := [SignStamp("m", "a", "d", 1)]]
  {
    assert NeedsVoucher(u, "m", "d") by {
      assert "d" != "m";
      assert VouchersOf(u, "d") == [];
    }
    assert Due(u, "m") == {"d"};
    FirstVoucher(SignStamp("m", "a", "d", 1));
  }

  lemma FirstEnsure(b: BookState)
    requires b == EMPTY_BOOK.(linked := map["d" := 1])
    ensures EnsureProofs(b, "a", "m", {}) == LinkedBook()
  {
    var u := EMPTY_BOOK.(linked := map["d" := 1], me := "m", proofsV := 1);
    assert Upgrade(b, "m", {}) == u by {
      assert Upgrade(b, "m", {}).linked == b.linked;
    }
    FirstDue(u);
    assert u.linkProofs + map["d" := [SignStamp("m", "a", "d", 1)]] == LinkedBook().linkProofs;
  }

  lemma TakeOn(b: BookState, k: Batch, e: Entry, self: Device)
    requires Reached(b, self) && k.me == self && b.proofsV != 0 && Eligible(b, k, e)
    ensures Reached(Accept(b, k.now, e), self)
  {
    OneStepOn(b, BookRuns.TakeVoucher(k, e), self);
  }

  /** `d` vouches for the others, one after another. */
  function Admits(i: nat): Entry {
    Entry(Other(i), SignStamp("d", "a", Other(i), 2))
  }

  /** The others vouch for `d`, one after another. */
  function Returns(i: nat): Entry {
    Entry("d", SignStamp(Other(i), "a", "d", 3))
  }

  /** What `d` offers: the others, and what they say of it. */
  function OthersBatch(): Batch {
    var others := set i | 0 <= i < 8 :: Other(i);
    Batch("a", "m", 10,
          (map x | x in others :: [SignStamp("d", "a", x, 2)]) + map["d" := ReturnedStamps(8)])
  }

  lemma OthersOffered(i: nat)
    requires i < 8
    ensures Offered(OthersBatch(), Admits(i)) && Offered(OthersBatch(), Returns(i))
  {
    var v := OthersBatch().proofs["d"];
    assert Taken(v) == v && v[i] == Returns(i).stamp;
    assert Other(i) in (set j | 0 <= j < 8 :: Other(j)) && |Other(i)| != |"d"|;
    assert Taken([Admits(i).stamp]) == [Admits(i).stamp];
  }

  /** What a merge of that batch may accept, one after another. */
  function Story(n: nat): (r: seq<Entry>)
    ensures |r| == n
  {
    seq(n, (i: nat) => if i < 8 then Admits(i) else Returns(i - 8))
  }

  function BookAfter(n: nat): BookState {
    AcceptAll(LinkedBook(), 10, Story(n))
  }

  lemma StoryGoesOn(n: nat)
    requires n > 0
    ensures Story(n)[..n - 1] == Story(n - 1)
    ensures BookAfter(n) == Accept(BookAfter(n - 1), 10, if n <= 8 then Admits(n - 1) else Returns(n - 9))
  {
  }

  /** In use here, with nobody removed, and vouchers by `d` alone for `n` others. */
  ghost predicate OthersBehind(b: BookState, n: nat) {
    && b.me == "m" && b.proofsV == 1 && b.removedDevices == map[]
    && (forall y :: y in b.linked ==> VouchersOf(b, y) != [])
    && (forall i :: 0 <= i < n ==> VouchersOf(b, Other(i)) == [Admits(i).stamp])
    && (forall y :: y != "d" && (forall i :: 0 <= i < n ==> y != Other(i)) ==> VouchersOf(b, y) == [])
  }

  lemma BehindAreMembers(b: BookState, n: nat)
    requires OthersBehind(b, n) && SignedBy(VouchersOf(b, "d"), "m")
    ensures IsMember(b, "d") && forall i :: 0 <= i < n ==> IsMember(b, Other(i))
  {
    RootReachable(b);
    ReachableStep(b, "m", "d");
    forall i | 0 <= i < n ensures IsMember(b, Other(i)) {
      assert Admits(i).stamp in VouchersOf(b, Other(i));
      ReachableStep(b, "d", Other(i));
    }
  }

  /** Reached, with `d` vouched for by `list`. */
  ghost predicate StandsAt(b: BookState, n: nat, list: seq<Stamp>) {
    Reached(b, "m") && OthersBehind(b, n) && VouchersOf(b, "d") == list
  }

  /** A batch for this account that reaches this device at 10. */
  predicate ArrivesHere(k: Batch) {
    k.account == "a" && k.me == "m" && k.now == 10
  }

  lemma AdmitIsEligible(b: BookState, k: Batch, n: nat)
    requires n < 8 && OthersBehind(b, n) && VouchersOf(b, "d") == [SignStamp("m", "a", "d", 1)] && ArrivesHere(k)
    ensures Eligible(b, k, Admits(n)) && VouchersOf(b, Other(n)) == []
  {
    assert SignStamp("m", "a", "d", 1) in VouchersOf(b, "d");
    BehindAreMembers(b, n);
    assert |Other(n)| != |"d"|;
    forall i: nat | i < n ensures Other(i) != Other(n) {
      assert |Other(i)| == i + 2 && |Other(n)| == n + 2;
    }
  }

  lemma AdmitStep(b: BookState, k: Batch, n: nat)
    requires n < 8 && StandsAt(b, n, [SignStamp("m", "a", "d", 1)]) && ArrivesHere(k)
    ensures StandsAt(Accept(b, 10, Admits(n)), n + 1, [SignStamp("m", "a", "d", 1)])
  {
    AdmitIsEligible(b, k, n);
    TakeOn(b, k, Admits(n), "m");
    FirstVoucher(Admits(n).stamp);
    assert Stored(10, Admits(n).stamp) == Admits(n).stamp;
    AcceptLists(b, 10, Admits(n));
    OneMoreBehind(b, Accept(b, 10, Admits(n)), n);
  }

  lemma OneMoreBehind(b: BookState, r: BookState, n: nat)
    requires OthersBehind(b, n) && VouchersOf(r, Other(n)) == [Admits(n).stamp]
    requires r.me == b.me && r.proofsV == b.proofsV && r.removedDevices == b.removedDevices
    requires r.linked.Keys == b.linked.Keys + {Other(n)}
    requires forall y :: y != Other(n) ==> VouchersOf(r, y) == VouchersOf(b, y)
    ensures OthersBehind(r, n + 1) && VouchersOf(r, "d") == VouchersOf(b, "d")
  {
    assert |Other(n)| == n + 2;
    forall i: nat | i < n ensures Other(i) != Other(n) {
      assert |Other(i)| == i + 2;
    }
  }

  function ReturnedStamps(n: nat): seq<Stamp> {
    seq(n, (i: nat) => Returns(i).stamp)
  }

  lemma ReturnedMore(n: nat)
    ensures ReturnedStamps(n) + [Returns(n).stamp] == ReturnedStamps(n + 1)
  {
    var xs, ys := ReturnedStamps(n), ReturnedStamps(n + 1);
    forall i: nat | i < n ensures xs[i] == ys[i] {
    }
    assert ys == ys[..n] + [ys[n]] && ys[..n] == xs;
  }

  lemma NotReturnedYet(n: nat)
    ensures forall c :: c in ReturnedStamps(n) + [SignStamp("m", "a", "d", 1)] ==> c.signer != Other(n)
  {
    forall c | c in ReturnedStamps(n) + [SignStamp("m", "a", "d", 1)] ensures c.signer != Other(n) {
      assert |Other(n)| == n + 2;
      if i: nat :| i < n && ReturnedStamps(n)[i] == c { assert |Other(i)| == i + 2; }
    }
  }

  lemma ReturnedAt(n: nat)
    ensures forall c :: c in ReturnedStamps(n) ==> c.at == 3
  {
  }

  /** Newer vouchers go before the one this device made. */
  lemma PlacedBeforeMine(xs: seq<Stamp>, mine: Stamp, s: Stamp)
    requires (forall c :: c in xs ==> c.at == 3) && mine.at < s.at == 3
    ensures Place(xs + [mine], s, Newer) == xs + [s] + [mine] && NewestFirst(xs + [mine])
  {
    assert (xs + [mine])[..|xs|] == xs;
    assert Place(xs, s, Newer) == xs + [s] by {
      if xs != [] { assert xs[|xs| - 1] in xs; }
    }
  }

  lemma ReturnedList(n: nat)
    requires n <= 7
    ensures AddTo(ReturnedStamps(n) + [SignStamp("m", "a", "d", 1)], Returns(n).stamp) ==
              if n < 7 then ReturnedStamps(n + 1) + [SignStamp("m", "a", "d", 1)] else ReturnedStamps(8)
  {
    var xs, mine, s := ReturnedStamps(n), SignStamp("m", "a", "d", 1), Returns(n).stamp;
    var v := xs + [mine];
    NotReturnedYet(n);
    ReturnedAt(n);
    WithoutStranger(v, s.signer);
    PlacedBeforeMine(xs, mine, s);
    SortedStays(v);
    assert (v + [s])[..|v|] == v;
    ReturnedMore(n);
    assert TakenIn(v, s) == ReturnedStamps(n + 1) + [mine];
    assert (ReturnedStamps(n + 1) + [mine])[..n + 1] == ReturnedStamps(n + 1);
  }

  function ListAfter(n: nat): seq<Stamp> {
    if n < 8 then ReturnedStamps(n) + [SignStamp("m", "a", "d", 1)] else ReturnedStamps(8)
  }

  lemma ReturnIsEligible(b: BookState, k: Batch, n: nat)
    requires n < 8 && OthersBehind(b, 8) && VouchersOf(b, "d") == ListAfter(n) && ArrivesHere(k)
    ensures IsMember(b, "d") && Eligible(b, k, Returns(n))
  {
    var v := VouchersOf(b, "d");
    assert v[n] == SignStamp("m", "a", "d", 1) && v[n] in v;
    BehindAreMembers(b, 8);
    assert |Other(n)| != |"d"|;
    forall i: nat | i <= n ensures v[i].signer != Other(n) {
      assert |Other(n)| == n + 2;
      if i < n { assert v[i] == Returns(i).stamp && |Other(i)| == i + 2; }
    }
  }

  lemma ReturnLeaves(b: BookState, n: nat)
    requires n < 8 && OthersBehind(b, 8) && VouchersOf(b, "d") == ListAfter(n)
    ensures OthersBehind(Accept(b, 10, Returns(n)), 8) && VouchersOf(Accept(b, 10, Returns(n)), "d") == ListAfter(n + 1)
  {
    ReturnedList(n);
    assert Stored(10, Returns(n).stamp) == Returns(n).stamp;
    var list := ListAfter(n + 1);
    assert AddTo(VouchersOf(b, "d"), Returns(n).stamp) == list && list != [];
    AcceptLists(b, 10, Returns(n));
    StillBehind(b, Accept(b, 10, Returns(n)));
  }

  lemma StillBehind(b: BookState, r: BookState)
    requires OthersBehind(b, 8) && VouchersOf(r, "d") != []
    requires r.me == b.me && r.proofsV == b.proofsV && r.removedDevices == b.removedDevices
    requires r.linked.Keys == b.linked.Keys + {"d"} && forall y :: y != "d" ==> VouchersOf(r, y) == VouchersOf(b, y)
    ensures OthersBehind(r, 8)
  {
    forall i: nat | i < 8 ensures Other(i) != "d" {
      assert |Other(i)| == i + 2;
    }
  }

  lemma ReturnStep(b: BookState, k: Batch, n: nat)
    requires n < 8 && StandsAt(b, 8, ListAfter(n)) && ArrivesHere(k)
    ensures StandsAt(Accept(b, 10, Returns(n)), 8, ListAfter(n + 1))
  {
    ReturnIsEligible(b, k, n);
    TakeOn(b, k, Returns(n), "m");
    ReturnLeaves(b, n);
  }

  ghost predicate ToldSoFar(k: Batch, n: nat) {
    MergeTrace(LinkedBook(), k, Story(n)) && StandsAt(BookAfter(n), Least(n, 8), ListAfter(if n < 8 then 0 else n - 8))
  }

  function Least(m: nat, n: nat): nat {
    if m < n then m else n
  }

  lemma FirstList()
    ensures ListAfter(0) == [SignStamp("m", "a", "d", 1)]
  {
  }

  lemma LinkedStands(k: Batch)
    ensures ToldSoFar(k, 0)
  {
    LinkedIsReached();
    FirstList();
  }

  lemma StoryStep(k: Batch, n: nat)
    requires 0 < n <= 16 && k == OthersBatch() && ToldSoFar(k, n - 1)
    ensures ToldSoFar(k, n)
  {
    var b := BookAfter(n - 1);
    StoryGoesOn(n);
    FirstList();
    if n <= 8 {
      OthersOffered(n - 1);
      AdmitIsEligible(b, k, n - 1);
      AdmitStep(b, k, n - 1);
      StoryTraced(k, n, Admits(n - 1));
    } else {
      OthersOffered(n - 9);
      ReturnIsEligible(b, k, n - 9);
      ReturnStep(b, k, n - 9);
      StoryTraced(k, n, Returns(n - 9));
    }
  }

  lemma StoryTraced(k: Batch, n: nat, e: Entry)
    requires n > 0 && k.now == 10 && MergeTrace(LinkedBook(), k, Story(n - 1)) && Story(n)[n - 1] == e
    requires Offered(k, e) && Eligible(BookAfter(n - 1), k, e)
    ensures MergeTrace(LinkedBook(), k, Story(n))
  {
    StoryGoesOn(n);
  }

  lemma {:induction false} StoryIsTold(k: Batch, n: nat)
    requires n <= 16 && k == OthersBatch()
    ensures ToldSoFar(k, n)
  {
    if n == 0 {
      LinkedStands(k);
    } else {
      StoryIsTold(k, n - 1);
      StoryStep(k, n);
    }
  }

  lemma ReturnedSigners(c: Stamp)
    requires c in ReturnedStamps(8)
    ensures |c.signer| >= 2 && c.at == 3
  {
    var i: nat :| i < 8 && ReturnedStamps(8)[i] == c;
    assert c == Returns(i).stamp && |Other(i)| == i + 2;
  }

  lemma NoneByThisDevice(b: BookState, y: Device)
    requires OthersBehind(b, 8) && VouchersOf(b, "d") == ReturnedStamps(8)
    ensures !SignedBy(VouchersOf(b, y), "m")
  {
    forall c | c in VouchersOf(b, y) ensures c.signer != "m" {
      if y == "d" {
        ReturnedSigners(c);
      } else if i: nat :| i < 8 && y == Other(i) {
        assert VouchersOf(b, Other(i)) == [Admits(i).stamp] && c == Admits(i).stamp;
      }
    }
  }

  lemma OfferedByOthers(k: Batch, f: Entry) returns (i: nat)
    requires k == OthersBatch() && Offered(k, f)
    ensures i < 8 && (f == Admits(i) || f == Returns(i))
  {
    var v := k.proofs[f.eid];
    if f.eid == "d" {
      i :| i < 8 && ReturnedStamps(8)[i] == f.stamp;
    } else {
      i :| i < 8 && f.eid == Other(i);
      assert f.stamp in [SignStamp("d", "a", f.eid, 2)];
    }
  }

  lemma StoryEnds(b: BookState, k: Batch)
    requires k == OthersBatch() && OthersBehind(b, 8) && VouchersOf(b, "d") == ReturnedStamps(8)
    ensures Settled(b, k)
  {
    forall f | Offered(k, f) ensures Covered(b, f) {
      var i := OfferedByOthers(k, f);
      if f == Admits(i) {
        assert f.stamp in VouchersOf(b, Other(i));
      } else {
        assert ReturnedStamps(8)[i] == f.stamp;
        assert f.stamp in VouchersOf(b, "d");
      }
    }
  }

  /**
    This device linked `d` at 1, and one batch brings eight others `d` vouches for and their
    vouchers for it. A whole merge of it, to where it stops, has pushed this device's own
    voucher out: with it goes `d`, nobody else is in, and vouching here brings nobody back.
   */
  lemma LosesMembersExample()
    ensures
      var b, k, r := LinkedBook(), OthersBatch(), BookAfter(16);
      && Reached(b, "m") && IsMember(b, "d") && SettledAfter(b, k, Story(16)) && r == AcceptAll(b, k.now, Story(16))
      && EnsureProofs(r, "a", "m", {}) == r && forall y :: y != "m" ==> !IsMember(r, y)
  {
    var k, r := OthersBatch(), BookAfter(16);
    LinkedStands(k);
    assert SignStamp("m", "a", "d", 1) in VouchersOf(LinkedBook(), "d");
    BehindAreMembers(LinkedBook(), 0);
    StoryIsTold(k, 16);
    StoryEnds(r, k);
    forall y | y != "m" ensures !IsMember(r, y) {
      forall z { NoneByThisDevice(r, z); }
      NobodyBehind(r, y);
    }
    NothingDue(r);
  }

  lemma NothingDue(b: BookState)
    requires OthersBehind(b, 8) && VouchersOf(b, "d") == ReturnedStamps(8)
    ensures EnsureProofs(b, "a", "m", {}) == b
  {
    forall y | y in b.linked ensures !NeedsVoucher(b, "m", y) {
      NoneByThisDevice(b, y);
    }
    assert Due(b, "m") == {};
  }

  /**
    In the book this leaves, which vouching does not change, the voucher this device made for
    `d` comes back from another device, and the merge never stops.
   */
  lemma CrowdedExample()
    ensures
      var b, d := BookAfter(16), "d";
      var k := Batch("a", "m", 10, map[d := [SignStamp("m", "a", d, 1)]]);
      Reached(b, "m") && EnsureProofs(b, "a", "m", {}) == b && !exists tr :: SettledAfter(b, k, tr)
  {
    var b, e := BookAfter(16), Entry("d", SignStamp("m", "a", "d", 1));
    var k := Batch("a", "m", 10, map["d" := [e.stamp]]);
    StoryIsTold(OthersBatch(), 16);
    ReturnsForever(b, k, e);
  }

  lemma ReturnsForever(b: BookState, k: Batch, e: Entry)
    requires OthersBehind(b, 8) && VouchersOf(b, "d") == ReturnedStamps(8)
    requires e == Entry("d", SignStamp("m", "a", "d", 1)) && k == Batch("a", "m", 10, map["d" := [e.stamp]])
    ensures EnsureProofs(b, "a", "m", {}) == b && !exists tr :: SettledAfter(b, k, tr)
  {
    NothingDue(b);
    ReturnedIsFull(e.stamp);
    assert "m" != "d";
    OwnNeverFits(b, k, e);
  }

  /** The only stamp offered is this device's own, and it meets a full list of newer ones. */
  lemma OwnNeverFits(b: BookState, k: Batch, e: Entry)
    requires OffersOnly(k, e) && e.stamp.signer == k.me && StampValid(k.account, e.eid, e.stamp)
    requires e.stamp.at <= ClampBound(k.now)
    requires OnePerSigner(VouchersOf(b, e.eid)) && Crowded(VouchersOf(b, e.eid), e.stamp)
    ensures !exists tr :: SettledAfter(b, k, tr)
  {
    StopsExactlyWhenUncrowded(b, k, e);
  }

  lemma ReturnedIsFull(s: Stamp)
    requires s.signer == "m" && s.at <= 3
    ensures OnePerSigner(ReturnedStamps(8)) && Crowded(ReturnedStamps(8), s)
  {
    var v := ReturnedStamps(8);
    forall i: nat, j: nat | i < j < 8 ensures v[i].signer != v[j].signer {
      assert |Other(i)| == i + 2 && |Other(j)| == j + 2;
    }
    forall c | c in v ensures c.signer != "m" && c.at == 3 {
      ReturnedSigners(c);
    }
  }
}
