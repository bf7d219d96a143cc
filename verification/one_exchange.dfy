/** The exchange theorem: the same newest messages on both devices, each shown the same. */
module OneExchange {
  import opened Common
  import opened Messages
  import opened Convergence
  import opened Threads
  import opened Slotting
  import opened Exchange
  import opened Window
  import opened Fingerprints

  // ---------- selecting and digesting ----------

  function Stripped(m: Message): Message {
    m.(path := None)
  }

  lemma {:induction false} SelectElements(t: Thread, keys: set<SyncKey>, m: Message)
    ensures m in Select(t, keys) <==> exists x :: x in t && KeyOf(x) in keys && m == Stripped(x)
  {
    if t != [] {
      assert t == [t[0]] + t[1..];
      SelectElements(t[1..], keys, m);
    }
  }

  lemma {:induction false} SelectShape(t: Thread, keys: set<SyncKey>)
    requires UniqueKeys(t)
    ensures UniqueKeys(Select(t, keys)) && |Select(t, keys)| <= |keys|
    decreases |t|
  {
    if t != [] {
      var rest := Select(t[1..], keys);
      var k := KeyOf(t[0]);
      forall i | 0 <= i < |rest| ensures KeyOf(rest[i]) != k {
        SelectElements(t[1..], keys, rest[i]);
      }
      SelectShape(t[1..], keys);
      if k in keys {
        SelectWithout(t[1..], keys, k);
        SelectShape(t[1..], keys - {k});
      }
    }
  }

  lemma {:induction false} SelectWithout(t: Thread, keys: set<SyncKey>, k: SyncKey)
    requires forall x :: x in t ==> KeyOf(x) != k
    ensures Select(t, keys) == Select(t, keys - {k})
  {
    if t != [] {
      assert t == [t[0]] + t[1..];
      SelectWithout(t[1..], keys, k);
    }
  }

  lemma {:induction false} ReverseElements(s: seq<Message>)
    ensures forall m :: m in Reverse(s) <==> m in s
    ensures UniqueKeys(s) ==> UniqueKeys(Reverse(s))
  {
    if s != [] {
      assert s == [s[0]] + s[1..];
      ReverseElements(s[1..]);
      var r := Reverse(s[1..]);
      if UniqueKeys(s) {
        forall i | 0 <= i < |r| ensures KeyOf(r[i]) != KeyOf(s[0]) {
          assert r[i] in s[1..];
        }
      }
    }
  }

  lemma {:induction false} FirstsSize(d: Digest, s: set<SyncKey>)
    requires forall k :: k in s ==> exists e :: e in d && e.0 == k
    ensures |s| <= |d|
  {
    if d == [] {
      assert s == {};
    } else {
      assert d == [d[0]] + d[1..];
      FirstsSize(d[1..], s - {d[0].0});
      SubsetCardinality(s, (s - {d[0].0}) + {d[0].0});
    }
  }

  lemma DigestEntry(t: Thread, x: Message)
    requires x in Newest(t, SYNC_WINDOW)
    ensures (KeyOf(x), PrintOf(x)) in DigestOf(t)
  {
    var w := Newest(t, SYNC_WINDOW);
    var i :| 0 <= i < |w| && w[i] == x;
    assert DigestOf(t)[i] == (KeyOf(x), PrintOf(x));
  }

  lemma EntryOf(t: Thread, e: (SyncKey, Print)) returns (x: Message)
    requires e in DigestOf(t)
    ensures x in t && x in Newest(t, SYNC_WINDOW) && e == (KeyOf(x), PrintOf(x))
  {
    var i :| 0 <= i < |DigestOf(t)| && DigestOf(t)[i] == e;
    x := Newest(t, SYNC_WINDOW)[i];
  }

  lemma DifferingSize(mine: Digest, theirs: Digest)
    requires |mine| <= SYNC_WINDOW
    ensures |Differing(mine, theirs)| <= SYNC_WINDOW
  {
    FirstsSize(mine, Differing(mine, theirs));
  }

  /** What one side puts on the wire. */
  function Batch(t: Thread, keys: set<SyncKey>): seq<Message> {
    Reverse(Select(t, keys))
  }

  lemma BatchElements(t: Thread, keys: set<SyncKey>, m: Message)
    ensures m in Batch(t, keys) <==> exists x :: x in t && KeyOf(x) in keys && m == Stripped(x)
  {
    SelectElements(t, keys, m);
    ReverseElements(Select(t, keys));
  }

  lemma StrippedIsSame(x: Message)
    ensures KeyOf(Stripped(x)) == KeyOf(x) && Stripped(x).ts == x.ts && VersionOf(Stripped(x)) == VersionOf(x)
    ensures CurrentBuild(x) ==> CurrentBuild(Stripped(x))
  {
  }

  lemma BatchIsReady(t: Thread, source: Thread, keys: set<SyncKey>, times: Timetable, u: set<U64>)
    requires ValidThread(t) && InTime(t) && Timed(t, times) && AllCurrent(t) && Distinct(times) && Times(t) <= u
    requires UniqueKeys(source) && Timed(source, times) && AllCurrent(source) && Times(source) <= u
    requires |keys| <= SYNC_WINDOW
    ensures Window.Ready(t, Batch(source, keys), times, u)
  {
    SelectShape(source, keys);
    ReverseElements(Select(source, keys));
    forall m | m in Batch(source, keys)
      ensures KeyOf(m) in times && times[KeyOf(m)] == m.ts && m.ts in u && CurrentBuild(m)
    {
      BatchElements(source, keys, m);
      var x :| x in source && m == Stripped(x);
      StrippedIsSame(x);
      assert x.ts in Times(source);
    }
  }

  lemma InBatch(t: Thread, keys: set<SyncKey>, x: Message)
    requires x in t && KeyOf(x) in keys
    ensures Stripped(x) in Batch(t, keys)
  {
    BatchElements(t, keys, Stripped(x));
  }

  // ---------- two devices ----------

  /** Two valid threads in time order, made by current builds, with one timetable. */
  ghost predicate Pair(a: Thread, b: Thread, times: Timetable) {
    && ValidThread(a) && ValidThread(b) && InTime(a) && InTime(b)
    && Timed(a, times) && Timed(b, times) && Distinct(times)
    && AllCurrent(a) && AllCurrent(b)
    && (forall x, y :: x in a && y in b && KeyOf(x) == KeyOf(y) ==> Agree(ViewOf(x), ViewOf(y)))
  }

  ghost function AllTimes(a: Thread, b: Thread): set<U64> {
    Times(a) + Times(b)
  }

  lemma PairIsMutual(a: Thread, b: Thread, times: Timetable)
    requires Pair(a, b, times)
    ensures Pair(b, a, times) && AllTimes(b, a) == AllTimes(a, b)
  {
  }

  lemma RecentInWindow(t: Thread, x: Message, times: Timetable, u: set<U64>)
    requires ValidThread(t) && InTime(t) && Timed(t, times) && Distinct(times) && Times(t) <= u
    requires x in t && Recent(u, x.ts)
    ensures x in Newest(t, SYNC_WINDOW)
  {
    TimedIsStrict(t, times);
    AboveSubset(Times(t), u, x.ts);
    InNewest(t, x, SYNC_WINDOW);
  }

  lemma UniqueMessage(t: Thread, x: Message, y: Message)
    requires UniqueKeys(t) && x in t && y in t && KeyOf(x) == KeyOf(y)
    ensures x == y
  {
  }

  /** A recent message of `a` is named as differing exactly when `b`'s digest lacks its fingerprint. */
  lemma DiffersExactly(a: Thread, b: Thread, x: Message, times: Timetable, u: set<U64>)
    requires ValidThread(a) && InTime(a) && Timed(a, times) && Distinct(times) && Times(a) <= u
    requires x in a && Recent(u, x.ts)
    ensures KeyOf(x) in Differing(DigestOf(a), DigestOf(b)) <==> (KeyOf(x), PrintOf(x)) !in DigestOf(b)
  {
    RecentInWindow(a, x, times, u);
    DigestEntry(a, x);
    if KeyOf(x) in Differing(DigestOf(a), DigestOf(b)) {
      var e :| e in DigestOf(a) && e !in DigestOf(b) && e.0 == KeyOf(x);
      var y := EntryOf(a, e);
      UniqueMessage(a, x, y);
    }
  }

  lemma NotDiffering(a: Thread, b: Thread, k: SyncKey)
    requires !Holds(a, k)
    ensures k !in Differing(DigestOf(a), DigestOf(b))
    ensures forall p: Print :: (k, p) !in DigestOf(a)
  {
    forall p: Print | (k, p) in DigestOf(a) ensures false {
      var x := EntryOf(a, (k, p));
    }
    assert forall e :: e in DigestOf(a) ==> e == (e.0, e.1);
  }

  lemma {:induction false} MergeAllCurrent(t: Thread, batch: seq<Message>)
    requires AllCurrent(t) && AllCurrent(batch)
    ensures AllCurrent(MergeAll(t, batch))
  {
    if batch != [] {
      var init, last := batch[..|batch| - 1], batch[|batch| - 1];
      assert last in batch;
      assert forall x :: x in init ==> x in batch;
      MergeAllCurrent(t, init);
      MergeOneCurrent(MergeAll(t, init), last);
    }
  }

  lemma MergeOneCurrent(t: Thread, m: Message)
    requires AllCurrent(t) && CurrentBuild(m)
    ensures AllCurrent(MergeOne(t, m))
  {
    IncomingIsSame(m);
    var f := FindKey(t, KeyOf(m));
    if f.Some? {
      assert t[f.value] in t;
      MergedCopyCurrent(t[f.value], m);
    }
  }

  lemma MergedCopyCurrent(x: Message, m: Message)
    requires CurrentBuild(x) && CurrentBuild(m)
    ensures CurrentBuild(MergeCopy(x, Incoming(m)))
  {
    IncomingIsSame(m);
    MergeStaysCurrent(x, Incoming(m));
    StatusIsNoView(MergeFields(x, Incoming(m)), Incoming(m).status);
  }

  lemma MergedIsGood(t: Thread, batch: seq<Message>, times: Timetable, u: set<U64>)
    requires Window.Ready(t, batch, times, u)
    ensures var r := MergeSynced(t, batch);
            ValidThread(r) && InTime(r) && Timed(r, times) && AllCurrent(r) && Times(r) <= u
  {
    SyncKeepsThread(t, batch);
    MergeAllTimed(t, batch, times, u);
    MergeAllCurrent(t, batch);
    MergeAllSlots(t, batch);
    SortKeepsElements(MergeAll(t, batch));
    SortIsSorted(MergeAll(t, batch));
    SortKeepsUnique(MergeAll(t, batch));
    TrimKeepsValid(Sort(MergeAll(t, batch)));
    forall x | x in MergeSynced(t, batch) ensures x in MergeAll(t, batch) && x.ts in Times(MergeAll(t, batch)) {
    }
  }

  lemma OnlyEntry(t: Thread, x: Message, p: Print)
    requires UniqueKeys(t) && x in t && PrintOf(x) != p
    ensures (KeyOf(x), p) !in DigestOf(t)
  {
    if (KeyOf(x), p) in DigestOf(t) {
      var y := EntryOf(t, (KeyOf(x), p));
      UniqueMessage(t, x, y);
    }
  }

  /** The keys one side has that the other lacks or has differently. */
  function DueKeys(mine: Thread, theirs: Thread): set<SyncKey> {
    Differing(DigestOf(mine), DigestOf(theirs))
  }

  lemma DueKeysFew(mine: Thread, theirs: Thread)
    ensures |DueKeys(mine, theirs)| <= SYNC_WINDOW
  {
    DifferingSize(DigestOf(mine), DigestOf(theirs));
  }

  // ---------- one leg: `t` merges the front of what `from` sends ----------

  ghost predicate Leg(from: Thread, t: Thread, piece: seq<Message>, keys: set<SyncKey>, times: Timetable,
                      u: set<U64>) {
    && Pair(from, t, times) && AllTimes(from, t) <= u
    && |keys| <= SYNC_WINDOW && piece <= Batch(from, keys)
  }

  lemma LegReady(from: Thread, t: Thread, piece: seq<Message>, keys: set<SyncKey>, times: Timetable, u: set<U64>)
    requires Leg(from, t, piece, keys, times, u)
    ensures Window.Ready(t, piece, times, u)
  {
    BatchIsReady(t, from, keys, times, u);
    assert forall m :: m in piece ==> m in Batch(from, keys);
    assert Times(piece) <= Times(Batch(from, keys));
  }

  /** Whatever is sent is a copy of the sender's. */
  lemma LegSends(from: Thread, t: Thread, piece: seq<Message>, keys: set<SyncKey>, times: Timetable, u: set<U64>,
                 m: Message) returns (x: Message)
    requires Leg(from, t, piece, keys, times, u) && m in piece
    ensures x in from && KeyOf(x) == KeyOf(m) && KeyOf(x) in keys && Incoming(m) == Incoming(x)
  {
    assert m in Batch(from, keys);
    BatchElements(from, keys, m);
    x :| x in from && KeyOf(x) in keys && m == Stripped(x);
  }

  /** What the receiver holds beside the sender's `x`: its own copy, that merged with `x`, or `x` itself. */
  ghost predicate Beside(t: Thread, x: Message, q: Message) {
    || q in t
    || (exists y :: y in t && KeyOf(y) == KeyOf(x) && q == Over(x, y))
    || ArrivesAs(q, x)
  }

  lemma LegLeaves(from: Thread, t: Thread, piece: seq<Message>, keys: set<SyncKey>, times: Timetable, u: set<U64>,
                  x: Message, q: Message)
    requires Leg(from, t, piece, keys, times, u)
    requires x in from && q in MergeSynced(t, piece) && KeyOf(q) == KeyOf(x)
    ensures Beside(t, x, q)
  {
    LegReady(from, t, piece, keys, times, u);
    SortKeepsElements(MergeAll(t, piece));
    MergedComesFrom(t, piece, q);
    if q !in t {
      var m: Message :| m in piece && FromCopy(t, m, q);
      var z := LegSends(from, t, piece, keys, times, u, m);
      CopyKey(t, m, q);
      UniqueMessage(from, x, z);
      CopyBeside(t, m, x, q);
    }
  }

  lemma CopyBeside(t: Thread, m: Message, x: Message, q: Message)
    requires FromCopy(t, m, q) && Incoming(m) == Incoming(x) && KeyOf(m) == KeyOf(x)
    ensures Beside(t, x, q)
  {
    if !ArrivesAs(q, x) {
      var y :| y in t && KeyOf(y) == KeyOf(m) && q == MergeCopy(y, Incoming(m));
      assert q == Over(x, y);
    }
  }

  lemma CopyKey(t: Thread, m: Message, q: Message)
    requires FromCopy(t, m, q)
    ensures KeyOf(q) == KeyOf(m)
  {
    if x :| x in t && KeyOf(x) == KeyOf(m) && q == MergeCopy(x, Incoming(m)) {
      MergeCopyKeepsKey(x, Incoming(m));
    }
  }

  lemma ArrivalMeets(x: Message, q: Message)
    requires CurrentBuild(x) && ArrivesAs(q, x)
    ensures Copies(x, q) && VersionOf(q) == VersionOf(x) && PrintOf(q) == PrintOf(x)
  {
    IncomingIsSame(x);
  }

  lemma BesideIsCopy(from: Thread, t: Thread, times: Timetable, x: Message, q: Message)
    requires Pair(from, t, times) && x in from && Beside(t, x, q) && KeyOf(q) == KeyOf(x)
    ensures Copies(x, q)
    ensures (forall y :: y in t && KeyOf(y) == KeyOf(x) ==> PrintsMeet(x, y)) ==> PrintsMeet(x, q)
  {
    if q in t {
    } else if ArrivesAs(q, x) {
      ArrivalMeets(x, q);
      SamePrintMeets(x, q);
    } else {
      var y :| y in t && KeyOf(y) == KeyOf(x) && q == Over(x, y);
      MergingMeets(x, y);
    }
  }

  lemma LegKeepsPair(from: Thread, t: Thread, piece: seq<Message>, keys: set<SyncKey>, times: Timetable, u: set<U64>)
    requires Leg(from, t, piece, keys, times, u)
    ensures Pair(from, MergeSynced(t, piece), times) && AllTimes(from, MergeSynced(t, piece)) <= u
  {
    LegReady(from, t, piece, keys, times, u);
    MergedIsGood(t, piece, times, u);
    forall x, q | x in from && q in MergeSynced(t, piece) && KeyOf(x) == KeyOf(q) ensures Agree(ViewOf(x), ViewOf(q)) {
      LegLeaves(from, t, piece, keys, times, u, x, q);
      BesideIsCopy(from, t, times, x, q);
    }
  }

  /** What a leg does to one recent message. */
  lemma LegAt(from: Thread, t: Thread, piece: seq<Message>, keys: set<SyncKey>, times: Timetable, u: set<U64>,
              k: SyncKey)
    requires Leg(from, t, piece, keys, times, u) && k in times && Recent(u, times[k])
    ensures forall y :: y in t && KeyOf(y) == k && k !in KeySet(piece) ==> y in MergeSynced(t, piece)
    ensures forall x, y :: x in from && y in t && KeyOf(x) == KeyOf(y) == k && k in KeySet(piece) ==>
              Over(x, y) in MergeSynced(t, piece)
    ensures forall x :: x in from && KeyOf(x) == k && k in KeySet(piece) && !Holds(t, k) ==>
              exists q :: q in MergeSynced(t, piece) && ArrivesAs(q, x)
    ensures Holds(t, k) ==> Holds(MergeSynced(t, piece), k)
  {
    LegReady(from, t, piece, keys, times, u);
    MergedRecent(t, piece, k, times, u);
    if k in KeySet(piece) {
      var m: Message :| m in piece && KeyOf(m) == k;
      var z := LegSends(from, t, piece, keys, times, u, m);
      forall x | x in from && KeyOf(x) == k ensures x == z {
        UniqueMessage(from, x, z);
      }
      forall y | y in t && KeyOf(y) == k ensures Over(z, y) in MergeSynced(t, piece) {
        assert MergeCopy(y, Incoming(m)) == Over(z, y);
      }
      if !Holds(t, k) {
        var q :| q in MergeSynced(t, piece) && ArrivesAs(q, m);
        assert ArrivesAs(q, z);
      } else {
        var y: Message :| y in t && KeyOf(y) == k;
        MergeCopyKeepsKey(y, Incoming(z));
      }
    }
  }

  lemma NotSent(from: Thread, t: Thread, piece: seq<Message>, keys: set<SyncKey>, times: Timetable, u: set<U64>,
                k: SyncKey)
    requires Leg(from, t, piece, keys, times, u) && k !in keys
    ensures k !in KeySet(piece)
  {
    if m: Message :| m in piece && KeyOf(m) == k {
      var x := LegSends(from, t, piece, keys, times, u, m);
    }
  }

  // ---------- there and back ----------

  /** The dialer sends a front piece of what is due, the listener one of what is due back. */
  ghost predicate TwoLegs(a: Thread, b: Thread, sent: seq<Message>, back: seq<Message>, times: Timetable,
                          u: set<U64>) {
    && Pair(a, b, times) && AllTimes(a, b) <= u
    && sent <= Batch(a, DueKeys(a, b)) && back <= Batch(MergeSynced(b, sent), DueKeys(b, a))
  }

  lemma BothLegs(a: Thread, b: Thread, sent: seq<Message>, back: seq<Message>, times: Timetable, u: set<U64>)
    requires TwoLegs(a, b, sent, back, times, u)
    ensures Leg(a, b, sent, DueKeys(a, b), times, u)
    ensures Leg(MergeSynced(b, sent), a, back, DueKeys(b, a), times, u)
    ensures var (a', b') := (MergeSynced(a, back), MergeSynced(b, sent));
            Pair(a', b', times) && AllTimes(a', b') <= u && SideGood(a', times, u) && SideGood(b', times, u)
  {
    DueKeysFew(a, b);
    DueKeysFew(b, a);
    LegKeepsPair(a, b, sent, DueKeys(a, b), times, u);
    var b' := MergeSynced(b, sent);
    PairIsMutual(a, b', times);
    LegKeepsPair(b', a, back, DueKeys(b, a), times, u);
    PairIsMutual(b', MergeSynced(a, back), times);
    TimedIsStrict(b', times);
    TimedIsStrict(MergeSynced(a, back), times);
  }

  ghost predicate SideGood(t: Thread, times: Timetable, u: set<U64>) {
    ValidThread(t) && InTime(t) && StrictlyInTime(t) && Timed(t, times) && AllCurrent(t) && Times(t) <= u
  }

  /** Both hold `k` at last, as one version, and with one fingerprint exactly when `meets`. */
  ghost predicate EndsMet(a: Thread, b: Thread, k: SyncKey, meets: bool) {
    exists p, q :: Met(a, b, k, p, q, meets)
  }

  ghost predicate Met(a: Thread, b: Thread, k: SyncKey, p: Message, q: Message, meets: bool) {
    && p in a && q in b && KeyOf(p) == k && KeyOf(q) == k && CurrentBuild(p) && CurrentBuild(q)
    && VersionOf(p) == VersionOf(q) && (PrintOf(p) == PrintOf(q) <==> meets)
  }

  ghost predicate MeetAt(a: Thread, b: Thread, k: SyncKey) {
    forall x, y :: x in a && y in b && KeyOf(x) == k && KeyOf(y) == k ==> PrintsMeet(x, y)
  }

  /** All that is due of `k` was sent. */
  ghost predicate Moves(a: Thread, b: Thread, sent: seq<Message>, back: seq<Message>, k: SyncKey) {
    (k in DueKeys(a, b) ==> k in KeySet(sent)) && (k in DueKeys(b, a) ==> k in KeySet(back))
  }

  /** Only the dialer had it. */
  lemma DialerOnly(a: Thread, b: Thread, sent: seq<Message>, back: seq<Message>, x: Message, times: Timetable,
                   u: set<U64>)
    requires TwoLegs(a, b, sent, back, times, u) && Recent(u, x.ts) && Moves(a, b, sent, back, KeyOf(x))
    requires x in a && !Holds(b, KeyOf(x))
    ensures EndsMet(MergeSynced(a, back), MergeSynced(b, sent), KeyOf(x), true)
  {
    var k, b' := KeyOf(x), MergeSynced(b, sent);
    BothLegs(a, b, sent, back, times, u);
    NotDiffering(b, a, k);
    DiffersExactly(a, b, x, times, u);
    LegAt(a, b, sent, DueKeys(a, b), times, u, k);
    var q :| q in b' && ArrivesAs(q, x);
    ArrivalMeets(x, q);
    NotSent(b', a, back, DueKeys(b, a), times, u, k);
    LegAt(b', a, back, DueKeys(b, a), times, u, k);
    assert Met(MergeSynced(a, back), b', k, x, q, true);
  }

  /** Only the listener had it. */
  lemma ListenerOnly(a: Thread, b: Thread, sent: seq<Message>, back: seq<Message>, y: Message, times: Timetable,
                     u: set<U64>)
    requires TwoLegs(a, b, sent, back, times, u) && Recent(u, y.ts) && Moves(a, b, sent, back, KeyOf(y))
    requires y in b && !Holds(a, KeyOf(y))
    ensures EndsMet(MergeSynced(a, back), MergeSynced(b, sent), KeyOf(y), true)
  {
    var k, b' := KeyOf(y), MergeSynced(b, sent);
    BothLegs(a, b, sent, back, times, u);
    NotDiffering(a, b, k);
    DiffersExactly(b, a, y, times, u);
    NotSent(a, b, sent, DueKeys(a, b), times, u, k);
    LegAt(a, b, sent, DueKeys(a, b), times, u, k);
    LegAt(b', a, back, DueKeys(b, a), times, u, k);
    var p :| p in MergeSynced(a, back) && ArrivesAs(p, y);
    ArrivalMeets(y, p);
    assert Met(MergeSynced(a, back), b', k, p, y, true);
  }

  /** With one fingerprint a recent message is due neither way. */
  lemma AlikeIsNotDue(a: Thread, b: Thread, x: Message, y: Message, times: Timetable, u: set<U64>)
    requires Pair(a, b, times) && AllTimes(a, b) <= u && Recent(u, x.ts)
    requires x in a && y in b && KeyOf(x) == KeyOf(y) && PrintOf(x) == PrintOf(y)
    ensures KeyOf(x) !in DueKeys(a, b) && KeyOf(x) !in DueKeys(b, a)
  {
    RecentInWindow(a, x, times, u);
    RecentInWindow(b, y, times, u);
    DigestEntry(a, x);
    DigestEntry(b, y);
    DiffersExactly(a, b, x, times, u);
    DiffersExactly(b, a, y, times, u);
  }

  /** Both had it, with the same fingerprint: nothing moves. */
  lemma BothAlike(a: Thread, b: Thread, sent: seq<Message>, back: seq<Message>, x: Message, y: Message,
                  times: Timetable, u: set<U64>)
    requires TwoLegs(a, b, sent, back, times, u) && Recent(u, x.ts)
    requires x in a && y in b && KeyOf(x) == KeyOf(y) && PrintOf(x) == PrintOf(y)
    ensures x in MergeSynced(a, back) && y in MergeSynced(b, sent)
    ensures EndsMet(MergeSynced(a, back), MergeSynced(b, sent), KeyOf(x), true) && PrintsMeet(x, y)
  {
    var k, b' := KeyOf(x), MergeSynced(b, sent);
    BothLegs(a, b, sent, back, times, u);
    AlikeIsNotDue(a, b, x, y, times, u);
    NotSent(a, b, sent, DueKeys(a, b), times, u, k);
    LegAt(a, b, sent, DueKeys(a, b), times, u, k);
    NotSent(b', a, back, DueKeys(b, a), times, u, k);
    LegAt(b', a, back, DueKeys(b, a), times, u, k);
    SamePrintSameVersion(x, y);
    SamePrintMeets(x, y);
    assert Met(MergeSynced(a, back), b', k, x, y, true);
  }

  lemma BothDiffering(a: Thread, b: Thread, x: Message, y: Message, times: Timetable, u: set<U64>)
    requires Pair(a, b, times) && AllTimes(a, b) <= u && Recent(u, x.ts)
    requires x in a && y in b && KeyOf(x) == KeyOf(y) && PrintOf(x) != PrintOf(y)
    ensures KeyOf(x) in DueKeys(a, b) && KeyOf(x) in DueKeys(b, a)
  {
    OnlyEntry(b, y, PrintOf(x));
    OnlyEntry(a, x, PrintOf(y));
    DiffersExactly(a, b, x, times, u);
    DiffersExactly(b, a, y, times, u);
  }

  /** Both had it, differently: it goes there, is merged, and comes back. */
  lemma BothDiffer(a: Thread, b: Thread, sent: seq<Message>, back: seq<Message>, x: Message, y: Message,
                   times: Timetable, u: set<U64>)
    requires TwoLegs(a, b, sent, back, times, u) && Recent(u, x.ts) && Moves(a, b, sent, back, KeyOf(x))
    requires x in a && y in b && KeyOf(x) == KeyOf(y) && PrintOf(x) != PrintOf(y)
    ensures EndsMet(MergeSynced(a, back), MergeSynced(b, sent), KeyOf(x), PrintsMeet(x, y))
  {
    var k, b' := KeyOf(x), MergeSynced(b, sent);
    BothLegs(a, b, sent, back, times, u);
    BothDiffering(a, b, x, y, times, u);
    LegAt(a, b, sent, DueKeys(a, b), times, u, k);
    assert Over(x, y) in b';
    ExchangedPrints(x, y);
    MergeCopyKeepsKey(y, Incoming(x));
    LegAt(b', a, back, DueKeys(b, a), times, u, k);
    assert Over(Over(x, y), x) == Back(x, y);
    assert Met(MergeSynced(a, back), b', k, Back(x, y), Over(x, y), PrintsMeet(x, y));
  }

  lemma OneMeets(a: Thread, b: Thread, x: Message, y: Message)
    requires UniqueKeys(a) && UniqueKeys(b) && x in a && y in b && KeyOf(x) == KeyOf(y)
    ensures MeetAt(a, b, KeyOf(x)) <==> PrintsMeet(x, y)
  {
    forall p, q | p in a && q in b && KeyOf(p) == KeyOf(x) && KeyOf(q) == KeyOf(x) ensures p == x && q == y {
      UniqueMessage(a, p, x);
      UniqueMessage(b, q, y);
    }
  }

  /** A recent message of which all that was due was sent ends as one version on both. */
  lemma RecentMet(a: Thread, b: Thread, sent: seq<Message>, back: seq<Message>, x: Message, times: Timetable,
                  u: set<U64>)
    requires TwoLegs(a, b, sent, back, times, u) && (x in a || x in b) && Recent(u, x.ts)
    requires Moves(a, b, sent, back, KeyOf(x))
    ensures EndsMet(MergeSynced(a, back), MergeSynced(b, sent), KeyOf(x), MeetAt(a, b, KeyOf(x)))
  {
    if x in a && !Holds(b, KeyOf(x)) {
      DialerOnly(a, b, sent, back, x, times, u);
    } else if x in b && !Holds(a, KeyOf(x)) {
      ListenerOnly(a, b, sent, back, x, times, u);
    } else {
      var p: Message :| p in a && KeyOf(p) == KeyOf(x);
      var q: Message :| q in b && KeyOf(q) == KeyOf(x);
      assert p.ts == x.ts;
      OneMeets(a, b, p, q);
      if PrintOf(p) == PrintOf(q) {
        BothAlike(a, b, sent, back, p, q, times, u);
      } else {
        BothDiffer(a, b, sent, back, p, q, times, u);
      }
    }
  }

  // ---------- the whole exchange ----------

  /** What the listener holds after merging what the dialer sent. */
  function Listener(a: Thread, b: Thread): Thread {
    MergeSynced(b, Batch(a, DueKeys(a, b)))
  }

  function Dialer(a: Thread, b: Thread): Thread {
    MergeSynced(a, Batch(Listener(a, b), DueKeys(b, a)))
  }

  lemma WholeLegs(a: Thread, b: Thread, times: Timetable)
    requires Pair(a, b, times)
    ensures TwoLegs(a, b, Batch(a, DueKeys(a, b)), Batch(Listener(a, b), DueKeys(b, a)), times, AllTimes(a, b))
    ensures SideGood(Dialer(a, b), times, AllTimes(a, b)) && SideGood(Listener(a, b), times, AllTimes(a, b))
  {
    BothLegs(a, b, Batch(a, DueKeys(a, b)), Batch(Listener(a, b), DueKeys(b, a)), times, AllTimes(a, b));
  }

  lemma NothingDifferent(t: Thread, from: Thread)
    requires ValidThread(t) && UniqueKeys(from)
    ensures MergeSynced(t, Batch(from, {})) == t
  {
    SelectShape(from, {});
    SortedIsFixed(t);
  }

  lemma ExchangedIs(a: Thread, b: Thread)
    requires ValidThread(a) && ValidThread(b)
    ensures Exchanged(a, b) == (Dialer(a, b), Listener(a, b))
  {
    if DigestOf(a) == DigestOf(b) {
      assert DueKeys(a, b) == {} && DueKeys(b, a) == {};
      NothingDifferent(b, a);
      NothingDifferent(a, b);
    }
  }

  lemma WholeMoves(a: Thread, b: Thread, x: Message, times: Timetable)
    requires Pair(a, b, times) && (x in a || x in b) && Recent(AllTimes(a, b), x.ts)
    ensures Moves(a, b, Batch(a, DueKeys(a, b)), Batch(Listener(a, b), DueKeys(b, a)), KeyOf(x))
  {
    var k, b' := KeyOf(x), Listener(a, b);
    WholeLegs(a, b, times);
    BothLegs(a, b, Batch(a, DueKeys(a, b)), Batch(b', DueKeys(b, a)), times, AllTimes(a, b));
    if k in DueKeys(a, b) {
      var y := DueIsHeld(a, b, k);
      InBatch(a, DueKeys(a, b), y);
      assert Stripped(y) in Batch(a, DueKeys(a, b));
    }
    if k in DueKeys(b, a) {
      var y := DueIsHeld(b, a, k);
      LegAt(a, b, Batch(a, DueKeys(a, b)), DueKeys(a, b), times, AllTimes(a, b), k);
      var z: Message :| z in b' && KeyOf(z) == k;
      InBatch(b', DueKeys(b, a), z);
      assert Stripped(z) in Batch(b', DueKeys(b, a));
    }
  }

  lemma DueIsHeld(a: Thread, b: Thread, k: SyncKey) returns (x: Message)
    requires k in DueKeys(a, b)
    ensures x in a && KeyOf(x) == k
  {
    var e :| e in DigestOf(a) && e !in DigestOf(b) && e.0 == k;
    x := EntryOf(a, e);
  }

  lemma WholeMet(a: Thread, b: Thread, x: Message, times: Timetable)
    requires Pair(a, b, times) && (x in a || x in b) && Recent(AllTimes(a, b), x.ts)
    ensures EndsMet(Dialer(a, b), Listener(a, b), KeyOf(x), MeetAt(a, b, KeyOf(x)))
  {
    WholeLegs(a, b, times);
    WholeMoves(a, b, x, times);
    RecentMet(a, b, Batch(a, DueKeys(a, b)), Batch(Listener(a, b), DueKeys(b, a)), x, times, AllTimes(a, b));
  }

  // ---------- the newest messages ----------

  ghost predicate Covers(t: Thread, u: set<U64>) {
    forall w :: w in u && Recent(u, w) ==> w in Times(t)
  }

  /** In a thread that holds every recent time, the newest messages are recent ones. */
  lemma NewestAreRecent(t: Thread, u: set<U64>, x: Message)
    requires StrictlyInTime(t) && Covers(t, u) && x in Newest(t, SYNC_WINDOW)
    ensures Recent(u, x.ts)
  {
    assert x in t;
    InNewest(t, x, SYNC_WINDOW);
    if !Recent(u, x.ts) {
      var top := TopTimes(u, x.ts, SYNC_WINDOW);
      SubsetCardinality(top, Above(Times(t), x.ts));
    }
  }

  lemma BothCover(a: Thread, b: Thread, times: Timetable)
    requires Pair(a, b, times)
    ensures Covers(Dialer(a, b), AllTimes(a, b)) && Covers(Listener(a, b), AllTimes(a, b))
  {
    var u := AllTimes(a, b);
    WholeLegs(a, b, times);
    forall w | w in u && Recent(u, w) ensures w in Times(Dialer(a, b)) && w in Times(Listener(a, b)) {
      var x :| (x in a || x in b) && x.ts == w;
      WholeMet(a, b, x, times);
      var p, q :| Met(Dialer(a, b), Listener(a, b), KeyOf(x), p, q, MeetAt(a, b, KeyOf(x)));
      assert p.ts == w && q.ts == w;
    }
  }

  /** Both hold `k` with one fingerprint. */
  ghost predicate SameAt(a: Thread, b: Thread, k: SyncKey) {
    exists p, q :: p in a && q in b && KeyOf(p) == k && KeyOf(q) == k && PrintOf(p) == PrintOf(q)
  }

  lemma SameIsOne(a: Thread, b: Thread, p: Message, q: Message)
    requires UniqueKeys(a) && UniqueKeys(b) && p in a && q in b && KeyOf(p) == KeyOf(q)
    ensures SameAt(a, b, KeyOf(p)) <==> PrintOf(p) == PrintOf(q)
  {
    if SameAt(a, b, KeyOf(p)) {
      var x, y :| x in a && y in b && KeyOf(x) == KeyOf(p) && KeyOf(y) == KeyOf(p) && PrintOf(x) == PrintOf(y);
      UniqueMessage(a, x, p);
      UniqueMessage(b, y, q);
    }
  }

  /** Two threads that hold every recent time list the same newest keys. */
  lemma SameNewest(a: Thread, b: Thread, times: Timetable, u: set<U64>)
    requires SideGood(a, times, u) && SideGood(b, times, u) && Distinct(times) && Covers(a, u) && Covers(b, u)
    ensures Keys(Newest(a, SYNC_WINDOW)) == Keys(Newest(b, SYNC_WINDOW))
  {
    forall x | x in Newest(a, SYNC_WINDOW) ensures Holds(b, KeyOf(x)) {
      NewestAreRecent(a, u, x);
      HeldByTime(a, b, times, u, x);
    }
    forall y | y in Newest(b, SYNC_WINDOW) ensures Holds(a, KeyOf(y)) {
      NewestAreRecent(b, u, y);
      HeldByTime(b, a, times, u, y);
    }
    TimedComparable(a, b, times);
    TimedComparable(b, a, times);
    NewestAgree(a, b, SYNC_WINDOW);
  }

  lemma HeldByTime(a: Thread, b: Thread, times: Timetable, u: set<U64>, x: Message)
    requires SideGood(a, times, u) && SideGood(b, times, u) && Distinct(times) && Covers(b, u)
    requires x in a && Recent(u, x.ts)
    ensures Holds(b, KeyOf(x))
  {
    assert x.ts in Times(a);
    var y :| y in b && y.ts == x.ts;
    assert times[KeyOf(x)] == times[KeyOf(y)];
  }

  lemma TimedComparable(s: Thread, t: Thread, times: Timetable)
    requires StrictlyInTime(s) && StrictlyInTime(t) && Timed(s, times) && Timed(t, times) && Distinct(times)
    ensures Comparable(s, t)
  {
  }

  /** Their digests are equal exactly when each recent message has one fingerprint. */
  lemma DigestsEqualExactly(a: Thread, b: Thread, times: Timetable, u: set<U64>)
    requires SideGood(a, times, u) && SideGood(b, times, u) && Distinct(times) && Covers(a, u) && Covers(b, u)
    ensures DigestOf(a) == DigestOf(b) <==> forall p :: p in a && Recent(u, p.ts) ==> SameAt(a, b, KeyOf(p))
  {
    var s, t := Newest(a, SYNC_WINDOW), Newest(b, SYNC_WINDOW);
    SameNewest(a, b, times, u);
    assert |Keys(s)| == |s| && |Keys(t)| == |t|;
    if forall p :: p in a && Recent(u, p.ts) ==> SameAt(a, b, KeyOf(p)) {
      forall i | 0 <= i < |s| ensures DigestOf(a)[i] == DigestOf(b)[i] {
        assert Keys(s)[i] == Keys(t)[i] && s[i] in a && t[i] in b;
        NewestAreRecent(a, u, s[i]);
        SameIsOne(a, b, s[i], t[i]);
      }
    }
    if DigestOf(a) == DigestOf(b) {
      forall p | p in a && Recent(u, p.ts) ensures SameAt(a, b, KeyOf(p)) {
        RecentInWindow(a, p, times, u);
        DigestEntry(a, p);
        var q := EntryOf(b, (KeyOf(p), PrintOf(p)));
      }
    }
  }

  // ---------- the theorem ----------

  /** Shown the same, and a live message with the same delivery has the same fingerprint. */
  ghost predicate Alike(x: Message, y: Message) {
    && ShownOf(x) == ShownOf(y)
    && (!x.deleted && (x.fromMe || Rank(x.status) == Rank(y.status)) ==> PrintOf(x) == PrintOf(y))
  }

  /** Message by message the same key, shown the same, and nothing live left to sync. */
  ghost predicate ListedAlike(s: Thread, t: Thread) {
    Keys(s) == Keys(t) && forall i :: 0 <= i < |s| && i < |t| ==> Alike(s[i], t[i])
  }

  lemma SameVersionAlike(x: Message, y: Message)
    requires CurrentBuild(x) && CurrentBuild(y) && KeyOf(x) == KeyOf(y) && VersionOf(x) == VersionOf(y)
    ensures Alike(x, y)
  {
    ShownIsView(x);
    ShownIsView(y);
    if !x.deleted && (x.fromMe || Rank(x.status) == Rank(y.status)) {
      SameVersionSamePrint(x, y);
    }
  }

  lemma SameKeyAlike(a: Thread, b: Thread, x: Message, y: Message, times: Timetable)
    requires Pair(a, b, times) && KeyOf(x) == KeyOf(y)
    requires x in Newest(Dialer(a, b), SYNC_WINDOW) && y in Newest(Listener(a, b), SYNC_WINDOW)
    ensures Alike(x, y)
  {
    WholeLegs(a, b, times);
    BothCover(a, b, times);
    NewestAreRecent(Dialer(a, b), AllTimes(a, b), x);
    var z := FromEither(a, b, x, times);
    WholeMet(a, b, z, times);
    var p, q :| Met(Dialer(a, b), Listener(a, b), KeyOf(x), p, q, MeetAt(a, b, KeyOf(x)));
    assert x in Dialer(a, b) && y in Listener(a, b);
    UniqueMessage(Dialer(a, b), x, p);
    UniqueMessage(Listener(a, b), y, q);
    SameVersionAlike(x, y);
  }

  /** A message of the dialer's was on one side before. */
  lemma FromEither(a: Thread, b: Thread, x: Message, times: Timetable) returns (z: Message)
    requires Pair(a, b, times) && x in Dialer(a, b)
    ensures (z in a || z in b) && KeyOf(z) == KeyOf(x) && z.ts == x.ts
  {
    WholeLegs(a, b, times);
    assert x.ts in AllTimes(a, b);
    z :| (z in a || z in b) && z.ts == x.ts;
    assert times[KeyOf(z)] == times[KeyOf(x)];
  }

  /**
    One exchange with room in the budget, between two devices whose threads are in time
    order with distinct times, leaves the newest messages the same on both: same keys in
    the same order, each shown the same, the live ones with equal fingerprints.
   */
  lemma ExchangeConverges(a: Thread, b: Thread, times: Timetable)
    requires Pair(a, b, times)
    ensures var (a', b') := Exchanged(a, b);
            ListedAlike(Newest(a', SYNC_WINDOW), Newest(b', SYNC_WINDOW))
  {
    var s, t := Newest(Dialer(a, b), SYNC_WINDOW), Newest(Listener(a, b), SYNC_WINDOW);
    ExchangedIs(a, b);
    WholeLegs(a, b, times);
    BothCover(a, b, times);
    SameNewest(Dialer(a, b), Listener(a, b), times, AllTimes(a, b));
    forall i | 0 <= i < |s| && i < |t| ensures Alike(s[i], t[i]) {
      assert Keys(s)[i] == Keys(t)[i];
      SameKeyAlike(a, b, s[i], t[i], times);
    }
  }

  /** The two copies of each recent message held on both sides meet. */
  ghost predicate AllMeet(a: Thread, b: Thread) {
    forall x, y :: x in a && y in b && KeyOf(x) == KeyOf(y) && Recent(AllTimes(a, b), x.ts) ==> PrintsMeet(x, y)
  }

  /**
    One exchange is enough, and the next sends nothing, exactly when the copies of each
    recent message met before it.
   */
  lemma SecondExchangeIsQuiet(a: Thread, b: Thread, times: Timetable)
    requires Pair(a, b, times)
    ensures var (a', b') := Exchanged(a, b);
            && (DigestOf(a') == DigestOf(b') <==> AllMeet(a, b))
            && (AllMeet(a, b) ==> Exchanged(a', b') == (a', b'))
  {
    var a', b', u := Dialer(a, b), Listener(a, b), AllTimes(a, b);
    ExchangedIs(a, b);
    WholeLegs(a, b, times);
    BothCover(a, b, times);
    DigestsEqualExactly(a', b', times, u);
    if AllMeet(a, b) {
      forall p | p in a' && Recent(u, p.ts) ensures SameAt(a', b', KeyOf(p)) {
        var z := FromEither(a, b, p, times);
        MeetingEndsSame(a, b, z, times);
      }
    }
    if DigestOf(a') == DigestOf(b') {
      forall x, y | x in a && y in b && KeyOf(x) == KeyOf(y) && Recent(u, x.ts) ensures PrintsMeet(x, y) {
        SameMeansMeeting(a, b, x, y, times);
      }
    }
  }

  lemma MeetingEndsSame(a: Thread, b: Thread, z: Message, times: Timetable)
    requires Pair(a, b, times) && (z in a || z in b) && Recent(AllTimes(a, b), z.ts) && AllMeet(a, b)
    ensures SameAt(Dialer(a, b), Listener(a, b), KeyOf(z))
  {
    WholeMet(a, b, z, times);
    forall x, y | x in a && y in b && KeyOf(x) == KeyOf(z) && KeyOf(y) == KeyOf(z) ensures PrintsMeet(x, y) {
      assert x.ts == z.ts;
    }
    var p, q :| Met(Dialer(a, b), Listener(a, b), KeyOf(z), p, q, MeetAt(a, b, KeyOf(z)));
  }

  lemma SameMeansMeeting(a: Thread, b: Thread, x: Message, y: Message, times: Timetable)
    requires Pair(a, b, times) && x in a && y in b && KeyOf(x) == KeyOf(y) && Recent(AllTimes(a, b), x.ts)
    requires forall p :: p in Dialer(a, b) && Recent(AllTimes(a, b), p.ts) ==>
      SameAt(Dialer(a, b), Listener(a, b), KeyOf(p))
    ensures PrintsMeet(x, y)
  {
    WholeLegs(a, b, times);
    WholeMet(a, b, x, times);
    var p, q :| Met(Dialer(a, b), Listener(a, b), KeyOf(x), p, q, MeetAt(a, b, KeyOf(x)));
    assert p.ts == x.ts;
    SameIsOne(Dialer(a, b), Listener(a, b), p, q);
    OneMeets(a, b, x, y);
  }
}
