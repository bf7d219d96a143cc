/**
  One exchange with room in the budget leaves both devices with the same newest
  messages, shown the same.
 */
module Window {
  import opened Common
  import opened Messages
  import opened Convergence
  import opened Threads
  import opened Slotting
  import opened Exchange

  // ---------- ranks in a set of times ----------

  ghost function Above(u: set<U64>, t: int): set<U64> {
    set x | x in u && x > t
  }

  lemma AboveSubset(u: set<U64>, v: set<U64>, t: int)
    requires u <= v
    ensures |Above(u, t)| <= |Above(v, t)|
  {
    SubsetCardinality(Above(u, t), Above(v, t));
  }

  lemma MaxOf(s: set<U64>) returns (m: U64)
    requires s != {}
    ensures m in s && forall x :: x in s ==> x <= m
    decreases s
  {
    var some :| some in s;
    m := some;
    if s != {some} {
      var r := MaxOf(s - {some});
      m := Max(some, r);
      assert forall x :: x in s ==> x == some || x in s - {some};
    }
  }

  /** Among at least n times past `t`, n of them each have fewer than n above. */
  lemma TopTimes(u: set<U64>, t: int, n: nat) returns (top: set<U64>)
    requires |Above(u, t)| >= n
    ensures top <= Above(u, t) && |top| == n
    ensures forall x :: x in top ==> |Above(u, x)| < n
    decreases n
  {
    if n == 0 {
      top := {};
    } else {
      var m := MaxOf(Above(u, t));
      assert Above(u - {m}, t) == Above(u, t) - {m};
      assert forall y :: y in u && y > m ==> y in Above(u, t);
      var rest := TopTimes(u - {m}, t, n - 1);
      top := rest + {m};
      forall x | x in top ensures |Above(u, x)| < n {
        if x == m {
          assert Above(u, m) == {};
        } else {
          assert Above(u, x) == Above(u - {m}, x) + {m};
        }
      }
    }
  }

  ghost function Times(t: Thread): set<U64> {
    set x | x in t :: x.ts
  }

  lemma {:induction false} TimesSize(t: Thread)
    requires StrictlyInTime(t)
    ensures |Times(t)| == |t|
  {
    if t != [] {
      var init, last := t[..|t| - 1], t[|t| - 1];
      assert t == init + [last];
      TimesSize(init);
      assert last.ts !in Times(init);
      assert Times(t) == Times(init) + {last.ts};
    }
  }

  lemma LaterTimes(t: Thread, i: nat)
    requires StrictlyInTime(t) && i < |t|
    ensures Times(t[i + 1..]) == Above(Times(t), t[i].ts)
  {
    var later := t[i + 1..];
    forall x | x in Times(later) ensures x in Above(Times(t), t[i].ts) {
      var j :| 0 <= j < |later| && later[j].ts == x;
      assert t[i + 1 + j].ts == x && t[i + 1 + j] in t;
    }
    forall x | x in Above(Times(t), t[i].ts) ensures x in Times(later) {
      var j :| 0 <= j < |t| && t[j].ts == x;
      assert j > i && later[j - i - 1] in later;
    }
  }

  /** A message is among the newest n exactly when fewer than n are newer. */
  lemma NewestByRank(t: Thread, i: nat, n: nat)
    requires StrictlyInTime(t) && i < |t|
    ensures |Above(Times(t), t[i].ts)| == |t| - 1 - i
    ensures i >= |t| - n <==> |Above(Times(t), t[i].ts)| < n
  {
    TimesSize(t[i + 1..]);
    LaterTimes(t, i);
  }

  lemma InNewest(t: Thread, x: Message, n: nat)
    requires StrictlyInTime(t) && x in t
    ensures x in Newest(t, n) <==> |Above(Times(t), x.ts)| < n
  {
    var i :| 0 <= i < |t| && t[i] == x;
    NewestByRank(t, i, n);
    if i >= |t| - n && |t| > n {
      assert Newest(t, n)[i - (|t| - n)] == x;
    }
    if x in Newest(t, n) && |t| > n {
      var j :| 0 <= j < n && Newest(t, n)[j] == x;
      assert t[|t| - n + j] == x;
      assert i == |t| - n + j;
    }
  }

  // ---------- one timetable for both devices ----------

  /** When each message was written; copies agree and no two messages share a time. */
  type Timetable = map<SyncKey, U64>

  ghost predicate Distinct(times: Timetable) {
    forall k, l :: k in times && l in times && times[k] == times[l] ==> k == l
  }

  ghost predicate Timed(t: seq<Message>, times: Timetable) {
    forall x :: x in t ==> KeyOf(x) in times && times[KeyOf(x)] == x.ts
  }

  lemma TimedIsStrict(t: Thread, times: Timetable)
    requires Distinct(times) && Timed(t, times) && UniqueKeys(t) && InTime(t)
    ensures StrictlyInTime(t)
  {
    forall i, j | 0 <= i < j < |t| ensures t[i].ts < t[j].ts {
      assert t[i] in t && t[j] in t;
      assert KeyOf(t[i]) != KeyOf(t[j]);
    }
  }

  // ---------- what one merged batch does to one message ----------

  /** Everything two copies come to share: the view, the last change, and for our own messages the delivery. */
  datatype Version = Version(view: View, rev: U64, rank: nat)

  ghost function VersionOf(m: Message): Version {
    Version(ViewOf(m), m.rev, if m.fromMe then Rank(m.status) else 0)
  }

  ghost predicate Compatible(v: Version, w: Version) {
    Agree(v.view, w.view)
  }

  ghost function JoinVersions(v: Version, w: Version): Version {
    Version(Join(v.view, w.view), Max(v.rev, w.rev), if v.rank < w.rank then w.rank else v.rank)
  }

  ghost predicate AllCurrent(t: seq<Message>) {
    forall x :: x in t ==> CurrentBuild(x)
  }

  lemma MergedRev(x: Message, m: Message)
    requires CurrentBuild(x) && CurrentBuild(m)
    ensures MergeFields(x, m).rev == Max(x.rev, m.rev)
  {
    NoLegacyReading(x, m);
    NoLegacyReading(m, x);
  }

  lemma CopyMerged(x: Message, m: Message)
    requires CurrentBuild(x) && CurrentBuild(m) && KeyOf(x) == KeyOf(m) && Compatible(VersionOf(x), VersionOf(m))
    ensures var y := MergeCopy(x, Incoming(m));
            CurrentBuild(y) && VersionOf(y) == JoinVersions(VersionOf(x), VersionOf(m)) && SameSlot(x, y)
  {
    CopyJoins(x, m);
    IncomingIsSame(m);
    MergedRev(x, Incoming(m));
    MergeFieldsKeepsCard(x, Incoming(m));
  }

  /** A copy that came in new, slotted in here. */
  predicate ArrivesAs(y: Message, m: Message) {
    y == Incoming(m).(order := y.order)
  }

  lemma OthersStay(t: Thread, m: Message, x: Message)
    requires x in t && KeyOf(x) != KeyOf(m)
    ensures x in MergeOne(t, m)
  {
    var i :| 0 <= i < |t| && t[i] == x;
    assert MergeOne(t, m)[i] == x;
  }

  lemma CopyTakesIn(t: Thread, m: Message, x: Message)
    requires UniqueKeys(t) && x in t && KeyOf(x) == KeyOf(m)
    ensures MergeCopy(x, Incoming(m)) in MergeOne(t, m)
  {
    var i := FindKey(t, KeyOf(m)).value;
    assert t[i] == x;
    assert MergeOne(t, m)[i] == MergeCopy(x, Incoming(m));
  }

  lemma NewlyHeld(t: Thread, m: Message)
    requires !Holds(t, KeyOf(m)) && Holds(MergeOne(t, m), KeyOf(m))
    ensures exists y :: y in MergeOne(t, m) && ArrivesAs(y, m)
  {
    var r := MergeOne(t, m);
    assert FindKey(t, KeyOf(m)).None?;
    assert r != t;
    assert r[|t|] in r && ArrivesAs(r[|t|], m);
  }

  lemma {:induction false} AbsentStays(t: Thread, batch: seq<Message>, x: Message)
    requires KeyOf(x) !in KeySet(batch) && x in t
    ensures x in MergeAll(t, batch)
  {
    if batch != [] {
      var init, last := batch[..|batch| - 1], batch[|batch| - 1];
      assert batch == init + [last];
      assert last in batch;
      AbsentStays(t, init, x);
      OthersStay(MergeAll(t, init), last, x);
    }
  }

  lemma {:induction false} NeverArrives(t: Thread, batch: seq<Message>, k: SyncKey)
    requires k !in KeySet(batch) && !Holds(t, k)
    ensures !Holds(MergeAll(t, batch), k)
  {
    if batch != [] {
      var init, last := batch[..|batch| - 1], batch[|batch| - 1];
      assert last in batch;
      assert forall x :: x in init ==> x in batch;
      NeverArrives(t, init, k);
      if Holds(MergeAll(t, batch), k) { OneArrives(MergeAll(t, init), last, k); }
    }
  }

  lemma OneArrives(t: Thread, m: Message, k: SyncKey)
    requires k != KeyOf(m) && Holds(MergeOne(t, m), k)
    ensures Holds(t, k)
  {
    var r := MergeOne(t, m);
    var x :| x in r && KeyOf(x) == k;
    var i :| 0 <= i < |r| && r[i] == x;
    var f := FindKey(t, KeyOf(m));
    if f.Some? {
      MergeFieldsKeepsCard(t[f.value], Incoming(m));
    }
    assert i < |t| && KeyOf(t[i]) == k;
    assert t[i] in t;
  }

  lemma {:induction false} CopyArrives(t: Thread, batch: seq<Message>, m: Message, x: Message)
    requires UniqueKeys(t) && UniqueKeys(batch) && m in batch && x in t && KeyOf(x) == KeyOf(m)
    ensures MergeCopy(x, Incoming(m)) in MergeAll(t, batch)
  {
    var init, last := batch[..|batch| - 1], batch[|batch| - 1];
    LastOrBefore(batch, m);
    if m == last {
      AbsentStays(t, init, x);
      MergeAllSlots(t, init);
      CopyTakesIn(MergeAll(t, init), m, x);
    } else {
      CopyArrives(t, init, m, x);
      MergeCopyKeepsKey(x, Incoming(m));
      OthersStay(MergeAll(t, init), last, MergeCopy(x, Incoming(m)));
    }
  }

  lemma MergeCopyKeepsKey(x: Message, m: Message)
    ensures SameSlot(x, MergeCopy(x, m))
  {
    MergeFieldsKeepsCard(x, m);
  }

  lemma LastOrBefore(batch: seq<Message>, m: Message)
    requires UniqueKeys(batch) && m in batch
    ensures var init, last := batch[..|batch| - 1], batch[|batch| - 1];
            && UniqueKeys(init) && KeyOf(last) !in KeySet(init)
            && (m != last ==> m in init && KeyOf(m) != KeyOf(last))
  {
    var init, last := batch[..|batch| - 1], batch[|batch| - 1];
    assert batch == init + [last];
    LastKeyOnce(batch);
    if m in init { assert KeyOf(m) in KeySet(init); }
  }

  lemma LastKeyOnce(batch: seq<Message>)
    requires UniqueKeys(batch) && batch != []
    ensures KeyOf(batch[|batch| - 1]) !in KeySet(batch[..|batch| - 1])
  {
  }

  lemma {:induction false} NewArrives(t: Thread, batch: seq<Message>, m: Message)
    requires UniqueKeys(t) && UniqueKeys(batch) && m in batch
    requires !Holds(t, KeyOf(m)) && Holds(MergeAll(t, batch), KeyOf(m))
    ensures exists y :: y in MergeAll(t, batch) && ArrivesAs(y, m)
  {
    var init, last := batch[..|batch| - 1], batch[|batch| - 1];
    LastOrBefore(batch, m);
    if m == last {
      NeverArrives(t, init, KeyOf(m));
      NewlyHeld(MergeAll(t, init), m);
    } else {
      OneArrives(MergeAll(t, init), last, KeyOf(m));
      NewArrives(t, init, m);
      var y :| y in MergeAll(t, init) && ArrivesAs(y, m);
      OthersStay(MergeAll(t, init), last, y);
    }
  }

  /** Where a message of a merged thread comes from. */
  ghost predicate ComesFrom(t: Thread, batch: seq<Message>, p: Message) {
    || p in t
    || exists m: Message :: m in batch && FromCopy(t, m, p)
  }

  ghost predicate FromCopy(t: Thread, m: Message, p: Message) {
    || (!Holds(t, KeyOf(m)) && ArrivesAs(p, m))
    || exists x :: x in t && KeyOf(x) == KeyOf(m) && p == MergeCopy(x, Incoming(m))
  }

  lemma OneComesFrom(t: Thread, m: Message, p: Message)
    requires UniqueKeys(t) && p in MergeOne(t, m)
    ensures (p in t && KeyOf(p) != KeyOf(m)) || (FromCopy(t, m, p) && KeyOf(p) == KeyOf(m))
  {
    var r, f := MergeOne(t, m), FindKey(t, KeyOf(m));
    var i :| 0 <= i < |r| && r[i] == p;
    if f.Some? && i == f.value {
      MergeCopyKeepsKey(t[i], Incoming(m));
      assert t[i] in t && p == MergeCopy(t[i], Incoming(m));
    } else if i == |t| {
      assert ArrivesAs(p, m);
    } else {
      assert p == t[i];
    }
  }

  lemma ComesFromMore(t: Thread, init: seq<Message>, last: Message, p: Message)
    requires ComesFrom(t, init, p)
    ensures ComesFrom(t, init + [last], p)
  {
    if p !in t {
      var m: Message :| m in init && FromCopy(t, m, p);
      assert m in init + [last];
    }
  }

  lemma KeysMore(batch: seq<Message>)
    requires UniqueKeys(batch) && batch != []
    ensures var init, last := batch[..|batch| - 1], batch[|batch| - 1];
            && batch == init + [last] && UniqueKeys(init) && KeyOf(last) !in KeySet(init)
            && KeySet(batch) == KeySet(init) + {KeyOf(last)}
  {
    var init, last := batch[..|batch| - 1], batch[|batch| - 1];
    LastOrBefore(batch, last);
    assert batch == init + [last];
  }

  lemma MergeAllUnique(t: Thread, batch: seq<Message>)
    requires UniqueKeys(t)
    ensures UniqueKeys(MergeAll(t, batch))
  {
    MergeAllSlots(t, batch);
  }

  /** Every message of a merged thread was there, arrived, or joins one that was with one that arrived. */
  lemma {:induction false} MergedComesFrom(t: Thread, batch: seq<Message>, p: Message)
    requires UniqueKeys(t) && UniqueKeys(batch) && p in MergeAll(t, batch)
    ensures ComesFrom(t, batch, p) && (KeyOf(p) !in KeySet(batch) ==> p in t)
    decreases |batch|, 0
  {
    if batch != [] {
      var init, last := batch[..|batch| - 1], batch[|batch| - 1];
      KeysMore(batch);
      MergeAllUnique(t, init);
      OneComesFrom(MergeAll(t, init), last, p);
      if KeyOf(p) == KeyOf(last) {
        LastComesFrom(t, init, last, p);
        assert last in batch;
      } else {
        MergedComesFrom(t, init, p);
        ComesFromMore(t, init, last, p);
      }
    }
  }

  lemma LastComesFrom(t: Thread, init: seq<Message>, last: Message, p: Message)
    requires UniqueKeys(t) && UniqueKeys(init) && KeyOf(last) !in KeySet(init)
    requires FromCopy(MergeAll(t, init), last, p)
    ensures FromCopy(t, last, p)
    decreases |init|, 1
  {
    var r := MergeAll(t, init);
    if x :| x in r && KeyOf(x) == KeyOf(last) && p == MergeCopy(x, Incoming(last)) {
      MergedComesFrom(t, init, x);
      assert x in t;
    } else if x :| x in t && KeyOf(x) == KeyOf(last) {
      AbsentStays(t, init, x);
    }
  }

  // ---------- nothing recent is skipped or cut off ----------

  /** What a device brings to a merge: a valid thread in time order and a small genuine batch. */
  ghost predicate Ready(t: Thread, batch: seq<Message>, times: Timetable, u: set<U64>) {
    && ValidThread(t) && InTime(t) && Timed(t, times) && AllCurrent(t)
    && UniqueKeys(batch) && |batch| <= SYNC_WINDOW && Timed(batch, times) && AllCurrent(batch)
    && Distinct(times) && Times(t) <= u && Times(batch) <= u
  }

  /** Fewer than a window's worth of messages anywhere are newer. */
  ghost predicate Recent(u: set<U64>, t: int) {
    |Above(u, t)| < SYNC_WINDOW
  }

  lemma {:induction false} MergeAllTimed(t: Thread, batch: seq<Message>, times: Timetable, u: set<U64>)
    requires Timed(t, times) && Timed(batch, times) && Times(t) <= u && Times(batch) <= u
    ensures Timed(MergeAll(t, batch), times) && Times(MergeAll(t, batch)) <= u
    ensures |t| <= |MergeAll(t, batch)| <= |t| + |batch|
  {
    if batch != [] {
      var init, last := batch[..|batch| - 1], batch[|batch| - 1];
      assert batch == init + [last];
      assert last in batch && last.ts in Times(batch);
      MergeAllTimed(t, init, times, u);
      MergeOneTimed(MergeAll(t, init), last, times, u);
    }
  }

  lemma MergeOneTimed(t: Thread, m: Message, times: Timetable, u: set<U64>)
    requires Timed(t, times) && Times(t) <= u
    requires KeyOf(m) in times && times[KeyOf(m)] == m.ts && m.ts in u
    ensures Timed(MergeOne(t, m), times) && Times(MergeOne(t, m)) <= u
    ensures |t| <= |MergeOne(t, m)| <= |t| + 1
  {
    var r := MergeOne(t, m);
    var f := FindKey(t, KeyOf(m));
    if f.Some? { MergeFieldsKeepsCard(t[f.value], Incoming(m)); }
    forall x | x in r ensures KeyOf(x) in times && times[KeyOf(x)] == x.ts && x.ts in u {
      var i :| 0 <= i < |r| && r[i] == x;
      if i < |t| {
        assert t[i] in t && t[i].ts in Times(t) && SameSlot(t[i], r[i]);
      }
    }
  }

  /** A message newer than everything a full thread drops is never skipped. */
  lemma NotSkipped(t: Thread, r: Thread, m: Message, times: Timetable, u: set<U64>)
    requires ValidThread(t) && InTime(t) && Timed(t, times) && Distinct(times) && Times(t) <= u
    requires Slotted(t, r) && |r| <= |t| + SYNC_WINDOW && Recent(u, m.ts)
    ensures !(|r| >= MAX_PER_PEER && m.ts < r[0].ts)
  {
    if |r| >= MAX_PER_PEER && m.ts < r[0].ts {
      TimedIsStrict(t, times);
      TimesSize(t);
      assert SameSlot(t[0], r[0]);
      forall x | x in Times(t) ensures x in Above(u, m.ts) {
        var y :| y in t && y.ts == x;
        var i :| 0 <= i < |t| && t[i] == y;
      }
      SubsetCardinality(Times(t), Above(u, m.ts));
    }
  }

  lemma {:induction false} RecentDelivered(t: Thread, batch: seq<Message>, m: Message, times: Timetable, u: set<U64>)
    requires ValidThread(t) && InTime(t) && Timed(t, times) && Distinct(times) && Times(t) <= u
    requires |batch| <= SYNC_WINDOW && Timed(batch, times) && Times(batch) <= u
    requires m in batch && Recent(u, m.ts)
    ensures Holds(MergeAll(t, batch), KeyOf(m))
  {
    var init, last := batch[..|batch| - 1], batch[|batch| - 1];
    assert batch == init + [last];
    var r := MergeAll(t, init);
    MergeAllSlots(t, init);
    assert forall x :: x in init ==> x in batch;
    assert forall x :: x in Times(init) ==> x in Times(batch);
    MergeAllTimed(t, init, times, u);
    if m == last {
      NotSkipped(t, r, m, times, u);
      OneHeld(r, m);
    } else {
      RecentDelivered(t, init, m, times, u);
      MergeOneSlots(r, last);
      StillHolds(r, MergeOne(r, last), KeyOf(m));
    }
  }

  lemma OneHeld(t: Thread, m: Message)
    requires !(|t| >= MAX_PER_PEER && m.ts < t[0].ts)
    ensures Holds(MergeOne(t, m), KeyOf(m))
  {
    var r := MergeOne(t, m);
    var f := FindKey(t, KeyOf(m));
    if f.Some? {
      MergeFieldsKeepsCard(t[f.value], Incoming(m));
      assert r[f.value] in r;
    } else {
      assert r[|t|] in r;
    }
  }

  lemma StillHolds(t: Thread, t': Thread, k: SyncKey)
    requires SlotStep(t, t') && Holds(t, k)
    ensures Holds(t', k)
  {
    SameSlotsHold(t, t', k);
  }

  /** Sorting and bounding keeps every recent message. */
  lemma RecentKept(r: Thread, x: Message, times: Timetable, u: set<U64>)
    requires UniqueKeys(r) && TimeOrdered(r) && Timed(r, times) && Distinct(times) && Times(r) <= u
    requires x in r && Recent(u, x.ts)
    ensures x in Trim(Sort(r))
  {
    var s := Sort(r);
    SortKeepsUnique(r);
    SortKeepsElements(r);
    TimedIsStrict(s, times);
    AboveSubset(Times(s), u, x.ts);
    InNewest(s, x, MAX_PER_PEER);
  }

  lemma RecentStays(t: Thread, batch: seq<Message>, x: Message, times: Timetable, u: set<U64>)
    requires Ready(t, batch, times, u) && x in MergeAll(t, batch) && Recent(u, x.ts)
    ensures x in MergeSynced(t, batch)
  {
    SortedInTime(t);
    MergeAllSlots(t, batch);
    MergeAllTimed(t, batch, times, u);
    RecentKept(MergeAll(t, batch), x, times, u);
  }

  /** The three things a merged batch does to a recent message: leave it, take in a copy, add it. */
  lemma MergedRecent(t: Thread, batch: seq<Message>, k: SyncKey, times: Timetable, u: set<U64>)
    requires Ready(t, batch, times, u) && k in times && Recent(u, times[k])
    ensures forall x :: x in t && KeyOf(x) == k && k !in KeySet(batch) ==> x in MergeSynced(t, batch)
    ensures forall x, m :: x in t && m in batch && KeyOf(x) == KeyOf(m) == k ==>
              MergeCopy(x, Incoming(m)) in MergeSynced(t, batch)
    ensures forall m :: m in batch && KeyOf(m) == k && !Holds(t, k) ==>
              exists y :: y in MergeSynced(t, batch) && ArrivesAs(y, m)
  {
    forall x | x in t && KeyOf(x) == k && k !in KeySet(batch) ensures x in MergeSynced(t, batch) {
      AbsentStays(t, batch, x);
      RecentStays(t, batch, x, times, u);
    }
    forall x, m | x in t && m in batch && KeyOf(x) == KeyOf(m) == k
      ensures MergeCopy(x, Incoming(m)) in MergeSynced(t, batch)
    {
      CopyArrives(t, batch, m, x);
      MergeCopyKeepsKey(x, Incoming(m));
      RecentStays(t, batch, MergeCopy(x, Incoming(m)), times, u);
    }
    forall m | m in batch && KeyOf(m) == k && !Holds(t, k)
      ensures exists y :: y in MergeSynced(t, batch) && ArrivesAs(y, m)
    {
      RecentDelivered(t, batch, m, times, u);
      NewArrives(t, batch, m);
      var y :| y in MergeAll(t, batch) && ArrivesAs(y, m);
      RecentStays(t, batch, y, times, u);
    }
  }
}
