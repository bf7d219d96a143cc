/** When synchronising takes a waiting message out of an outbox: a condition known before the merge. */
module OutboxBound {
  import opened Common
  import opened Messages
  import opened Threads
  import opened Slotting
  import opened Window
  import opened Delivery

  /** A thread in time order and a batch of any size, on one timetable. */
  ghost predicate Timely(t: Thread, batch: seq<Message>, times: Timetable) {
    ValidThread(t) && InTime(t) && Timed(t, times) && Timed(batch, times) && Distinct(times)
  }

  /** A message newer than one a thread holds is never skipped. */
  lemma NewerIsTaken(t: Thread, r: Thread, m: Message, x: Message)
    requires InTime(t) && Slotted(t, r) && x in t && m.ts > x.ts
    ensures !(|r| >= MAX_PER_PEER && m.ts < r[0].ts)
  {
    var i :| 0 <= i < |t| && t[i] == x;
    assert SameSlot(t[0], r[0]) && t[0].ts <= t[i].ts;
  }

  lemma {:induction false} NewerArrives(t: Thread, batch: seq<Message>, m: Message, x: Message)
    requires ValidThread(t) && InTime(t) && x in t && m in batch && m.ts > x.ts
    ensures Holds(MergeAll(t, batch), KeyOf(m))
  {
    var init, last := batch[..|batch| - 1], batch[|batch| - 1];
    assert batch == init + [last];
    var r := MergeAll(t, init);
    MergeAllSlots(t, init);
    if m == last {
      NewerIsTaken(t, r, m, x);
      OneHeld(r, m);
    } else {
      NewerArrives(t, init, m, x);
      MergeOneSlots(r, last);
      StillHolds(r, MergeOne(r, last), KeyOf(m));
    }
  }

  /** What is newer than `x` once everything is merged: what either side brings. */
  lemma NewerAfterMerge(t: Thread, batch: seq<Message>, x: Message, times: Timetable)
    requires Timely(t, batch, times) && x in t
    ensures var r := MergeAll(t, batch);
            Timed(r, times) && Above(Times(r), x.ts) == Above(Times(t) + Times(batch), x.ts)
  {
    var r, u := MergeAll(t, batch), Times(t) + Times(batch);
    MergeAllTimed(t, batch, times, u);
    MergeAllSlots(t, batch);
    forall w | w in Above(u, x.ts) ensures w in Times(r) {
      if w in Times(t) {
        var y :| y in t && y.ts == w;
        TimeStays(t, r, y);
      } else {
        var m :| m in batch && m.ts == w;
        NewerArrives(t, batch, m, x);
        var z :| z in r && KeyOf(z) == KeyOf(m);
        assert z.ts == w;
      }
    }
  }

  lemma TimeStays(t: Thread, r: Thread, y: Message)
    requires Slotted(t, r) && y in t
    ensures y.ts in Times(r)
  {
    var i :| 0 <= i < |t| && t[i] == y;
    assert SameSlot(t[i], r[i]) && r[i] in r;
  }

  /** A message of a slotted thread survives the bound exactly when fewer than a thread's worth are newer. */
  lemma KeptExactly(r: Thread, x: Message, times: Timetable)
    requires UniqueKeys(r) && TimeOrdered(r) && Timed(r, times) && Distinct(times) && x in r
    ensures x in Trim(Sort(r)) <==> |Above(Times(r), x.ts)| < MAX_PER_PEER
  {
    var s := Sort(r);
    SortKeepsUnique(r);
    SortKeepsElements(r);
    TimedIsStrict(s, times);
    InNewest(s, x, MAX_PER_PEER);
    assert Times(s) == Times(r);
  }

  lemma HeldExactly(t: Thread, batch: seq<Message>, x: Message, times: Timetable)
    requires Timely(t, batch, times) && x in t
    ensures Holds(MergeSynced(t, batch), KeyOf(x)) <==> |Above(Times(t) + Times(batch), x.ts)| < MAX_PER_PEER
  {
    var r := MergeAll(t, batch);
    SortedInTime(t);
    MergeAllSlots(t, batch);
    NewerAfterMerge(t, batch, x, times);
    var i :| 0 <= i < |t| && t[i] == x;
    assert SameSlot(x, r[i]) && r[i] in r;
    KeptExactly(r, r[i], times);
    SortKeepsElements(r);
    if y :| y in MergeSynced(t, batch) && KeyOf(y) == KeyOf(x) {
      assert y in r;
      OneOfKey(r, y, r[i]);
    }
  }

  lemma OneOfKey(r: Thread, x: Message, y: Message)
    requires UniqueKeys(r) && x in r && y in r && KeyOf(x) == KeyOf(y)
    ensures x == y
  {
  }

  /**
    Synchronising takes a waiting message out of the outbox exactly when a copy in the batch was
    delivered, read or unsent, or when two thousand newer messages push it past the bound.
   */
  lemma SyncEmptiesOutboxExactly(t: Thread, batch: seq<Message>, x: Message, times: Timetable)
    requires Timely(t, batch, times) && x in t && Waiting(x)
    ensures InOutbox(MergeSynced(t, batch), KeyOf(x)) <==>
              |Above(Times(t) + Times(batch), x.ts)| < MAX_PER_PEER && !Settles(batch, KeyOf(x))
  {
    OutboxAfterSync(t, batch, KeyOf(x));
    HeldExactly(t, batch, x, times);
  }

  // ---------- a message nobody sends ----------

  /** The i-th message of a long conversation; the very first still waits. */
  function Nth(i: nat): (m: Message)
    requires i <= MAX_PER_PEER
    ensures m.ts == i && |m.id| == i && m.fromMe && !m.deleted
  {
    BLANK.(id := seq(i, j => 'x'), ts := i, order := i, status := Some(if i == 0 then Sending else Status.Delivered))
  }

  function FullThread(): Thread {
    seq(MAX_PER_PEER, i requires 0 <= i < MAX_PER_PEER => Nth(i))
  }

  function NthTimes(): Timetable {
    map i | 0 <= i <= MAX_PER_PEER :: KeyOf(Nth(i)) := i
  }

  lemma FullThreadIsTimely()
    ensures Timely(FullThread(), [Nth(MAX_PER_PEER)], NthTimes())
  {
    var t := FullThread();
    forall i: nat, j: nat | i <= MAX_PER_PEER && j <= MAX_PER_PEER && KeyOf(Nth(i)) == KeyOf(Nth(j)) ensures i == j {
      assert |Nth(i).id| == |Nth(j).id|;
    }
    forall i, j | 0 <= i < j < |t| ensures KeyLeq(t[i], t[j]) && KeyOf(t[i]) != KeyOf(t[j]) {
      assert t[i] == Nth(i) && t[j] == Nth(j);
    }
  }

  lemma TimesOfBoth(a: Thread, b: Thread)
    ensures Times(a + b) == Times(a) + Times(b)
  {
  }

  lemma TwoThousandNewer()
    ensures |Above(Times(FullThread()) + Times([Nth(MAX_PER_PEER)]), 0)| == MAX_PER_PEER
  {
    var all := FullThread() + [Nth(MAX_PER_PEER)];
    forall i | 0 <= i < |all| ensures all[i].ts == i {
    }
    NewestByRank(all, 0, 1);
    TimesOfBoth(FullThread(), [Nth(MAX_PER_PEER)]);
  }

  /** A message that still waits under 1,999 newer ones is gone after one more arrives, though nobody delivered it. */
  lemma WaitingMessageIsLost()
    ensures var t, batch, k := FullThread(), [Nth(MAX_PER_PEER)], KeyOf(Nth(0));
            InOutbox(t, k) && !Settles(batch, k) && !InOutbox(MergeSynced(t, batch), k)
  {
    var t, x := FullThread(), Nth(0);
    assert t[0] == x && x in t;
    FullThreadIsTimely();
    TwoThousandNewer();
    SyncEmptiesOutboxExactly(t, [Nth(MAX_PER_PEER)], x, NthTimes());
    assert |Nth(MAX_PER_PEER).id| != |x.id|;
  }
}
