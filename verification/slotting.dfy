/** Slotting messages from another device or thread into this one by their time. */
module Slotting {
  import opened Common
  import opened Messages
  import opened Threads

  /** After the latest message that is not newer. */
  function SlotSeq(t: Thread, ts: U64): (r: U64)
    ensures forall x :: x in t && x.ts <= ts ==> x.order <= r
    ensures r == 0 || exists x :: x in t && x.ts <= ts && x.order == r
  {
    if t == [] then 0
    else
      assert t == t[..|t| - 1] + [t[|t| - 1]];
      var last, rest := t[|t| - 1], SlotSeq(t[..|t| - 1], ts);
      if last.ts <= ts then Max(rest, last.order) else rest
  }

  function FindKey(t: Thread, key: SyncKey): (r: Option<nat>)
    ensures r.Some? ==> r.value < |t| && KeyOf(t[r.value]) == key
    ensures r.None? ==> !Holds(t, key)
  {
    if t == [] then None
    else if KeyOf(t[0]) == key then Some(0)
    else
      assert t == [t[0]] + t[1..];
      match FindKey(t[1..], key)
      case None => None
      case Some(i) => Some(i + 1)
  }

  /** Merge one message from another own device; the thread is sorted after the batch. */
  function MergeOne(t: Thread, m0: Message): Thread {
    var m := Incoming(m0);
    match FindKey(t, KeyOf(m))
    case Some(i) => t[i := MergeCopy(t[i], m)]
    case None =>
      if |t| >= MAX_PER_PEER && m.ts < t[0].ts then t
      else t + [m.(order := SlotSeq(t, m.ts))]
  }

  function MergeAll(t: Thread, batch: seq<Message>): Thread {
    if batch == [] then t
    else MergeOne(MergeAll(t, batch[..|batch| - 1]), batch[|batch| - 1])
  }

  function MergeSynced(t: Thread, batch: seq<Message>): Thread {
    Trim(Sort(MergeAll(t, batch)))
  }

  /** Move one message of this device's own second thread of the same person. */
  function FoldOne(t: Thread, m: Message): Thread {
    if Holds(t, KeyOf(m)) then t else t + [m.(order := SlotSeq(t, m.ts))]
  }

  function FoldAll(t: Thread, moving: seq<Message>): Thread {
    if moving == [] then t
    else FoldOne(FoldAll(t, moving[..|moving| - 1]), moving[|moving| - 1])
  }

  function FoldInto(t: Thread, moving: seq<Message>): Thread {
    Trim(Sort(FoldAll(t, moving)))
  }

  // ---------- what a batch of slots keeps ----------

  /** Same message in the same place; what it shows may have changed. */
  predicate SameSlot(x: Message, y: Message) {
    KeyOf(x) == KeyOf(y) && x.order == y.order && x.ts == y.ts
  }

  /** The sort key never runs against the times. */
  ghost predicate TimeOrdered(t: Thread) {
    forall x, y :: x in t && y in t && x.order < y.order ==> x.ts <= y.ts
  }

  ghost predicate InTime(t: Thread) {
    forall i, j :: 0 <= i < j < |t| ==> t[i].ts <= t[j].ts
  }

  /** Each step updates one message where it is, skips it, or slots in a new one at the end. */
  ghost predicate SlotStep(t: Thread, t': Thread) {
    || (|t'| == |t| && forall i :: 0 <= i < |t| ==> SameSlot(t[i], t'[i]))
    || exists m: Message :: SlotsIn(t, t', m)
  }

  ghost predicate SlotsIn(t: Thread, t': Thread, m: Message) {
    !Holds(t, KeyOf(m)) && m.order == SlotSeq(t, m.ts) && t' == t + [m]
  }

  /** Everything about a message that no merge touches. */
  predicate SameCard(x: Message, y: Message) {
    SameSlot(x, y) && x.status == y.status && x.fileXferId == y.fileXferId
  }

  lemma LegacyKeepsCard(x: Message, m: Message)
    ensures SameCard(x, LegacyClocks(x, m))
  {
  }

  lemma MergeFieldsKeepsCard(x: Message, m: Message)
    ensures SameCard(x, MergeFields(x, m))
  {
    var m' := LegacyClocks(m, x);
    LegacyKeepsCard(x, m');
    MergeReadKeepsCard(LegacyClocks(x, m'), m');
    assert MergeFields(x, m) == MergeRead(LegacyClocks(x, m'), m');
  }

  lemma MergeReadKeepsCard(x: Message, m: Message)
    ensures SameCard(x, MergeRead(x, m))
  {
  }

  lemma MergeOneSlots(t: Thread, m: Message)
    ensures SlotStep(t, MergeOne(t, m))
  {
    var m' := Incoming(m);
    var f := FindKey(t, KeyOf(m'));
    if f.Some? {
      MergeFieldsKeepsCard(t[f.value], m');
    } else if !(|t| >= MAX_PER_PEER && m'.ts < t[0].ts) {
      assert SlotsIn(t, MergeOne(t, m), m'.(order := SlotSeq(t, m'.ts)));
    }
  }

  lemma FoldOneSlots(t: Thread, m: Message)
    ensures SlotStep(t, FoldOne(t, m))
  {
    if !Holds(t, KeyOf(m)) {
      assert SlotsIn(t, FoldOne(t, m), m.(order := SlotSeq(t, m.ts)));
    }
  }

  /** How a thread looks after some slots, before it is sorted. */
  ghost predicate Slotted(t: Thread, r: Thread) {
    && |t| <= |r|
    && (forall i :: 0 <= i < |t| ==> SameSlot(t[i], r[i]))
    && (forall i :: |t| <= i < |r| ==> !Holds(t, KeyOf(r[i])))
    && UniqueKeys(r)
  }

  lemma SameSlotsHold(t: Thread, t': Thread, key: SyncKey)
    requires |t| <= |t'| && forall i :: 0 <= i < |t| ==> SameSlot(t[i], t'[i])
    requires Holds(t, key)
    ensures Holds(t', key)
  {
    var x :| x in t && KeyOf(x) == key;
    var i :| 0 <= i < |t| && t[i] == x;
    assert t'[i] in t';
  }

  lemma StepKeepsSlotted(t: Thread, r: Thread, r': Thread)
    requires Slotted(t, r) && SlotStep(r, r')
    ensures Slotted(t, r')
  {
    if m: Message :| SlotsIn(r, r', m) {
      forall i | 0 <= i < |r| ensures KeyOf(r[i]) != KeyOf(m) {
        assert r[i] in r;
      }
      if Holds(t, KeyOf(m)) { SameSlotsHold(t, r, KeyOf(m)); }
    }
  }

  lemma SlotInKeepsTime(t: Thread, m: Message)
    requires TimeOrdered(t) && m.order == SlotSeq(t, m.ts)
    ensures TimeOrdered(t + [m])
  {
    if m.order != 0 {
      var z :| z in t && z.ts <= m.ts && z.order == m.order;
      assert forall x :: x in t && x.order < m.order ==> x.ts <= z.ts;
    }
  }

  lemma UpdateKeepsTime(t: Thread, t': Thread)
    requires TimeOrdered(t) && |t'| == |t| && forall i :: 0 <= i < |t| ==> SameSlot(t[i], t'[i])
    ensures TimeOrdered(t')
  {
    forall x, y | x in t' && y in t' && x.order < y.order ensures x.ts <= y.ts {
      var i :| 0 <= i < |t'| && t'[i] == x;
      var j :| 0 <= j < |t'| && t'[j] == y;
      assert t[i] in t && t[j] in t && SameSlot(t[i], x) && SameSlot(t[j], y);
    }
  }

  /** Slotting keeps the sort key in step with the times. */
  lemma StepKeepsTime(t: Thread, t': Thread)
    requires SlotStep(t, t') && TimeOrdered(t)
    ensures TimeOrdered(t')
  {
    if m: Message :| SlotsIn(t, t', m) {
      SlotInKeepsTime(t, m);
    } else {
      UpdateKeepsTime(t, t');
    }
  }

  lemma SlottedReflexive(t: Thread)
    requires UniqueKeys(t)
    ensures Slotted(t, t)
  {
  }

  lemma {:induction false} MergeAllSlots(t: Thread, batch: seq<Message>)
    requires UniqueKeys(t)
    ensures Slotted(t, MergeAll(t, batch))
    ensures TimeOrdered(t) ==> TimeOrdered(MergeAll(t, batch))
  {
    if batch != [] {
      var r := MergeAll(t, batch[..|batch| - 1]);
      MergeAllSlots(t, batch[..|batch| - 1]);
      MergeOneSlots(r, batch[|batch| - 1]);
      StepKeepsSlotted(t, r, MergeAll(t, batch));
      if TimeOrdered(t) { StepKeepsTime(r, MergeAll(t, batch)); }
    }
  }

  lemma {:induction false} FoldAllSlots(t: Thread, moving: seq<Message>)
    requires UniqueKeys(t)
    ensures Slotted(t, FoldAll(t, moving))
    ensures TimeOrdered(t) ==> TimeOrdered(FoldAll(t, moving))
  {
    if moving != [] {
      var r := FoldAll(t, moving[..|moving| - 1]);
      FoldAllSlots(t, moving[..|moving| - 1]);
      FoldOneSlots(r, moving[|moving| - 1]);
      StepKeepsSlotted(t, r, FoldAll(t, moving));
      if TimeOrdered(t) { StepKeepsTime(r, FoldAll(t, moving)); }
    }
  }

  // ---------- after the sort ----------

  /** The keys of `t` that are in `old`, in order. */
  function KeysIn(t: Thread, among: set<SyncKey>): seq<SyncKey> {
    if t == [] then []
    else KeysIn(t[..|t| - 1], among) + (if KeyOf(t[|t| - 1]) in among then [KeyOf(t[|t| - 1])] else [])
  }

  ghost function KeySet(t: Thread): set<SyncKey> {
    set x | x in t :: KeyOf(x)
  }

  lemma {:induction false} KeysInConcat(a: Thread, b: Thread, among: set<SyncKey>)
    ensures KeysIn(a + b, among) == KeysIn(a, among) + KeysIn(b, among)
  {
    if b == [] {
      assert a + b == a;
    } else {
      assert (a + b)[..|a + b| - 1] == a + b[..|b| - 1];
      KeysInConcat(a, b[..|b| - 1], among);
    }
  }

  /** Sorting in one more message leaves the others in their order. */
  lemma InsertKeepsOthers(t: Thread, m: Message, among: set<SyncKey>)
    requires Sorted(t) && KeyOf(m) !in among
    ensures KeysIn(Insert(t, m), among) == KeysIn(t, among)
  {
    InsertSplits(t, m);
    var k := InsertAt(t, m);
    assert t[..k] + t[k..] == t;
    KeysInAround(t[..k], m, t[k..], among);
  }

  lemma KeysInAround(a: Thread, m: Message, b: Thread, among: set<SyncKey>)
    requires KeyOf(m) !in among
    ensures KeysIn(a + [m] + b, among) == KeysIn(a + b, among)
  {
    KeysInConcat(a + [m], b, among);
    KeysInConcat(a, [m], among);
    KeysInConcat(a, b, among);
    assert [m][..0] == [];
  }

  lemma {:induction false} SortKeepsOld(a: Thread, news: Thread, among: set<SyncKey>)
    requires Sorted(a)
    requires forall m :: m in news ==> KeyOf(m) !in among
    ensures KeysIn(Sort(a + news), among) == KeysIn(a, among)
  {
    if news == [] {
      assert a + news == a;
      SortedIsFixed(a);
    } else {
      var init, m := news[..|news| - 1], news[|news| - 1];
      assert (a + news)[..|a + news| - 1] == a + init;
      SortKeepsOld(a, init, among);
      SortIsSorted(a + init);
      InsertKeepsOthers(Sort(a + init), m, among);
    }
  }

  lemma SameSlotsSorted(t: Thread, r: Thread)
    requires Sorted(t) && |t| == |r| && forall i :: 0 <= i < |t| ==> SameSlot(t[i], r[i])
    ensures Sorted(r)
  {
    forall i, j | 0 <= i < j < |r| ensures KeyLeq(r[i], r[j]) {
      assert KeyLeq(t[i], t[j]);
    }
  }

  lemma {:induction false} SameSlotsKeys(t: Thread, r: Thread, among: set<SyncKey>)
    requires |t| == |r| && forall i :: 0 <= i < |t| ==> SameSlot(t[i], r[i])
    ensures KeysIn(r, among) == KeysIn(t, among)
  {
    if t != [] { SameSlotsKeys(t[..|t| - 1], r[..|r| - 1], among); }
  }

  function Keys(t: Thread): seq<SyncKey> {
    seq(|t|, i requires 0 <= i < |t| => KeyOf(t[i]))
  }

  lemma {:induction false} KeysInAll(t: Thread, among: set<SyncKey>)
    requires KeySet(t) <= among
    ensures KeysIn(t, among) == Keys(t)
  {
    if t != [] {
      assert t == t[..|t| - 1] + [t[|t| - 1]];
      KeysInAll(t[..|t| - 1], among);
      assert KeyOf(t[|t| - 1]) in KeySet(t);
    }
  }

  /** What the bound cuts off the old messages is a front piece; the rest stay in their order. */
  ghost predicate KeepsOldOrder(t: Thread, t': Thread) {
    exists n: nat :: n <= |t| && KeysIn(t', KeySet(t)) == Keys(t)[n..]
  }

  lemma SortedSlotsKeepOld(t: Thread, r: Thread)
    requires Sorted(t) && Slotted(t, r)
    ensures KeysIn(Sort(r), KeySet(t)) == Keys(t)
  {
    var front, news := r[..|t|], r[|t|..];
    assert r == front + news;
    SameSlotsSorted(t, front);
    forall m | m in news ensures KeyOf(m) !in KeySet(t) {
      var i :| 0 <= i < |news| && news[i] == m;
      assert r[|t| + i] == m;
    }
    SortKeepsOld(front, news, KeySet(t));
    SameSlotsKeys(t, front, KeySet(t));
    KeysInAll(t, KeySet(t));
  }

  lemma OldOrderKept(t: Thread, r: Thread)
    requires Sorted(t) && Slotted(t, r)
    ensures KeepsOldOrder(t, Trim(Sort(r)))
  {
    var s, among := Sort(r), KeySet(t);
    SortedSlotsKeepOld(t, r);
    var cut := |s| - |Trim(s)|;
    assert s == s[..cut] + s[cut..];
    KeysInConcat(s[..cut], s[cut..], among);
    var n := |KeysIn(s[..cut], among)|;
    assert KeysIn(Trim(s), among) == Keys(t)[n..];
  }

  lemma {:induction false} SortKeepsUnique(t: Thread)
    requires UniqueKeys(t)
    ensures UniqueKeys(Sort(t))
  {
    if t != [] {
      var init, m := t[..|t| - 1], t[|t| - 1];
      SortKeepsUnique(init);
      SortIsSorted(init);
      if Holds(Sort(init), KeyOf(m)) {
        var x :| x in Sort(init) && KeyOf(x) == KeyOf(m);
        SortElements(init, x);
      }
      InsertKeepsUnique(Sort(init), m);
    }
  }

  lemma SortedInTime(t: Thread)
    requires Sorted(t)
    ensures TimeOrdered(t) <==> InTime(t)
  {
    assert forall i, j :: 0 <= i < j < |t| ==> KeyLeq(t[i], t[j]) && t[i].order <= t[j].order;
    if InTime(t) {
      forall x, y | x in t && y in t && x.order < y.order ensures x.ts <= y.ts {
        var i :| 0 <= i < |t| && t[i] == x;
        var j :| 0 <= j < |t| && t[j] == y;
        assert i < j;
      }
    }
    if TimeOrdered(t) {
      forall i, j | 0 <= i < j < |t| ensures t[i].ts <= t[j].ts {
        assert KeyLeq(t[i], t[j]) && t[i] in t && t[j] in t;
      }
    }
  }

  /** Sorting and bounding a slotted thread. */
  lemma FinishedThread(r: Thread)
    requires UniqueKeys(r)
    ensures ValidThread(Trim(Sort(r)))
    ensures TimeOrdered(r) ==> InTime(Trim(Sort(r)))
    ensures NoNewNumbers(r, Trim(Sort(r)))
  {
    SortKeepsUnique(r);
    SortIsSorted(r);
    SortKeepsElements(r);
    TrimKeepsValid(Sort(r));
  }

  lemma SortKeepsElements(r: Thread)
    ensures forall x :: x in Sort(r) <==> x in r
    ensures TimeOrdered(r) ==> InTime(Sort(r))
  {
    forall x ensures x in Sort(r) <==> x in r {
      SortElements(r, x);
    }
    SortIsSorted(r);
    if TimeOrdered(r) { SortedInTime(Sort(r)); }
  }

  lemma TrimKeepsValid(s: Thread)
    requires Sorted(s) && UniqueKeys(s)
    ensures ValidThread(Trim(s)) && (InTime(s) ==> InTime(Trim(s)))
    ensures forall x :: x in Trim(s) ==> x in s
  {
  }

  lemma {:induction false} MergeAllNumbers(t: Thread, batch: seq<Message>)
    ensures MaxOrder(MergeAll(t, batch)) <= MaxOrder(t)
  {
    if batch != [] {
      var r, r' := MergeAll(t, batch[..|batch| - 1]), MergeAll(t, batch);
      MergeAllNumbers(t, batch[..|batch| - 1]);
      MergeOneSlots(r, batch[|batch| - 1]);
      StepNumbers(r, r');
    }
  }

  lemma {:induction false} FoldAllNumbers(t: Thread, moving: seq<Message>)
    ensures MaxOrder(FoldAll(t, moving)) <= MaxOrder(t)
  {
    if moving != [] {
      var r, r' := FoldAll(t, moving[..|moving| - 1]), FoldAll(t, moving);
      FoldAllNumbers(t, moving[..|moving| - 1]);
      FoldOneSlots(r, moving[|moving| - 1]);
      StepNumbers(r, r');
    }
  }

  lemma StepNumbers(r: Thread, r': Thread)
    requires SlotStep(r, r')
    ensures MaxOrder(r') <= MaxOrder(r)
  {
    forall x | x in r' ensures x.order <= MaxOrder(r) {
      var i :| 0 <= i < |r'| && r'[i] == x;
      if i < |r| { assert r[i] in r; }
      if m: Message :| SlotsIn(r, r', m) {
        if m.order != 0 {
          var y :| y in r && y.ts <= m.ts && y.order == m.order;
        }
      }
    }
    MaxOrderIsLeast(r', MaxOrder(r));
  }

  /**
    After any batch from another own device a valid thread is valid, keys are unique, its
    old messages are in their old order with only the oldest cut off, and if it was in
    time order it still is. No new number is past the largest.
   */
  lemma SyncKeepsThread(t: Thread, batch: seq<Message>)
    requires ValidThread(t)
    ensures ValidThread(MergeSynced(t, batch))
    ensures InTime(t) ==> InTime(MergeSynced(t, batch))
    ensures KeepsOldOrder(t, MergeSynced(t, batch))
    ensures NoNewNumbers(t, MergeSynced(t, batch))
  {
    SortedInTime(t);
    MergeAllSlots(t, batch);
    FinishedThread(MergeAll(t, batch));
    OldOrderKept(t, MergeAll(t, batch));
    MergeAllNumbers(t, batch);
  }

  /** The same when this device folds its own second thread of the same person in. */
  lemma FoldKeepsThread(t: Thread, moving: seq<Message>)
    requires ValidThread(t)
    ensures ValidThread(FoldInto(t, moving))
    ensures InTime(t) ==> InTime(FoldInto(t, moving))
    ensures KeepsOldOrder(t, FoldInto(t, moving))
    ensures NoNewNumbers(t, FoldInto(t, moving))
  {
    SortedInTime(t);
    FoldAllSlots(t, moving);
    FinishedThread(FoldAll(t, moving));
    OldOrderKept(t, FoldAll(t, moving));
    FoldAllNumbers(t, moving);
  }

  // ---------- two devices, one listing ----------

  /** The newest `n`. */
  function Newest(t: Thread, n: nat): Thread {
    if |t| > n then t[|t| - n..] else t
  }

  ghost predicate StrictlyInTime(t: Thread) {
    forall i, j :: 0 <= i < j < |t| ==> t[i].ts < t[j].ts
  }

  /** Copies of one message carry one time, and different messages different times. */
  ghost predicate SameTimes(a: Thread, b: Thread) {
    forall x, y :: x in a && y in b ==> (KeyOf(x) == KeyOf(y) <==> x.ts == y.ts)
  }

  lemma LastIsNewest(t: Thread, x: Message)
    requires StrictlyInTime(t) && x in t
    ensures x.ts <= t[|t| - 1].ts
  {
  }

  /** The newest messages of either list are in the other. */
  ghost predicate NewestHeld(a: Thread, b: Thread, n: nat) {
    forall x :: x in Newest(a, n) ==> Holds(b, KeyOf(x))
  }

  ghost predicate Comparable(a: Thread, b: Thread) {
    StrictlyInTime(a) && StrictlyInTime(b) && SameTimes(a, b)
  }

  lemma NewestReaches(a: Thread, b: Thread, n: nat)
    requires Comparable(a, b) && n > 0 && a != [] && NewestHeld(a, b, n)
    ensures b != [] && a[|a| - 1].ts <= b[|b| - 1].ts
  {
    NewestSplit(a, n);
    var last := a[|a| - 1];
    assert last in Newest(a, n);
    var y :| y in b && KeyOf(y) == KeyOf(last);
    assert last in a;
    LastIsNewest(b, y);
  }

  lemma LastsAgree(a: Thread, b: Thread, n: nat)
    requires Comparable(a, b) && Comparable(b, a) && n > 0 && (a != [] || b != [])
    requires NewestHeld(a, b, n) && NewestHeld(b, a, n)
    ensures a != [] && b != [] && KeyOf(a[|a| - 1]) == KeyOf(b[|b| - 1])
  {
    if a != [] { NewestReaches(a, b, n); }
    if b != [] { NewestReaches(b, a, n); }
    assert a[|a| - 1] in a && b[|b| - 1] in b;
  }

  lemma DropLastComparable(a: Thread, b: Thread)
    requires Comparable(a, b) && a != [] && b != []
    ensures Comparable(a[..|a| - 1], b[..|b| - 1])
  {
    forall x | x in a[..|a| - 1] ensures x in a { }
    forall y | y in b[..|b| - 1] ensures y in b { }
  }

  /** Two lists in time order whose newest messages are in each other list them identically. */
  lemma {:induction false} NewestAgree(a: Thread, b: Thread, n: nat)
    requires Comparable(a, b) && Comparable(b, a) && NewestHeld(a, b, n) && NewestHeld(b, a, n)
    ensures Keys(Newest(a, n)) == Keys(Newest(b, n))
    decreases n
  {
    if n > 0 && (a != [] || b != []) {
      LastsAgree(a, b, n);
      DropLastHeld(a, b, n);
      DropLastHeld(b, a, n);
      DropLastComparable(a, b);
      DropLastComparable(b, a);
      NewestAgree(a[..|a| - 1], b[..|b| - 1], n - 1);
      NewestSplit(a, n);
      NewestSplit(b, n);
      KeysSplit(Newest(a[..|a| - 1], n - 1), a[|a| - 1]);
      KeysSplit(Newest(b[..|b| - 1], n - 1), b[|b| - 1]);
    }
  }

  lemma KeysSplit(t: Thread, m: Message)
    ensures Keys(t + [m]) == Keys(t) + [KeyOf(m)]
  {
  }

  /** A message other than the last one is held by the shorter list too. */
  lemma StillHeld(a: Thread, b: Thread, x: Message)
    requires Comparable(a, b) && a != [] && b != [] && KeyOf(a[|a| - 1]) == KeyOf(b[|b| - 1])
    requires x in a[..|a| - 1] && Holds(b, KeyOf(x))
    ensures Holds(b[..|b| - 1], KeyOf(x))
  {
    var y :| y in b && KeyOf(y) == KeyOf(x);
    var last := b[|b| - 1];
    assert b == b[..|b| - 1] + [last];
    var i :| 0 <= i < |a| - 1 && a[i] == x;
    assert a[i].ts < a[|a| - 1].ts && a[i] in a && a[|a| - 1] in a && last in b;
    assert y != last;
  }

  lemma DropLastHeld(a: Thread, b: Thread, n: nat)
    requires n > 0 && a != [] && b != [] && Comparable(a, b)
    requires KeyOf(a[|a| - 1]) == KeyOf(b[|b| - 1]) && NewestHeld(a, b, n)
    ensures NewestHeld(a[..|a| - 1], b[..|b| - 1], n - 1)
  {
    NewestSplit(a, n);
    forall x | x in Newest(a[..|a| - 1], n - 1) ensures Holds(b[..|b| - 1], KeyOf(x)) {
      StillHeld(a, b, x);
    }
  }

  lemma NewestSplit(a: Thread, n: nat)
    requires n > 0 && a != []
    ensures Newest(a, n) == Newest(a[..|a| - 1], n - 1) + [a[|a| - 1]]
  {
  }

  /** Two devices that hold the same messages with distinct times list them identically. */
  lemma SameMessagesSameListing(a: Thread, b: Thread)
    requires Comparable(a, b) && KeySet(a) == KeySet(b)
    ensures Keys(a) == Keys(b)
  {
    forall x | x in a ensures Holds(b, KeyOf(x)) {
      assert KeyOf(x) in KeySet(b);
    }
    forall y | y in b ensures Holds(a, KeyOf(y)) {
      assert KeyOf(y) in KeySet(a);
    }
    assert Comparable(b, a);
    NewestAgree(a, b, |a| + |b|);
  }
}
