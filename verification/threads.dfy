/**
  One conversation: a list sorted by (order, ts, id), into which messages from other
  devices and threads are slotted by their time.
 */
module Threads {
  import opened Common
  import opened Sorting
  import opened Messages

  const MAX_PER_PEER: nat := 2000

  type Thread = seq<Message>

  // ---------- the sort key ----------

  /** Strings in code point order. */
  predicate IdLeq(a: string, b: string) {
    a == [] || (b != [] && (a[0] < b[0] || (a[0] == b[0] && IdLeq(a[1..], b[1..]))))
  }

  lemma {:induction false} IdTotal(a: string, b: string)
    ensures IdLeq(a, b) || IdLeq(b, a)
  {
    if a != [] && b != [] && a[0] == b[0] { IdTotal(a[1..], b[1..]); }
  }

  lemma {:induction false} IdTransitive(a: string, b: string, c: string)
    requires IdLeq(a, b) && IdLeq(b, c)
    ensures IdLeq(a, c)
  {
    if a != [] && a[0] == b[0] && b[0] == c[0] { IdTransitive(a[1..], b[1..], c[1..]); }
  }

  /** `order_key(a) <= order_key(b)`. */
  predicate KeyLeq(a: Message, b: Message) {
    a.order < b.order || (a.order == b.order && (a.ts < b.ts || (a.ts == b.ts && IdLeq(a.id, b.id))))
  }

  lemma KeyLeqIsOrder(a: Message, b: Message, c: Message)
    ensures KeyLeq(a, b) || KeyLeq(b, a)
    ensures KeyLeq(a, b) && KeyLeq(b, c) ==> KeyLeq(a, c)
  {
    IdTotal(a.id, b.id);
    if IdLeq(a.id, b.id) && IdLeq(b.id, c.id) { IdTransitive(a.id, b.id, c.id); }
  }

  // ---------- the stable sort ----------

  ghost predicate Sorted(t: Thread) {
    SortedBy(t, KeyLeq)
  }

  /** Insert after every message that does not sort later: one step of the stable sort. */
  function Insert(t: Thread, m: Message): (r: Thread)
    ensures |r| == |t| + 1
  {
    Place(t, m, KeyLeq)
  }

  function Sort(t: Thread): (r: Thread)
    ensures |r| == |t|
  {
    SortBy(t, KeyLeq)
  }

  lemma SortElements(t: Thread, x: Message)
    ensures x in Sort(t) <==> x in t
  {
    SortByElements(t, KeyLeq);
    assert x in Sort(t) <==> x in multiset(Sort(t));
  }

  /** Where a message goes in a sorted thread. */
  function InsertAt(t: Thread, m: Message): (k: nat)
    ensures k <= |t|
  {
    if t == [] || KeyLeq(t[|t| - 1], m) then |t| else InsertAt(t[..|t| - 1], m)
  }

  lemma {:induction false} InsertSplits(t: Thread, m: Message)
    requires Sorted(t)
    ensures var k := InsertAt(t, m);
            && Insert(t, m) == t[..k] + [m] + t[k..]
            && (forall i :: 0 <= i < k ==> KeyLeq(t[i], m))
            && (forall i :: k <= i < |t| ==> !KeyLeq(t[i], m))
  {
    if t == [] || KeyLeq(t[|t| - 1], m) {
      forall i | 0 <= i < |t| ensures KeyLeq(t[i], m) {
        if i < |t| - 1 { KeyLeqIsOrder(t[i], t[|t| - 1], m); }
      }
    } else {
      InsertSplits(t[..|t| - 1], m);
    }
  }

  lemma KeyLeqIsTotal()
    ensures TotalOrder(KeyLeq)
  {
    forall a, b ensures KeyLeq(a, b) || KeyLeq(b, a) {
      KeyLeqIsOrder(a, b, a);
    }
    forall a, b, c | KeyLeq(a, b) && KeyLeq(b, c) ensures KeyLeq(a, c) {
      KeyLeqIsOrder(a, b, c);
    }
  }

  lemma InsertKeepsSorted(t: Thread, m: Message)
    requires Sorted(t)
    ensures Sorted(Insert(t, m))
  {
    KeyLeqIsTotal();
    PlaceKeepsSorted(t, m, KeyLeq);
  }

  lemma SortIsSorted(t: Thread)
    ensures Sorted(Sort(t))
  {
    KeyLeqIsTotal();
    SortByIsSorted(t, KeyLeq);
  }

  lemma {:induction false} SortedIsFixed(t: Thread)
    requires Sorted(t)
    ensures Sort(t) == t
  {
    if t != [] {
      SortedIsFixed(t[..|t| - 1]);
      var init, m := t[..|t| - 1], t[|t| - 1];
      assert init == [] || KeyLeq(init[|init| - 1], m);
      assert t == init + [m];
    }
  }

  /** No two messages sort alike. */
  ghost predicate NoTwoAlike(t: Thread) {
    forall x, y :: x in t && y in t && SortsAlike(x, y) ==> x == y
  }

  predicate SortsAlike(x: Message, y: Message) {
    x.order == y.order && x.ts == y.ts && x.id == y.id
  }

  lemma {:induction false} IdsApart(a: string, b: string)
    requires IdLeq(a, b) && IdLeq(b, a)
    ensures a == b
  {
    if a != [] {
      assert a == [a[0]] + a[1..] && b == [b[0]] + b[1..];
      IdsApart(a[1..], b[1..]);
    }
  }

  lemma OneLast(s: Thread, t: Thread)
    requires Sorted(s) && Sorted(t) && NoTwoAlike(s) && multiset(s) == multiset(t) && s != [] && t != []
    ensures s[|s| - 1] == t[|t| - 1]
  {
    var x, y := s[|s| - 1], t[|t| - 1];
    assert x in multiset(t) && y in multiset(s);
    LastIsLargest(s, y);
    LastIsLargest(t, x);
    assert x.order == y.order && x.ts == y.ts;
    IdsApart(x.id, y.id);
    assert SortsAlike(x, y) && x in s && y in s;
  }

  lemma WithoutLast(s: Thread, t: Thread)
    requires s != [] && t != [] && s[|s| - 1] == t[|t| - 1] && multiset(s) == multiset(t)
    ensures multiset(s[..|s| - 1]) == multiset(t[..|t| - 1])
  {
    assert s == s[..|s| - 1] + [s[|s| - 1]] && t == t[..|t| - 1] + [t[|t| - 1]];
    assert multiset(s[..|s| - 1]) == multiset(s) - multiset{s[|s| - 1]};
    assert multiset(t[..|t| - 1]) == multiset(t) - multiset{t[|t| - 1]};
  }

  /** There is one order: number, then time, then id. */
  lemma {:induction false} OneSorting(s: Thread, t: Thread)
    requires Sorted(s) && Sorted(t) && NoTwoAlike(s) && multiset(s) == multiset(t)
    ensures s == t
  {
    assert |s| == |multiset(s)| == |multiset(t)| == |t|;
    if s != [] {
      OneLast(s, t);
      WithoutLast(s, t);
      assert forall x :: x in s[..|s| - 1] ==> x in s;
      OneSorting(s[..|s| - 1], t[..|t| - 1]);
      assert s == s[..|s| - 1] + [s[|s| - 1]] && t == t[..|t| - 1] + [t[|t| - 1]];
    }
  }

  lemma LastIsLargest(t: Thread, x: Message)
    requires Sorted(t) && x in t
    ensures KeyLeq(x, t[|t| - 1])
  {
    KeyLeqIsTotal();
  }

  function Trim(t: Thread): Thread {
    if |t| > MAX_PER_PEER then t[|t| - MAX_PER_PEER..] else t
  }

  // ---------- identity ----------

  predicate Holds(t: Thread, key: SyncKey) {
    exists x :: x in t && KeyOf(x) == key
  }

  ghost predicate UniqueKeys(t: Thread) {
    forall i, j :: 0 <= i < j < |t| ==> KeyOf(t[i]) != KeyOf(t[j])
  }

  /** What every stored thread keeps. */
  ghost predicate ValidThread(t: Thread) {
    Sorted(t) && UniqueKeys(t) && |t| <= MAX_PER_PEER
  }

  lemma InsertKeepsUnique(t: Thread, m: Message)
    requires Sorted(t) && UniqueKeys(t) && !Holds(t, KeyOf(m))
    ensures UniqueKeys(Insert(t, m))
  {
    InsertSplits(t, m);
    var k := InsertAt(t, m);
    forall i | 0 <= i < |t| ensures KeyOf(t[i]) != KeyOf(m) {
      assert t[i] in t;
    }
  }

  // ---------- the Lamport clock ----------

  function MaxOrder(t: Thread): (r: U64)
    ensures forall x :: x in t ==> x.order <= r
    ensures t == [] ==> r == 0
  {
    if t == [] then 0
    else
      assert t == t[..|t| - 1] + [t[|t| - 1]];
      Max(MaxOrder(t[..|t| - 1]), t[|t| - 1].order)
  }

  lemma {:induction false} MaxOrderIsLeast(t: Thread, bound: U64)
    requires forall x :: x in t ==> x.order <= bound
    ensures MaxOrder(t) <= bound
  {
    if t != [] {
      assert t == t[..|t| - 1] + [t[|t| - 1]];
      MaxOrderIsLeast(t[..|t| - 1], bound);
    }
  }

  const SEQ_LEAP: U64 := 1_000_000

  /** The number for a message written here. */
  function NextSeq(t: Thread): U64 {
    SatAdd(MaxOrder(t), 1)
  }

  /** The number for a message someone sent us, bounded. */
  function CapSeq(theirs: U64, next: U64): U64 {
    Max(Min(theirs, SatAdd(next, SEQ_LEAP)), next)
  }

  // ---------- storing one message ----------

  predicate SameLink(t: Thread, m: Message) {
    m.fileXferId.Some? && exists x :: x in t && x.fromMe == m.fromMe && x.fileXferId == m.fileXferId
  }

  /** Already stored, or a second card for the same transfer. */
  predicate Duplicate(t: Thread, m: Message) {
    Holds(t, KeyOf(m)) || SameLink(t, m)
  }

  function Appended(t: Thread, m: Message): Thread {
    Trim(Sort(t + [m]))
  }

  /** What the bound pushes out. */
  function Overflow(t: Thread): Thread {
    if |t| > MAX_PER_PEER then t[..|t| - MAX_PER_PEER] else []
  }

  function WithoutKey(t: Thread, key: SyncKey): Thread {
    if t == [] then []
    else if KeyOf(t[0]) == key then WithoutKey(t[1..], key)
    else [t[0]] + WithoutKey(t[1..], key)
  }

  /** Put back what was trimmed from `s` in front of the rest without `key`. */
  function UndoOf(s: Thread, key: SyncKey): Thread {
    Overflow(s) + WithoutKey(Trim(s), key)
  }

  /** The undo after a failed durable write. */
  function Undone(t: Thread, m: Message): Thread {
    UndoOf(Sort(t + [m]), KeyOf(m))
  }

  lemma SortOfAppended(t: Thread, m: Message)
    requires Sorted(t)
    ensures Sort(t + [m]) == Insert(t, m)
  {
    SortedIsFixed(t);
    assert (t + [m])[..|t|] == t;
  }

  /** Storing a message keeps the thread valid. */
  lemma AppendKeepsValid(t: Thread, m: Message)
    requires ValidThread(t) && !Holds(t, KeyOf(m))
    ensures ValidThread(Appended(t, m))
  {
    SortOfAppended(t, m);
    InsertKeepsSorted(t, m);
    InsertKeepsUnique(t, m);
  }

  /** A stored message is added, or the one that sorts first goes: exactly the newest are kept. */
  lemma AppendKeepsNewest(t: Thread, m: Message, x: Message)
    requires ValidThread(t) && !Holds(t, KeyOf(m)) && (x in t || x == m)
    ensures x !in Appended(t, m) ==>
              |Appended(t, m)| == MAX_PER_PEER && forall y :: y in Appended(t, m) ==> KeyLeq(x, y)
    ensures |Appended(t, m)| == if |t| < MAX_PER_PEER then |t| + 1 else MAX_PER_PEER
    ensures forall y :: y in Appended(t, m) ==> y in t || y == m
  {
    var s, r := Sort(t + [m]), Appended(t, m);
    SortIsSorted(t + [m]);
    SortElements(t + [m], x);
    forall y | y in r ensures y in t || y == m {
      SortElements(t + [m], y);
    }
    if x !in r {
      var i :| 0 <= i < |s| && s[i] == x;
      forall y | y in r ensures KeyLeq(x, y) {
        var j :| 0 <= j < |r| && r[j] == y;
        assert r[j] == s[|s| - |r| + j] && i < |s| - |r|;
      }
    }
  }

  lemma {:induction false} WithoutAbsentKey(t: Thread, key: SyncKey)
    requires forall x :: x in t ==> KeyOf(x) != key
    ensures WithoutKey(t, key) == t
  {
    if t != [] {
      assert t == [t[0]] + t[1..];
      WithoutAbsentKey(t[1..], key);
    }
  }

  lemma {:induction false} WithoutInserted(a: Thread, m: Message, b: Thread)
    requires forall x :: x in a + b ==> KeyOf(x) != KeyOf(m)
    ensures WithoutKey(a + [m] + b, KeyOf(m)) == a + b
  {
    if a == [] {
      WithoutAbsentKey(b, KeyOf(m));
      assert [m] + b == a + [m] + b;
      assert a + b == b;
    } else {
      assert a == [a[0]] + a[1..];
      assert (a + [m] + b)[1..] == a[1..] + [m] + b;
      WithoutInserted(a[1..], m, b);
      assert [a[0]] + (a[1..] + b) == a + b;
    }
  }

  lemma UndoSplit(a: Thread, m: Message, b: Thread)
    requires |a| + |b| <= MAX_PER_PEER
    requires forall x :: x in a + b ==> KeyOf(x) != KeyOf(m)
    ensures UndoOf(a + [m] + b, KeyOf(m)) == if |a| + |b| == MAX_PER_PEER && a == [] then [m] + b else a + b
  {
    var s := a + [m] + b;
    if |s| <= MAX_PER_PEER {
      WithoutInserted(a, m, b);
    } else if a == [] {
      assert s[..1] == [m] && s[1..] == b;
      assert a + b == b;
      WithoutAbsentKey(b, KeyOf(m));
    } else {
      assert s[..1] == [a[0]] && s[1..] == a[1..] + [m] + b;
      assert a + b == [a[0]] + (a[1..] + b);
      WithoutInserted(a[1..], m, b);
    }
  }

  lemma UndoneAt(s: Thread, t: Thread, m: Message, k: nat)
    requires |t| <= MAX_PER_PEER && k <= |t| && s == t[..k] + [m] + t[k..]
    requires forall x :: x in t ==> KeyOf(x) != KeyOf(m)
    ensures UndoOf(s, KeyOf(m)) == if |t| == MAX_PER_PEER && k == 0 then [m] + t else t
  {
    var a, b := t[..k], t[k..];
    assert a + b == t;
    UndoSplit(a, m, b);
    if k == 0 { assert b == t; }
  }

  lemma UndoneIs(t: Thread, m: Message)
    requires Sorted(t) && |t| <= MAX_PER_PEER
    requires forall x :: x in t ==> KeyOf(x) != KeyOf(m)
    ensures Undone(t, m) == if |t| == MAX_PER_PEER && InsertAt(t, m) == 0 then [m] + t else t
  {
    SortOfAppended(t, m);
    InsertSplits(t, m);
    UndoneAt(Insert(t, m), t, m, InsertAt(t, m));
  }

  /**
    A failed durable write restores the thread exactly, unless the thread is full and the
    message sorts before everything in it: then it is the one trimmed, and the undo puts
    it back.
   */
  lemma UndoRestoresExactly(t: Thread, m: Message)
    requires ValidThread(t) && !Duplicate(t, m)
    ensures Undone(t, m) == t <==> !(|t| == MAX_PER_PEER && !KeyLeq(t[0], m))
  {
    UndoneIs(t, m);
    InsertSplits(t, m);
    assert |[m] + t| != |t|;
  }

  /** A message stamped by this clock, or an incoming one bounded by it, sorts after all stored ones. */
  lemma StampedSortsLast(t: Thread, m: Message, theirs: U64)
    requires m.order == NextSeq(t) || m.order == CapSeq(theirs, NextSeq(t))
    requires MaxOrder(t) < U64_MAX
    ensures forall x :: x in t ==> x.order < m.order && KeyLeq(x, m) && !KeyLeq(m, x)
  {
  }

  /** So its failed durable write always restores the thread. */
  lemma StampedUndoRestores(t: Thread, m: Message, theirs: U64)
    requires ValidThread(t) && !Duplicate(t, m) && MaxOrder(t) < U64_MAX
    requires m.order == NextSeq(t) || m.order == CapSeq(theirs, NextSeq(t))
    ensures Undone(t, m) == t
  {
    StampedSortsLast(t, m, theirs);
    UndoRestoresExactly(t, m);
    if |t| == MAX_PER_PEER { assert t[0] in t; }
  }

  /** `m` carries the number this clock gives it. */
  predicate Stamped(t: Thread, m: Message, theirs: U64) {
    m.order == NextSeq(t) || m.order == CapSeq(theirs, NextSeq(t))
  }

  /** No number in `t'` is past the largest in `t`: slotting, trimming, editing, merging copies. */
  ghost predicate NoNewNumbers(t: Thread, t': Thread) {
    forall x :: x in t' ==> x.order <= MaxOrder(t)
  }

  datatype Numbering = Store(m: Message, theirs: U64) | Other

  ghost predicate Numbers(t: Thread, step: Numbering, t': Thread) {
    match step
    case Store(m, theirs) => Stamped(t, m, theirs) && t' == Appended(t, m)
    case Other => NoNewNumbers(t, t')
  }

  /** A conversation from empty on; each step stores one stamped message or adds no new number. */
  ghost predicate NumberedRun(states: seq<Thread>, steps: seq<Numbering>) {
    && |states| == |steps| + 1 && states[0] == []
    && forall i :: 0 <= i < |steps| ==> Numbers(states[i], steps[i], states[i + 1])
  }

  /** How many of the first `n` steps store a message. */
  function Stores(steps: seq<Numbering>, n: nat): nat
    requires n <= |steps|
  {
    if n == 0 then 0 else Stores(steps, n - 1) + if steps[n - 1].Store? then 1 else 0
  }

  lemma StoreStaysBounded(t: Thread, m: Message, theirs: U64, bound: nat)
    requires MaxOrder(t) <= bound && Stamped(t, m, theirs)
    ensures MaxOrder(Appended(t, m)) <= bound + 1_000_001
  {
    var t' := Appended(t, m);
    forall x | x in t' ensures x.order <= bound + 1_000_001 {
      SortElements(t + [m], x);
    }
    if bound + 1_000_001 <= U64_MAX {
      MaxOrderIsLeast(t', bound + 1_000_001);
    }
  }

  lemma StepStaysBounded(t: Thread, t': Thread, step: Numbering, bound: nat)
    requires MaxOrder(t) <= bound && Numbers(t, step, t')
    ensures MaxOrder(t') <= bound + if step.Store? then 1_000_001 else 0
  {
    match step
    case Store(m, theirs) => StoreStaysBounded(t, m, theirs, bound);
    case Other => MaxOrderIsLeast(t', MaxOrder(t));
  }

  function Bound(steps: seq<Numbering>, n: nat): nat
    requires n <= |steps|
  {
    if n == 0 then 0 else Bound(steps, n - 1) + if steps[n - 1].Store? then 1_000_001 else 0
  }

  lemma {:induction false} BoundIsProduct(steps: seq<Numbering>, n: nat)
    requires n <= |steps|
    ensures Bound(steps, n) == 1_000_001 * Stores(steps, n)
  {
    if n > 0 { BoundIsProduct(steps, n - 1); }
  }

  lemma {:induction false} StaysWithinBound(states: seq<Thread>, steps: seq<Numbering>, n: nat)
    requires NumberedRun(states, steps) && n < |states|
    ensures MaxOrder(states[n]) <= Bound(steps, n)
  {
    if n > 0 {
      StaysWithinBound(states, steps, n - 1);
      StepStaysBounded(states[n - 1], states[n - 1 + 1], steps[n - 1], Bound(steps, n - 1));
    }
  }

  /**
    After n stored messages, all stamped, no number is past 1,000,001 times n, however many
    syncs and edits came between, so the clock never gets stuck at its end.
   */
  lemma NumbersStayBounded(states: seq<Thread>, steps: seq<Numbering>, n: nat)
    requires NumberedRun(states, steps) && n < |states|
    ensures MaxOrder(states[n]) <= 1_000_001 * Stores(steps, n)
  {
    StaysWithinBound(states, steps, n);
    BoundIsProduct(steps, n);
  }

  /**
    A note of a file that waited on a server is stored with its number as it is, if that is not
    behind: one at the largest number leaves no later one, and the next message no longer sorts
    strictly after all others.
   */
  lemma UncappedNumberSticks(t: Thread, note: Message, theirs: U64)
    requires note.order == Max(theirs, NextSeq(t)) && ValidThread(t) && !Holds(t, KeyOf(note))
    ensures NextSeq(Appended(t, note)) > MaxOrder(Appended(t, note)) <==> note.order < U64_MAX
  {
    var r := Appended(t, note);
    forall x | x in r ensures x.order <= note.order {
      SortElements(t + [note], x);
    }
    AppendKeepsNewest(t, note, note);
    assert r[|r| - 1] in r && (note in r || r[|r| - 1].order == note.order);
    MaxOrderIsLeast(r, note.order);
  }

  /** Such a note, stored first of all, and the number the next message gets is its own again. */
  lemma LargestNumberSticks()
    ensures
      var note := BLANK.(id := "a", order := Max(U64_MAX, NextSeq([])));
      var r := Appended([], note);
      note in r && NextSeq(r) == note.order
  {
    var note := BLANK.(id := "a", order := U64_MAX);
    UncappedNumberSticks([], note, U64_MAX);
    assert Sort([] + [note]) == [note] by { assert [note][..0] == []; }
    MaxOrderIsLeast([note], U64_MAX);
  }
}
