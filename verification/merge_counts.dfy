/** What the counts of a merged batch mean. */
module MergeCounts {
  import opened Common
  import opened Messages
  import opened Threads
  import opened Slotting
  import opened Exchange
  import opened Window
  import opened ChatStore

  /** Times of the friend's messages that are not unsent, in order. */
  function NewsOf(t: seq<Message>): seq<U64> {
    if t == [] then []
    else
      var m := t[|t| - 1];
      NewsOf(t[..|t| - 1]) + if !m.fromMe && !m.deleted then [m.ts] else []
  }

  /** Of the first `n` in `r`, those not in `t` at their place with the same fingerprint. */
  function Differences(t: Thread, r: Thread, n: nat): nat
    requires n <= |r|
  {
    if n == 0 then 0
    else Differences(t, r, n - 1) + if n <= |t| && PrintOf(t[n - 1]) == PrintOf(r[n - 1]) then 0 else 1
  }

  lemma {:induction false} SameDifferences(t: Thread, r: Thread, r': Thread, n: nat)
    requires n <= |r| && n <= |r'| && r[..n] == r'[..n]
    ensures Differences(t, r, n) == Differences(t, r', n)
  {
    if n > 0 {
      assert r[..n - 1] == r[..n][..n - 1] && r'[..n - 1] == r'[..n][..n - 1];
      assert r[n - 1] == r[..n][n - 1] && r'[n - 1] == r'[..n][n - 1];
      SameDifferences(t, r, r', n - 1);
    }
  }

  /** One place changed that was as it had been. */
  lemma {:induction false} OneDifference(t: Thread, r: Thread, i: nat, y: Message, n: nat)
    requires i < n <= |r| && i < |t| && r[i] == t[i]
    ensures Differences(t, r[i := y], n) == Differences(t, r, n) + if PrintOf(y) == PrintOf(t[i]) then 0 else 1
  {
    if i == n - 1 {
      SameDifferences(t, r, r[i := y], n - 1);
    } else {
      OneDifference(t, r, i, y, n - 1);
    }
  }

  /** A message whose key no earlier one of the batch had is still as it was. */
  lemma FoundAsBefore(t: Thread, init: seq<Message>, k: SyncKey, i: nat)
    requires UniqueKeys(t) && UniqueKeys(init) && k !in KeySet(init)
    requires i < |MergeAll(t, init)| && KeyOf(MergeAll(t, init)[i]) == k
    ensures i < |t| && MergeAll(t, init)[i] == t[i]
  {
    var r := MergeAll(t, init);
    MergedComesFrom(t, init, r[i]);
    MergeAllSlots(t, init);
    OnePlace(t, r, i);
  }

  lemma OnePlace(t: Thread, r: Thread, i: nat)
    requires Slotted(t, r) && i < |r| && r[i] in t
    ensures i < |t| && r[i] == t[i]
  {
    var j :| 0 <= j < |t| && t[j] == r[i];
    assert SameSlot(t[j], r[j]);
  }

  lemma {:induction false} NothingDifferent(t: Thread, n: nat)
    requires n <= |t|
    ensures Differences(t, t, n) == 0
  {
    if n > 0 { NothingDifferent(t, n - 1); }
  }

  ghost predicate Counted(t: Thread, r: Thread, so: Tally) {
    |t| <= |r| && so.changed == Differences(t, r, |r|) && so.news == NewsOf(r[|t|..])
  }

  lemma CountFound(t: Thread, r: Thread, i: nat, y: Message, so: Tally)
    requires Counted(t, r, so) && i < |t| && r[i] == t[i]
    ensures Counted(t, r[i := y], CountMerged(t[i], y, so))
  {
    OneDifference(t, r, i, y, |r|);
    assert r[i := y][|t|..] == r[|t|..];
  }

  lemma CountArrived(t: Thread, r: Thread, x: Message, so: Tally)
    requires Counted(t, r, so)
    ensures Counted(t, r + [x], CountNew(x, so))
  {
    var r' := r + [x];
    assert r[..|r|] == r'[..|r|];
    SameDifferences(t, r, r', |r|);
    assert r'[|t|..][..|r| - |t|] == r[|t|..];
  }

  lemma CountStep(t: Thread, init: seq<Message>, m: Message)
    requires UniqueKeys(t) && UniqueKeys(init) && KeyOf(m) !in KeySet(init)
    requires Counted(t, MergeAll(t, init), TallyAll(t, init))
    ensures Counted(t, MergeOne(MergeAll(t, init), m), TallyOne(MergeAll(t, init), m, TallyAll(t, init)))
  {
    var r, so := MergeAll(t, init), TallyAll(t, init);
    var f := FindKey(r, KeyOf(m));
    if f.Some? {
      FoundAsBefore(t, init, KeyOf(m), f.value);
      CountFound(t, r, f.value, MergeCopy(t[f.value], Incoming(m)), so);
    } else {
      CountArrived(t, r, Incoming(m).(order := SlotSeq(r, Incoming(m).ts)), so);
    }
  }

  /**
    After a batch that names no message twice, `changed` counts the messages that are new or
    got another fingerprint, and the news are the times of the new ones the friend wrote and
    did not unsend, in the order they came.
   */
  lemma {:induction false} TallyCounts(t: Thread, batch: seq<Message>)
    requires UniqueKeys(t) && UniqueKeys(batch)
    ensures Counted(t, MergeAll(t, batch), TallyAll(t, batch))
  {
    if batch == [] {
      NothingDifferent(t, |t|);
    } else {
      var init, m := batch[..|batch| - 1], batch[|batch| - 1];
      KeysMore(batch);
      TallyCounts(t, init);
      CountStep(t, init, m);
    }
  }
}
