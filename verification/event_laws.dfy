/** What each event of a run of devices does, seen from the messages it is about. */
module EventLaws {
  import opened Common
  import opened Messages
  import opened Threads
  import opened Slotting
  import opened Exchange
  import opened Window
  import opened OneExchange
  import opened Delivery
  import opened DeliveryLaws

  ghost predicate NamesKey(t: Thread, id: string, k: SyncKey) {
    exists i: nat :: Named(t, id, i) && KeyOf(t[i]) == k
  }

  /** The message named is ours, still shown and still in this device's hands. */
  ghost predicate InHand(t: Thread, id: string, k: SyncKey) {
    exists i: nat :: Named(t, id, i) && KeyOf(t[i]) == k && t[i].fromMe && !t[i].deleted && !HandedOver(t[i].status)
  }

  /** Whether the message `k` of device `e.i` waits once `e` happened, told from what was there before. */
  ghost predicate WaitsAfter(d: Devices, e: Event, k: SyncKey)
    requires e.i < |d.threads|
  {
    var t := d.threads[e.i];
    match e
    case Write(_, m) => Holds(Appended(t, m), k) && (InOutbox(t, k) || (KeyOf(m) == k && !m.deleted))
    case Hear(_, m) => Holds(Appended(t, m), k) && InOutbox(t, k)
    case Report(_, id, s) =>
      if NamesKey(t, id, k) then InHand(t, id, k) && (s == Sending || s == Failed) else InOutbox(t, k)
    case Hold(_, id) => InOutbox(t, k) && k.1 != id
    case GiveUp(_, id, note) => InOutbox(t, k) || (k == (true, id) && HeldAway(t, k))
    case Unsend(_, id, mine, now) => InOutbox(t, k) && !(mine && k.1 == id)
    case _ => InOutbox(t, k)
  }

  lemma WaitsAfterReport(t: Thread, id: string, s: Status, k: SyncKey)
    requires UniqueKeys(t)
    ensures InOutbox(SetStatus(t, id, s), k) <==>
              if NamesKey(t, id, k) then InHand(t, id, k) && (s == Sending || s == Failed) else InOutbox(t, k)
  {
    var f := FindFirst(t, (m: Message) => m.id == id);
    forall j: nat | Named(t, id, j) ensures f == Some(j) {
      FoundFirst(t, (m: Message) => m.id == id, j);
    }
    if f.Some? {
      NamedFirst(t, id);
      OutboxAfterReport(t, id, s, f.value, k);
    } else {
      assert SetStatus(t, id, s) == t;
      assert forall i: nat :: i < |t| ==> t[i] in t;
    }
  }

  /** Every event but a sync does to an outbox exactly that; what a sync does is `SyncEmptiesOutboxExactly`. */
  lemma EventLaw(d: Devices, e: Event, k: SyncKey)
    requires Orderly(d) && Possible(d, e) && !e.Sync?
    ensures InOutbox(Happens(d, e).threads[e.i], k) <==> WaitsAfter(d, e, k)
  {
    var t := d.threads[e.i];
    match e
    case Write(_, m) => OutboxAfterWrite(t, m, k);
    case Hear(_, m) => OutboxAfterWrite(t, m, k);
    case Report(_, id, s) => WaitsAfterReport(t, id, s, k);
    case Hold(_, id) => OutboxAfterHold(t, id, k);
    case GiveUp(_, id, note) => OutboxAfterGiveUp(t, id, note, k);
    case Receipt(_, upTo) => OutboxAfterReceipt(t, upTo, k);
    case Unsend(_, id, mine, now) =>
      if mine { OutboxAfterUnsend(t, id, now, k); } else { TheirsUnsent(t, id, now, k); }
    case Try(_, id) =>
  }

  // ---------- syncs ----------

  lemma OneOfKey(t: Thread, k: SyncKey, p: Message, q: Message)
    requires UniqueKeys(t) && p in t && q in t && KeyOf(p) == k && KeyOf(q) == k
    ensures p == q
  {
  }

  lemma MergedRank(t: Thread, batch: seq<Message>, m: Message, y: Message)
    requires UniqueKeys(t) && UniqueKeys(batch) && m in batch && m.fromMe
    requires y in MergeAll(t, batch) && KeyOf(y) == KeyOf(m)
    ensures Rank(m.status) <= Rank(y.status)
  {
    MergedComesFrom(t, batch, y);
    if y in t {
      CopyArrives(t, batch, m, y);
      MergeAllUnique(t, batch);
      MergeCopyKeepsKey(y, Incoming(m));
      OneOfKey(MergeAll(t, batch), KeyOf(m), y, MergeCopy(y, Incoming(m)));
      MergedStatus(y, m);
    } else {
      var x: Message :| x in batch && FromCopy(t, x, y);
      CopyKey(t, x, y);
      OneOfKey(batch, KeyOf(m), x, m);
      if z :| z in t && KeyOf(z) == KeyOf(x) && y == MergeCopy(z, Incoming(x)) { MergedStatus(z, x); }
    }
  }

  /** What a sync brings of our own messages is delivered here at least as far as there. */
  lemma SyncBringsRank(t: Thread, source: Thread, keys: set<SyncKey>, x: Message, y: Message)
    requires UniqueKeys(t) && UniqueKeys(source) && x in source && KeyOf(x) in keys && x.fromMe
    requires y in MergeSynced(t, Reverse(Select(source, keys))) && KeyOf(y) == KeyOf(x)
    ensures Rank(x.status) <= Rank(y.status)
  {
    var batch := Reverse(Select(source, keys));
    SelectShape(source, keys);
    ReverseElements(Select(source, keys));
    InBatch(source, keys, x);
    SortKeepsElements(MergeAll(t, batch));
    assert y in MergeAll(t, batch) && Stripped(x) in batch;
    MergedRank(t, batch, Stripped(x), y);
  }

  // ---------- what else an event shows ----------

  /** The message an event is about, on the device it happens on. */
  ghost predicate EventShows(d: Devices, e: Event)
    requires e.i < |d.threads| && (e.Sync? ==> e.source < |d.threads|)
  {
    var t, t' := d.threads[e.i], Happens(d, e).threads[e.i];
    match e
    case Write(_, m) => m in t' || |t'| == MAX_PER_PEER
    case Hear(_, m) => m in t' || |t'| == MAX_PER_PEER
    case Try(i, id) => forall s: Status :: Possible(Happens(d, e), Report(i, id, s))
    case Report(_, id, s) => forall i: nat :: Named(t, id, i) ==> i < |t'| && ReportDone(t[i], t'[i], s)
    case Hold(_, id) =>
      InOutbox(t, (true, id)) ==> exists y :: y in t' && KeyOf(y) == (true, id) && y.status == Some(Held)
    case GiveUp(_, id, note) =>
      forall y :: y in t' && KeyOf(y) == (true, id) && Waiting(y) ==>
        y.status == Some(Failed) && y.serverNote == Some(note)
    case Receipt(_, upTo) => |t'| == |t| && forall i :: 0 <= i < |t| ==> ReadDone(t[i], t'[i], upTo)
    case Unsend(_, id, mine, now) => forall y :: y in t' && KeyOf(y) == (mine, id) ==> y.deleted
    case Sync(source, _, keys) =>
      forall x, y :: x in d.threads[source] && y in t' && KeyOf(x) == KeyOf(y) && KeyOf(x) in keys && x.fromMe ==>
        Rank(x.status) <= Rank(y.status)
  }

  lemma StoredShows(t: Thread, m: Message)
    requires UniqueKeys(t) && !Holds(t, KeyOf(m))
    ensures m in Appended(t, m) || |Appended(t, m)| == MAX_PER_PEER
  {
    SortKeepsElements(t + [m]);
  }

  lemma UnsendShows(t: Thread, id: string, mine: bool, now: U64, y: Message)
    requires UniqueKeys(t) && y in DeleteIn(t, id, mine, now) && KeyOf(y) == (mine, id)
    ensures y.deleted
  {
    var r := DeleteIn(t, id, mine, now);
    var f := FindFirst(t, (m: Message) => m.id == id && m.fromMe == mine);
    var j :| 0 <= j < |r| && r[j] == y;
    assert KeyOf(t[j]) == (mine, id) && t[j] in t;
  }

  lemma EventIsShown(d: Devices, e: Event)
    requires Orderly(d) && Possible(d, e)
    ensures EventShows(d, e)
  {
    var t, t' := d.threads[e.i], Happens(d, e).threads[e.i];
    match e
    case Write(_, m) => StoredShows(t, m);
    case Hear(_, m) => StoredShows(t, m);
    case Try(_, id) =>
    case Report(_, id, s) => ReportLaw(t, id, s);
    case Hold(_, id) => OutboxAfterHold(t, id, (true, id));
    case GiveUp(_, id, note) => OutboxAfterGiveUp(t, id, note, (true, id));
    case Receipt(_, upTo) => OutboxAfterReceipt(t, upTo, (true, ""));
    case Unsend(_, id, mine, now) =>
      forall y | y in t' && KeyOf(y) == (mine, id) ensures y.deleted {
        UnsendShows(t, id, mine, now, y);
      }
    case Sync(source, _, keys) =>
      forall x, y | x in d.threads[source] && y in t' && KeyOf(x) == KeyOf(y) && KeyOf(x) in keys && x.fromMe
        ensures Rank(x.status) <= Rank(y.status)
      {
        SyncBringsRank(t, d.threads[source], keys, x, y);
      }
  }
}
