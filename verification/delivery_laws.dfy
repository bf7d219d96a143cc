/** What each event does to an outbox, told by the statuses and not by the machine that moves them. */
module DeliveryLaws {
  import opened Common
  import opened Messages
  import opened Threads
  import opened Slotting
  import opened Exchange
  import opened Delivery

  /** Out of this device's hands: with a server, delivered or read. */
  predicate HandedOver(s: Option<Status>) {
    s == Some(Held) || s == Some(Status.Delivered) || s == Some(Status.Read)
  }

  lemma {:induction false} FoundFirst(t: Thread, test: Message -> bool, i: nat)
    requires i < |t| && test(t[i]) && forall j :: 0 <= j < i ==> !test(t[j])
    ensures FindFirst(t, test) == Some(i)
  {
    if i > 0 { FoundFirst(t[1..], test, i - 1); }
  }

  /** The message a report names: the first with that id. */
  ghost predicate Named(t: Thread, id: string, i: nat) {
    i < |t| && t[i].id == id && forall j :: 0 <= j < i ==> t[j].id != id
  }

  // ---------- reports ----------

  /** What one report makes of the message it names. */
  ghost predicate ReportDone(x: Message, y: Message, s: Status) {
    && y == x.(status := y.status, serverNote := y.serverNote)
    && (HandedOver(x.status) ==> HandedOver(y.status))
    && ((s == Status.Delivered || s == Status.Read) && Rank(x.status) < Rank(Some(s)) ==>
          y.status == Some(s) && y.serverNote == None)
    && (!HandedOver(x.status) ==> y.status == Some(s))
    && (HandedOver(x.status) && Rank(Some(s)) <= Rank(x.status) ==> y == x)
  }

  /**
    A report reaches the message it names and no other. News of delivery always counts, any
    status short of that; anything else counts while this device still has the message in
    hand, and nothing takes back what a server has or the peer got.
   */
  lemma ReportLaw(t: Thread, id: string, s: Status)
    ensures var r := SetStatus(t, id, s);
            && |r| == |t| && (forall i: nat :: i < |t| && !Named(t, id, i) ==> r[i] == t[i])
            && forall i: nat :: Named(t, id, i) ==> ReportDone(t[i], r[i], s)
  {
    var test, f := (m: Message) => m.id == id, FindFirst(t, (m: Message) => m.id == id);
    forall i: nat | Named(t, id, i) ensures f == Some(i) {
      FoundFirst(t, test, i);
    }
    if f.Some? {
      NamedFirst(t, id);
      ReportOf(t[f.value], s);
    }
  }

  lemma ReportOf(x: Message, s: Status)
    ensures ReportDone(x, Reported(x, s), s)
  {
  }

  lemma NamedFirst(t: Thread, id: string)
    ensures var f := FindFirst(t, (m: Message) => m.id == id); f.Some? ==> Named(t, id, f.value)
  {
    FirstIsFirst(t, (m: Message) => m.id == id);
  }

  lemma {:induction false} FirstIsFirst(t: Thread, test: Message -> bool)
    ensures var f := FindFirst(t, test); f.Some? ==> forall j :: 0 <= j < f.value ==> !test(t[j])
  {
    if t != [] && !test(t[0]) {
      FirstIsFirst(t[1..], test);
      var f := FindFirst(t[1..], test);
      if f.Some? {
        forall j | 0 <= j < f.value + 1 ensures !test(t[j]) {
          if j > 0 { assert t[j] == t[1..][j - 1]; }
        }
      }
    }
  }

  lemma WaitsAt(t: Thread, i: nat)
    requires UniqueKeys(t) && i < |t|
    ensures InOutbox(t, KeyOf(t[i])) <==> Waiting(t[i])
  {
    assert t[i] in t;
  }

  lemma WaitsElsewhere(t: Thread, r: Thread, i: nat, k: SyncKey)
    requires |r| == |t| && i < |t| && KeyOf(r[i]) == KeyOf(t[i]) != k
    requires forall j :: 0 <= j < |t| && j != i ==> r[j] == t[j]
    ensures InOutbox(r, k) <==> InOutbox(t, k)
  {
    if x :| x in t && KeyOf(x) == k && Waiting(x) {
      var j :| 0 <= j < |t| && t[j] == x;
      assert r[j] in r;
    }
    if x :| x in r && KeyOf(x) == k && Waiting(x) {
      var j :| 0 <= j < |r| && r[j] == x;
      assert t[j] in t;
    }
  }

  /** The message `r` changed alone decides about its own key. */
  lemma OutboxMoves(t: Thread, r: Thread, i: nat, k: SyncKey)
    requires UniqueKeys(t) && |r| == |t| && i < |t| && KeyOf(r[i]) == KeyOf(t[i])
    requires forall j :: 0 <= j < |t| && j != i ==> r[j] == t[j]
    ensures InOutbox(r, k) <==> if KeyOf(t[i]) == k then Waiting(r[i]) else InOutbox(t, k)
  {
    assert UniqueKeys(r) by {
      forall p, q | 0 <= p < q < |r| ensures KeyOf(r[p]) != KeyOf(r[q]) {
        assert KeyOf(r[p]) == KeyOf(t[p]) && KeyOf(r[q]) == KeyOf(t[q]);
      }
    }
    WaitsAt(r, i);
    if KeyOf(t[i]) != k { WaitsElsewhere(t, r, i, k); }
  }

  /** A report puts a message in the outbox only if this device still had it in hand, and out on any progress. */
  lemma OutboxAfterReport(t: Thread, id: string, s: Status, i: nat, k: SyncKey)
    requires UniqueKeys(t) && Named(t, id, i)
    ensures InOutbox(SetStatus(t, id, s), k) <==>
              if KeyOf(t[i]) == k
              then t[i].fromMe && !t[i].deleted && !HandedOver(t[i].status) && (s == Sending || s == Failed)
              else InOutbox(t, k)
  {
    var r := SetStatus(t, id, s);
    ReportLaw(t, id, s);
    forall j: nat | j < |t| && j != i ensures r[j] == t[j] {
      assert !Named(t, id, j);
    }
    assert ReportDone(t[i], r[i], s);
    OutboxMoves(t, r, i, k);
  }

  // ---------- servers, receipts, unsends ----------

  lemma OwnFirst(t: Thread, id: string, i: nat)
    requires UniqueKeys(t) && i < |t| && t[i].fromMe && t[i].id == id
    ensures FindFirst(t, (m: Message) => m.id == id && m.fromMe) == Some(i)
  {
    forall j | 0 <= j < i ensures !(t[j].id == id && t[j].fromMe) {
      assert KeyOf(t[j]) != KeyOf(t[i]);
    }
    FoundFirst(t, (m: Message) => m.id == id && m.fromMe, i);
  }

  lemma IndexOf(t: Thread, k: SyncKey) returns (i: nat)
    requires Holds(t, k)
    ensures i < |t| && KeyOf(t[i]) == k
  {
    var x :| x in t && KeyOf(x) == k;
    i :| 0 <= i < |t| && t[i] == x;
  }

  lemma OutboxHeld(t: Thread, k: SyncKey)
    ensures InOutbox(t, k) ==> Holds(t, k) && k.0
  {
  }

  /** The message a server takes leaves the outbox, and only that one. */
  lemma OutboxAfterHold(t: Thread, id: string, k: SyncKey)
    requires UniqueKeys(t)
    ensures InOutbox(SetHeld(t, id), k) <==> InOutbox(t, k) && k.1 != id
    ensures InOutbox(t, (true, id)) ==>
              exists y :: y in SetHeld(t, id) && KeyOf(y) == (true, id)
                          && y.status == Some(Held) && y.serverNote == None
  {
    var r := SetHeld(t, id);
    OutboxHeld(t, k);
    OutboxHeld(r, k);
    if Holds(t, (true, id)) {
      var i := IndexOf(t, (true, id));
      OwnFirst(t, id, i);
      OutboxMoves(t, r, i, k);
      WaitsAt(t, i);
      assert r[i] in r;
    }
  }

  ghost predicate HeldAway(t: Thread, k: SyncKey) {
    exists x :: x in t && KeyOf(x) == k && x.status == Some(Held) && !x.deleted
  }

  /** A message the server gives up on is back in the outbox, with the note; nothing else moves. */
  lemma OutboxAfterGiveUp(t: Thread, id: string, note: string, k: SyncKey)
    requires UniqueKeys(t)
    ensures InOutbox(SetServerFailed(t, id, note), k) <==> InOutbox(t, k) || (k == (true, id) && HeldAway(t, k))
    ensures forall y :: y in SetServerFailed(t, id, note) && KeyOf(y) == (true, id) && Waiting(y) ==>
              y.status == Some(Failed) && y.serverNote == Some(note)
  {
    var r := SetServerFailed(t, id, note);
    OutboxHeld(t, k);
    OutboxHeld(r, k);
    if Holds(t, (true, id)) {
      var i := IndexOf(t, (true, id));
      OwnFirst(t, id, i);
      OutboxMoves(t, r, i, k);
      WaitsAt(t, i);
      GivenUp(t, i, note);
      forall y | y in r && KeyOf(y) == (true, id) ensures y == r[i] {
        var j :| 0 <= j < |r| && r[j] == y;
        assert KeyOf(r[j]) == KeyOf(t[j]);
      }
    } else {
      forall y | y in r ensures KeyOf(y) != (true, id) {
        assert y in t;
      }
    }
  }

  lemma GivenUp(t: Thread, i: nat, note: string)
    requires UniqueKeys(t) && i < |t| && t[i].fromMe
    ensures var y := ServerGaveUp(t[i], note);
            && KeyOf(y) == KeyOf(t[i]) && (Waiting(y) ==> y.status == Some(Failed) && y.serverNote == Some(note))
            && (Waiting(y) <==> Waiting(t[i]) || HeldAway(t, KeyOf(t[i])))
  {
    if HeldAway(t, KeyOf(t[i])) {
      var x :| x in t && KeyOf(x) == KeyOf(t[i]) && x.status == Some(Held) && !x.deleted;
      var j :| 0 <= j < |t| && t[j] == x;
      assert j == i;
    }
    assert t[i] in t;
  }

  /** What a receipt up to `upTo` makes of a message: read, if it is ours and left this device by then. */
  ghost predicate ReadDone(x: Message, y: Message, upTo: U64) {
    && y == x.(status := y.status)
    && y.status == if x.fromMe && x.ts <= upTo && (x.status == Some(Sent) || HandedOver(x.status))
                   then Some(Status.Read) else x.status
  }

  /** A receipt reads what left this device, up to its time, and leaves every outbox as it was. */
  lemma OutboxAfterReceipt(t: Thread, upTo: U64, k: SyncKey)
    ensures var r := MarkReadUpTo(t, upTo);
            && (InOutbox(r, k) <==> InOutbox(t, k))
            && |r| == |t| && forall i :: 0 <= i < |t| ==> ReadDone(t[i], r[i], upTo)
  {
    var r := MarkReadUpTo(t, upTo);
    forall i | 0 <= i < |t| ensures ReadDone(t[i], r[i], upTo) {
      ReadsUpTo(t[i], upTo);
    }
    SameWaiting(t, r, k);
  }

  lemma ReadsUpTo(x: Message, upTo: U64)
    ensures ReadDone(x, ReadUpTo(x, upTo), upTo)
  {
  }

  lemma SameWaiting(t: Thread, r: Thread, k: SyncKey)
    requires |r| == |t| && forall i :: 0 <= i < |t| ==> KeyOf(r[i]) == KeyOf(t[i]) && (Waiting(r[i]) <==> Waiting(t[i]))
    ensures InOutbox(r, k) <==> InOutbox(t, k)
  {
    if x :| x in t && KeyOf(x) == k && Waiting(x) {
      var i :| 0 <= i < |t| && t[i] == x;
      assert r[i] in r;
    }
    if x :| x in r && KeyOf(x) == k && Waiting(x) {
      var i :| 0 <= i < |r| && r[i] == x;
      assert t[i] in t;
    }
  }

  /** An unsent message is sent by nobody. */
  lemma OutboxAfterUnsend(t: Thread, id: string, now: U64, k: SyncKey)
    requires UniqueKeys(t)
    ensures InOutbox(DeleteIn(t, id, true, now), k) <==> InOutbox(t, k) && k.1 != id
  {
    var r := DeleteIn(t, id, true, now);
    OutboxHeld(t, k);
    OutboxHeld(r, k);
    var test := (m: Message) => m.id == id && m.fromMe == true;
    if Holds(t, (true, id)) {
      var i := IndexOf(t, (true, id));
      forall j | 0 <= j < i ensures !test(t[j]) {
        assert KeyOf(t[j]) != KeyOf(t[i]);
      }
      FoundFirst(t, test, i);
      OutboxMoves(t, r, i, k);
      WaitsAt(t, i);
    }
  }

  /** A message written here waits as long as it is stored, and so does every other. */
  lemma OutboxAfterWrite(t: Thread, m: Message, k: SyncKey)
    requires UniqueKeys(t) && !Holds(t, KeyOf(m))
    ensures InOutbox(Appended(t, m), k) <==>
              Holds(Appended(t, m), k) && (InOutbox(t, k) || (KeyOf(m) == k && Waiting(m)))
  {
    AppendIsSafe(t, m);
    if Holds(Appended(t, m), k) && (InOutbox(t, k) || (KeyOf(m) == k && Waiting(m))) {
      var y :| y in Appended(t, m) && KeyOf(y) == k;
      if y in t {
        var i :| 0 <= i < |t| && t[i] == y;
        WaitsAt(t, i);
        assert Holds(t, k);
      }
    }
  }

  // ---------- every run ----------

  /** Sync fills no outbox. */
  lemma {:induction false} SyncFillsNone(t: Thread, batch: seq<Message>, k: SyncKey)
    ensures InOutbox(MergeAll(t, batch), k) ==> InOutbox(t, k)
  {
    if batch != [] && InOutbox(MergeAll(t, batch), k) {
      WaitingBefore(MergeAll(t, batch[..|batch| - 1]), batch[|batch| - 1], k);
      SyncFillsNone(t, batch[..|batch| - 1], k);
    }
  }

  lemma SyncedFillsNone(t: Thread, batch: seq<Message>, k: SyncKey)
    ensures InOutbox(MergeSynced(t, batch), k) ==> InOutbox(t, k)
  {
    SyncFillsNone(t, batch, k);
    SortKeepsElements(MergeAll(t, batch));
    assert forall x :: x in MergeSynced(t, batch) ==> x in MergeAll(t, batch);
  }

  lemma ReportKeepsAway(t: Thread, id: string, s: Status, k: SyncKey)
    requires UniqueKeys(t) && HeldAway(t, k)
    ensures !InOutbox(SetStatus(t, id, s), k)
  {
    var i := AwayAt(t, k);
    var f := FindFirst(t, (m: Message) => m.id == id);
    if f.Some? {
      NamedFirst(t, id);
      OutboxAfterReport(t, id, s, f.value, k);
      assert KeyOf(t[f.value]) == k ==> f.value == i;
    }
  }

  lemma AwayAt(t: Thread, k: SyncKey) returns (i: nat)
    requires UniqueKeys(t) && HeldAway(t, k)
    ensures i < |t| && KeyOf(t[i]) == k && t[i].status == Some(Held) && !InOutbox(t, k)
  {
    i := IndexOf(t, k);
    WaitsAt(t, i);
    var x :| x in t && KeyOf(x) == k && x.status == Some(Held);
    assert t[i] == x;
  }

  lemma StillAway(d: Devices, e: Event, k: SyncKey)
    requires Orderly(d) && Possible(d, e) && !e.GiveUp?
    requires HeldAway(d.threads[e.i], k)
    ensures !InOutbox(Happens(d, e).threads[e.i], k)
  {
    var t := d.threads[e.i];
    var i := AwayAt(t, k);
    assert t[i] in t;
    match e
    case Write(_, m) => OutboxAfterWrite(t, m, k);
    case Hear(_, m) => OutboxAfterWrite(t, m, k);
    case Report(_, id, s) => ReportKeepsAway(t, id, s, k);
    case Hold(_, id) => OutboxAfterHold(t, id, k);
    case Receipt(_, upTo) => OutboxAfterReceipt(t, upTo, k);
    case Unsend(_, id, mine, now) =>
      if mine { OutboxAfterUnsend(t, id, now, k); } else { TheirsUnsent(t, id, now, k); }
    case Sync(source, _, keys) => SyncedFillsNone(t, Reverse(Select(d.threads[source], keys)), k);
    case _ =>
  }

  lemma TheirsUnsent(t: Thread, id: string, now: U64, k: SyncKey)
    requires UniqueKeys(t)
    ensures InOutbox(DeleteIn(t, id, false, now), k) <==> InOutbox(t, k)
  {
    var r := DeleteIn(t, id, false, now);
    var f := FindFirst(t, (m: Message) => m.id == id && m.fromMe == false);
    OutboxHeld(r, k);
    OutboxHeld(t, k);
    if f.Some? { OutboxMoves(t, r, f.value, k); }
  }

  /** In every run a message a server holds comes back to the outbox only when the server gives up on it. */
  lemma HeldReturnsByGivingUp(states: seq<Devices>, events: seq<Event>, n: nat, i: nat, k: SyncKey)
    requires DeviceRun(states, events) && n < |events| && i < |states[n].threads|
    requires HeldAway(states[n].threads[i], k) && InOutbox(states[n + 1].threads[i], k)
    ensures events[n].GiveUp? && events[n].i == i && k == (true, events[n].id)
  {
    var d, e := states[n], events[n];
    RunsAreOrderly(states, events, n);
    var j := AwayAt(d.threads[i], k);
    if !e.GiveUp? && e.i == i {
      StillAway(d, e, k);
    } else if e.GiveUp? && e.i == i {
      OutboxAfterGiveUp(d.threads[i], e.id, e.note, k);
    }
  }

  /** One delivered or read is in no outbox again, on any device that knows. */
  lemma DeliveredStaysOut(states: seq<Devices>, events: seq<Event>, n: nat, i: nat, x: Message)
    requires DeviceRun(states, events) && n < |events| && i < |states[n].threads|
    requires x in states[n].threads[i] && Rank(x.status) > 0
    ensures i < |states[n + 1].threads| && !InOutbox(states[n + 1].threads[i], KeyOf(x))
  {
    ProgressNeverFalls(states, events, n, i);
  }
}
