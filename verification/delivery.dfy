/**
  The delivery status of messages sent from any number of own devices: who retries what,
  and what synchronising copies may change about it.
 */
module Delivery {
  import opened Common
  import opened Messages
  import opened Convergence
  import opened Threads
  import opened Slotting
  import opened Exchange

  // ---------- finding a message ----------

  /** The first message a test accepts. */
  function FindFirst(t: Thread, test: Message -> bool): (r: Option<nat>)
    ensures r.Some? ==> r.value < |t| && test(t[r.value])
    ensures r.None? ==> forall x :: x in t ==> !test(x)
  {
    if t == [] then None
    else if test(t[0]) then Some(0)
    else
      assert t == [t[0]] + t[1..];
      match FindFirst(t[1..], test)
      case None => None
      case Some(i) => Some(i + 1)
  }

  // ---------- the status machine ----------

  /** What a delivery report may change: never backwards, and a held message only forwards. */
  predicate ReportAllowed(current: Option<Status>, s: Status) {
    current != Some(s) &&
    match current
    case Some(Read) => false
    case Some(Delivered) => s == Read
    case Some(Held) => s == Delivered || s == Read
    case _ => true
  }

  function Reported(m: Message, s: Status): Message {
    if !ReportAllowed(m.status, s) then m
    else m.(status := Some(s), serverNote := if s == Delivered || s == Read then None else m.serverNote)
  }

  function SetStatus(t: Thread, id: string, s: Status): Thread {
    match FindFirst(t, (m: Message) => m.id == id)
    case None => t
    case Some(i) => t[i := Reported(t[i], s)]
  }

  /** A Transfer Server holds it now: only an undelivered message can be held. */
  function HeldNow(m: Message): Message {
    if m.status == Some(Sending) || m.status == Some(Failed) then m.(status := Some(Held), serverNote := None) else m
  }

  function SetHeld(t: Thread, id: string): Thread {
    match FindFirst(t, (m: Message) => m.id == id && m.fromMe)
    case None => t
    case Some(i) => t[i := HeldNow(t[i])]
  }

  /** The server gave up on it: back to this device's retries. */
  function ServerGaveUp(m: Message, note: string): Message {
    if m.status == Some(Held) || m.status == Some(Sending) || m.status == Some(Failed)
    then m.(status := Some(Failed), serverNote := Some(note)) else m
  }

  function SetServerFailed(t: Thread, id: string, note: string): Thread {
    match FindFirst(t, (m: Message) => m.id == id && m.fromMe)
    case None => t
    case Some(i) => t[i := ServerGaveUp(t[i], note)]
  }

  /** A read receipt covers what reached the peer, and nothing still waiting. */
  function ReadUpTo(m: Message, upTo: U64): Message {
    if m.fromMe && m.ts <= upTo && (m.status == Some(Delivered) || m.status == Some(Held) || m.status == Some(Sent))
    then m.(status := Some(Read)) else m
  }

  function MarkReadUpTo(t: Thread, upTo: U64): Thread {
    seq(|t|, i requires 0 <= i < |t| => ReadUpTo(t[i], upTo))
  }

  function DeleteIn(t: Thread, id: string, authorIsMe: bool, now: U64): Thread {
    match FindFirst(t, (m: Message) => m.id == id && m.fromMe == authorIsMe)
    case None => t
    case Some(i) => t[i := ApplyDelete(t[i], authorIsMe, now).value]
  }

  /** In the outbox: ours, not unsent, and not yet out. */
  predicate Waiting(m: Message) {
    m.fromMe && !m.deleted && (m.status == Some(Sending) || m.status == Some(Failed))
  }

  function Outbox(t: Thread): Thread {
    if t == [] then [] else (if Waiting(t[0]) then [t[0]] else []) + Outbox(t[1..])
  }

  lemma {:induction false} OutboxElements(t: Thread, m: Message)
    ensures m in Outbox(t) <==> m in t && Waiting(m)
  {
    if t != [] {
      assert t == [t[0]] + t[1..];
      OutboxElements(t[1..], m);
    }
  }

  predicate InOutbox(t: Thread, k: SyncKey) {
    exists m :: m in t && KeyOf(m) == k && Waiting(m)
  }

  /** This device is responsible for it: waiting here, or held for it by a server. */
  predicate Responsible(m: Message) {
    m.fromMe && (m.status == Some(Sending) || m.status == Some(Failed) || m.status == Some(Held))
  }

  // ---------- what one step does to one thread ----------

  /** Every message `t'` is responsible for, `t` already was. */
  ghost predicate NoNewDuty(t: Thread, t': Thread) {
    forall x :: x in t' && Responsible(x) ==> exists y :: y in t && KeyOf(y) == KeyOf(x) && Responsible(y)
  }

  /** Delivery progress of a message both hold never goes back. */
  ghost predicate RankGrows(t: Thread, t': Thread) {
    forall x, y :: x in t && y in t' && KeyOf(x) == KeyOf(y) ==> Rank(x.status) <= Rank(y.status)
  }

  lemma ReplaceOne(t: Thread, i: nat, y: Message)
    requires UniqueKeys(t) && i < |t| && KeyOf(y) == KeyOf(t[i]) && Rank(t[i].status) <= Rank(y.status)
    ensures RankGrows(t, t[i := y]) && UniqueKeys(t[i := y])
    ensures (Responsible(y) ==> Responsible(t[i])) ==> NoNewDuty(t, t[i := y])
  {
    var t' := t[i := y];
    forall p, q | p in t && q in t' && KeyOf(p) == KeyOf(q) ensures Rank(p.status) <= Rank(q.status) {
      var m :| 0 <= m < |t| && t[m] == p;
      var n :| 0 <= n < |t'| && t'[n] == q;
      assert m == n;
    }
    if Responsible(y) ==> Responsible(t[i]) {
      forall x | x in t' && Responsible(x) ensures exists z :: z in t && KeyOf(z) == KeyOf(x) && Responsible(z) {
        var n :| 0 <= n < |t'| && t'[n] == x;
        assert t[n] in t && KeyOf(t[n]) == KeyOf(x) && Responsible(t[n]);
      }
    }
  }

  lemma SameStays(t: Thread)
    requires UniqueKeys(t)
    ensures NoNewDuty(t, t) && RankGrows(t, t)
  {
  }

  ghost predicate Safe(t: Thread, t': Thread) {
    NoNewDuty(t, t') && RankGrows(t, t') && UniqueKeys(t')
  }

  /** The machine's own steps never go back, and give a device no new duty. */
  lemma HoldIsSafe(t: Thread, id: string)
    requires UniqueKeys(t)
    ensures Safe(t, SetHeld(t, id))
  {
    SameStays(t);
    var f := FindFirst(t, (m: Message) => m.id == id && m.fromMe);
    if f.Some? { ReplaceOne(t, f.value, HeldNow(t[f.value])); }
  }

  lemma GiveUpIsSafe(t: Thread, id: string, note: string)
    requires UniqueKeys(t)
    ensures Safe(t, SetServerFailed(t, id, note))
  {
    SameStays(t);
    var f := FindFirst(t, (m: Message) => m.id == id && m.fromMe);
    if f.Some? { ReplaceOne(t, f.value, ServerGaveUp(t[f.value], note)); }
  }

  lemma UnsendIsSafe(t: Thread, id: string, authorIsMe: bool, now: U64)
    requires UniqueKeys(t)
    ensures Safe(t, DeleteIn(t, id, authorIsMe, now))
  {
    SameStays(t);
    var f := FindFirst(t, (m: Message) => m.id == id && m.fromMe == authorIsMe);
    if f.Some? { ReplaceOne(t, f.value, ApplyDelete(t[f.value], authorIsMe, now).value); }
  }

  /** A report never goes back either; only the message it names may become this device's duty. */
  lemma ReportIsSafe(t: Thread, id: string, s: Status)
    requires UniqueKeys(t)
    ensures RankGrows(t, SetStatus(t, id, s)) && UniqueKeys(SetStatus(t, id, s))
    ensures forall x :: x in SetStatus(t, id, s) && x.id != id ==> x in t
  {
    SameStays(t);
    var f := FindFirst(t, (m: Message) => m.id == id);
    if f.Some? { ReplaceOne(t, f.value, Reported(t[f.value], s)); }
  }

  lemma ReceiptIsSafe(t: Thread, upTo: U64)
    requires UniqueKeys(t)
    ensures var r := MarkReadUpTo(t, upTo); NoNewDuty(t, r) && RankGrows(t, r) && UniqueKeys(r)
  {
    var t' := MarkReadUpTo(t, upTo);
    forall x | x in t' && Responsible(x) ensures exists y :: y in t && KeyOf(y) == KeyOf(x) && Responsible(y) {
      var i :| 0 <= i < |t'| && t'[i] == x;
      assert t[i] in t;
    }
  }

  // ---------- synchronising copies ----------

  /** The merged copy has the furthest delivery of the two, and waits only if it did here. */
  lemma MergedStatus(x: Message, m: Message)
    ensures var y := MergeCopy(x, Incoming(m));
            && SameSlot(x, y) && Rank(x.status) <= Rank(y.status)
            && Rank(y.status) ==
                 (if x.fromMe && Rank(m.status) > Rank(x.status) then Rank(m.status) else Rank(x.status))
            && (Responsible(y) ==> Responsible(x))
            && (Waiting(x) ==> (Waiting(y) <==> !m.deleted && Rank(m.status) == 0))
  {
    var m' := Incoming(m);
    MergeFieldsKeepsCard(x, m');
    MergeDeletes(x, m');
  }

  lemma NewcomerIsSafe(t: Thread, y: Message)
    requires UniqueKeys(t) && !Holds(t, KeyOf(y)) && !Responsible(y)
    ensures NoNewDuty(t, t + [y]) && RankGrows(t, t + [y])
  {
    forall x | x in t + [y] && Responsible(x) ensures exists z :: z in t && KeyOf(z) == KeyOf(x) && Responsible(z) {
      assert x in t;
    }
    forall p, q | p in t && q in t + [y] && KeyOf(p) == KeyOf(q) ensures Rank(p.status) <= Rank(q.status) {
      assert q in t;
    }
  }

  lemma MergeOneIsSafe(t: Thread, m: Message)
    requires UniqueKeys(t)
    ensures NoNewDuty(t, MergeOne(t, m)) && RankGrows(t, MergeOne(t, m))
  {
    SameStays(t);
    var f := FindKey(t, KeyOf(m));
    if f.Some? {
      MergedStatus(t[f.value], m);
      ReplaceOne(t, f.value, MergeCopy(t[f.value], Incoming(m)));
    } else {
      NewcomerIsSafe(t, Incoming(m).(order := SlotSeq(t, m.ts)));
    }
  }

  lemma SafeSteps(s: Thread, t: Thread, u: Thread)
    requires NoNewDuty(s, t) && NoNewDuty(t, u)
    ensures NoNewDuty(s, u)
  {
    forall x | x in u && Responsible(x) ensures exists y :: y in s && KeyOf(y) == KeyOf(x) && Responsible(y) {
      var y :| y in t && KeyOf(y) == KeyOf(x) && Responsible(y);
    }
  }

  lemma RankSteps(s: Thread, t: Thread, u: Thread)
    requires RankGrows(s, t) && RankGrows(t, u)
    requires forall x :: x in s ==> Holds(t, KeyOf(x))
    ensures RankGrows(s, u)
  {
    forall x, y | x in s && y in u && KeyOf(x) == KeyOf(y) ensures Rank(x.status) <= Rank(y.status) {
      var z :| z in t && KeyOf(z) == KeyOf(x);
    }
  }

  lemma {:induction false} MergeAllIsSafe(t: Thread, batch: seq<Message>)
    requires UniqueKeys(t)
    ensures NoNewDuty(t, MergeAll(t, batch)) && RankGrows(t, MergeAll(t, batch))
  {
    if batch == [] {
      SameStays(t);
    } else {
      var r := MergeAll(t, batch[..|batch| - 1]);
      MergeAllIsSafe(t, batch[..|batch| - 1]);
      MergeAllSlots(t, batch[..|batch| - 1]);
      MergeOneIsSafe(r, batch[|batch| - 1]);
      SafeSteps(t, r, MergeAll(t, batch));
      forall x | x in t ensures Holds(r, KeyOf(x)) {
        assert Holds(t, KeyOf(x));
        SameSlotsHold(t, r, KeyOf(x));
      }
      RankSteps(t, r, MergeAll(t, batch));
    }
  }

  lemma SyncIsSafe(t: Thread, batch: seq<Message>)
    requires UniqueKeys(t)
    ensures Safe(t, MergeSynced(t, batch))
  {
    MergeAllIsSafe(t, batch);
    FromSort(t, MergeAll(t, batch));
    MergeAllSlots(t, batch);
    FinishedThread(MergeAll(t, batch));
  }

  lemma FromSort(t: Thread, r: Thread)
    requires NoNewDuty(t, r) && RankGrows(t, r)
    ensures NoNewDuty(t, Trim(Sort(r))) && RankGrows(t, Trim(Sort(r)))
  {
    SortKeepsElements(r);
    assert forall x :: x in Trim(Sort(r)) ==> x in r;
  }

  /** Something in the batch says the message got through or was unsent. */
  predicate Settles(batch: seq<Message>, k: SyncKey) {
    exists m :: m in batch && KeyOf(m) == k && (m.deleted || Rank(m.status) > 0)
  }

  lemma {:induction false} MergeAllOutbox(t: Thread, batch: seq<Message>, k: SyncKey)
    requires UniqueKeys(t) && InOutbox(t, k)
    ensures InOutbox(MergeAll(t, batch), k) <==> !Settles(batch, k)
  {
    if batch != [] {
      var init, last := batch[..|batch| - 1], batch[|batch| - 1];
      MergeAllOutbox(t, init, k);
      MergeAllSlots(t, init);
      SettlesByLast(batch, k);
      if InOutbox(MergeAll(t, init), k) {
        OneOutbox(MergeAll(t, init), last, k);
      } else if InOutbox(MergeAll(t, batch), k) {
        WaitingBefore(MergeAll(t, init), last, k);
      }
    }
  }

  lemma SettlesByLast(batch: seq<Message>, k: SyncKey)
    requires batch != []
    ensures var init, last := batch[..|batch| - 1], batch[|batch| - 1];
            Settles(batch, k) <==> Settles(init, k) || (KeyOf(last) == k && (last.deleted || Rank(last.status) > 0))
  {
    assert batch == batch[..|batch| - 1] + [batch[|batch| - 1]];
  }

  /** A merged copy waits only if it waited before: sync never fills an outbox. */
  lemma WaitingBefore(t: Thread, m: Message, k: SyncKey)
    requires InOutbox(MergeOne(t, m), k)
    ensures InOutbox(t, k)
  {
    var r := MergeOne(t, m);
    var y :| y in r && KeyOf(y) == k && Waiting(y);
    var i :| 0 <= i < |r| && r[i] == y;
    var f := FindKey(t, KeyOf(m));
    if f.Some? {
      var m' := Incoming(m);
      MergeFieldsKeepsCard(t[f.value], m');
      MergeDeletes(t[f.value], m');
    }
    assert i < |t| && KeyOf(t[i]) == k && Waiting(t[i]);
    assert t[i] in t;
  }

  lemma OneOutbox(t: Thread, m: Message, k: SyncKey)
    requires UniqueKeys(t) && InOutbox(t, k)
    ensures InOutbox(MergeOne(t, m), k) <==> !(KeyOf(m) == k && (m.deleted || Rank(m.status) > 0))
  {
    var x :| x in t && KeyOf(x) == k && Waiting(x);
    var i :| 0 <= i < |t| && t[i] == x;
    var r := MergeOne(t, m);
    MergeOneSlots(t, m);
    var f := FindKey(t, KeyOf(m));
    if KeyOf(m) == k {
      assert f.value == i;
      MergedStatus(x, m);
    }
    assert r[i] in r;
    assert KeyOf(r[i]) == k;
    StepKeepsUnique(t, r);
  }

  lemma StepKeepsUnique(t: Thread, r: Thread)
    requires UniqueKeys(t) && SlotStep(t, r)
    ensures UniqueKeys(r)
  {
    SlottedReflexive(t);
    StepKeepsSlotted(t, t, r);
  }

  /** After a sync a message waits exactly when it is still stored and no copy in the batch settled it. */
  lemma OutboxAfterSync(t: Thread, batch: seq<Message>, k: SyncKey)
    requires ValidThread(t) && InOutbox(t, k)
    ensures InOutbox(MergeSynced(t, batch), k) <==> Holds(MergeSynced(t, batch), k) && !Settles(batch, k)
  {
    var r := MergeAll(t, batch);
    MergeAllOutbox(t, batch, k);
    MergeAllSlots(t, batch);
    SortKeepsElements(r);
    assert forall x :: x in MergeSynced(t, batch) ==> x in r;
    if InOutbox(r, k) && Holds(MergeSynced(t, batch), k) {
      var x :| x in r && KeyOf(x) == k && Waiting(x);
      var y :| y in MergeSynced(t, batch) && KeyOf(y) == k;
      assert x == y;
    }
  }

  // ---------- any number of devices ----------

  /**
    The conversation on each own device; `writer` remembers who wrote a message and
    `trying` which device has handed a message of its outbox (or a held one) to delivery.
   */
  datatype Devices = Devices(threads: seq<Thread>, writer: map<SyncKey, nat>, trying: set<(nat, string)>)

  datatype Event =
    | Write(i: nat, m: Message)
    | Hear(i: nat, m: Message)
    | Try(i: nat, id: string)
    | Report(i: nat, id: string, s: Status)
    | Hold(i: nat, id: string)
    | GiveUp(i: nat, id: string, note: string)
    | Receipt(i: nat, upTo: U64)
    | Unsend(i: nat, id: string, authorIsMe: bool, now: U64)
    | Sync(source: nat, i: nat, keys: set<SyncKey>)

  ghost predicate Possible(d: Devices, e: Event) {
    && e.i < |d.threads|
    && match e
       case Write(i, m) => m.fromMe && m.status == Some(Sending) && KeyOf(m) !in d.writer
                           && (forall j :: 0 <= j < |d.threads| ==> !Duplicate(d.threads[j], m))
       case Hear(i, m) => !m.fromMe && !Duplicate(d.threads[i], m)
       case Try(i, id) => exists m :: m in d.threads[i] && m.id == id && Responsible(m) && !m.deleted
       case Report(i, id, s) => (i, id) in d.trying
       case Sync(source, i, keys) => source < |d.threads|
       case _ => true
  }

  function Happens(d: Devices, e: Event): Devices
    requires e.i < |d.threads| && (e.Sync? ==> e.source < |d.threads|)
  {
    var t := d.threads[e.i];
    match e
    case Write(i, m) => d.(threads := d.threads[i := Appended(t, m)], writer := d.writer[KeyOf(m) := i])
    case Hear(i, m) => d.(threads := d.threads[i := Appended(t, m)])
    case Try(i, id) => d.(trying := d.trying + {(i, id)})
    case Report(i, id, s) => d.(threads := d.threads[i := SetStatus(t, id, s)])
    case Hold(i, id) => d.(threads := d.threads[i := SetHeld(t, id)])
    case GiveUp(i, id, note) => d.(threads := d.threads[i := SetServerFailed(t, id, note)])
    case Receipt(i, upTo) => d.(threads := d.threads[i := MarkReadUpTo(t, upTo)])
    case Unsend(i, id, authorIsMe, now) => d.(threads := d.threads[i := DeleteIn(t, id, authorIsMe, now)])
    case Sync(source, i, keys) =>
      d.(threads := d.threads[i := MergeSynced(t, Reverse(Select(d.threads[source], keys)))])
  }

  ghost predicate DutiesOfWriter(d: Devices, i: nat)
    requires i < |d.threads|
  {
    forall x :: x in d.threads[i] && Responsible(x) ==> KeyOf(x) in d.writer && d.writer[KeyOf(x)] == i
  }

  ghost predicate Orderly(d: Devices) {
    && (forall i :: 0 <= i < |d.threads| ==> UniqueKeys(d.threads[i]) && DutiesOfWriter(d, i))
    && (forall i, id :: (i, id) in d.trying ==> (true, id) in d.writer && d.writer[(true, id)] == i)
  }

  lemma AppendIsSafe(t: Thread, m: Message)
    requires UniqueKeys(t) && !Holds(t, KeyOf(m))
    ensures UniqueKeys(Appended(t, m)) && RankGrows(t, Appended(t, m))
    ensures forall x :: x in Appended(t, m) ==> x == m || x in t
  {
    var s := t + [m];
    forall i | 0 <= i < |t| ensures KeyOf(t[i]) != KeyOf(m) {
      assert t[i] in t;
    }
    SortKeepsUnique(s);
    SortKeepsElements(s);
    assert forall x :: x in Appended(t, m) ==> x in s;
  }

  /** What an event leaves of the thread it touches: keys stay unique and progress never falls. */
  lemma EventIsSafe(d: Devices, e: Event)
    requires Orderly(d) && Possible(d, e)
    ensures UniqueKeys(Happens(d, e).threads[e.i]) && RankGrows(d.threads[e.i], Happens(d, e).threads[e.i])
  {
    var t := d.threads[e.i];
    SameStays(t);
    match e
    case Write(i, m) => AppendIsSafe(t, m);
    case Hear(i, m) => AppendIsSafe(t, m);
    case Report(i, id, s) => ReportIsSafe(t, id, s);
    case Hold(i, id) => HoldIsSafe(t, id);
    case GiveUp(i, id, note) => GiveUpIsSafe(t, id, note);
    case Receipt(i, upTo) => ReceiptIsSafe(t, upTo);
    case Unsend(i, id, authorIsMe, now) => UnsendIsSafe(t, id, authorIsMe, now);
    case Sync(source, i, keys) => SyncIsSafe(t, Reverse(Select(d.threads[source], keys)));
    case Try(i, id) =>
  }

  lemma EventKeepsDuties(d: Devices, e: Event)
    requires Orderly(d) && Possible(d, e)
    ensures DutiesOfWriter(Happens(d, e), e.i)
  {
    var t, d' := d.threads[e.i], Happens(d, e);
    assert DutiesOfWriter(d, e.i);
    match e
    case Write(i, m) => AppendIsSafe(t, m);
    case Hear(i, m) => AppendIsSafe(t, m);
    case Report(i, id, s) =>
      ReportIsSafe(t, id, s);
      forall x | x in d'.threads[i] && Responsible(x) ensures KeyOf(x) in d'.writer && d'.writer[KeyOf(x)] == i {
        if x.id != id { assert x in t; }
      }
    case Hold(i, id) => HoldIsSafe(t, id); DutyFrom(d, i, d'.threads[i]);
    case GiveUp(i, id, note) => GiveUpIsSafe(t, id, note); DutyFrom(d, i, d'.threads[i]);
    case Receipt(i, upTo) => ReceiptIsSafe(t, upTo); DutyFrom(d, i, d'.threads[i]);
    case Unsend(i, id, authorIsMe, now) => UnsendIsSafe(t, id, authorIsMe, now); DutyFrom(d, i, d'.threads[i]);
    case Sync(source, i, keys) =>
      SyncIsSafe(t, Reverse(Select(d.threads[source], keys)));
      DutyFrom(d, i, d'.threads[i]);
    case Try(i, id) =>
  }

  lemma DutyFrom(d: Devices, i: nat, t': Thread)
    requires i < |d.threads| && DutiesOfWriter(d, i) && NoNewDuty(d.threads[i], t')
    ensures forall x :: x in t' && Responsible(x) ==> KeyOf(x) in d.writer && d.writer[KeyOf(x)] == i
  {
    forall x | x in t' && Responsible(x) ensures KeyOf(x) in d.writer && d.writer[KeyOf(x)] == i {
      var y :| y in d.threads[i] && KeyOf(y) == KeyOf(x) && Responsible(y);
    }
  }

  lemma EventKeepsOrderly(d: Devices, e: Event)
    requires Orderly(d) && Possible(d, e)
    ensures Orderly(Happens(d, e))
  {
    var d' := Happens(d, e);
    EventIsSafe(d, e);
    EventKeepsDuties(d, e);
    forall j | 0 <= j < |d'.threads| ensures UniqueKeys(d'.threads[j]) && DutiesOfWriter(d', j) {
      assert DutiesOfWriter(d, j);
      if j != e.i { assert d'.threads[j] == d.threads[j]; }
    }
    if e.Try? {
      var m :| m in d.threads[e.i] && m.id == e.id && Responsible(m) && !m.deleted;
      assert DutiesOfWriter(d, e.i) && KeyOf(m) == (true, e.id);
    }
  }

  /** Own devices from nothing on; each next state is one possible event further. */
  ghost predicate DeviceRun(states: seq<Devices>, events: seq<Event>) {
    && |states| == |events| + 1
    && (forall j :: 0 <= j < |states[0].threads| ==> states[0].threads[j] == [])
    && states[0].writer == map[] && states[0].trying == {}
    && forall n :: 0 <= n < |events| ==>
         Possible(states[n], events[n]) && states[n + 1] == Happens(states[n], events[n])
  }

  lemma {:induction false} RunsAreOrderly(states: seq<Devices>, events: seq<Event>, n: nat)
    requires DeviceRun(states, events) && n < |states|
    ensures Orderly(states[n])
  {
    if n > 0 {
      RunsAreOrderly(states, events, n - 1);
      EventKeepsOrderly(states[n - 1], events[n - 1]);
    }
  }

  /** No message is ever in two outboxes: no two devices send the same message. */
  lemma OneOutboxEach(states: seq<Devices>, events: seq<Event>, n: nat, i: nat, j: nat, k: SyncKey)
    requires DeviceRun(states, events) && n < |states|
    requires i < |states[n].threads| && j < |states[n].threads|
    requires InOutbox(states[n].threads[i], k) && InOutbox(states[n].threads[j], k)
    ensures i == j
  {
    RunsAreOrderly(states, events, n);
    assert DutiesOfWriter(states[n], i) && DutiesOfWriter(states[n], j);
  }

  /** Delivery progress never falls on any device, whatever happens. */
  lemma ProgressNeverFalls(states: seq<Devices>, events: seq<Event>, n: nat, i: nat)
    requires DeviceRun(states, events) && n < |events| && i < |states[n].threads|
    ensures i < |states[n + 1].threads| && RankGrows(states[n].threads[i], states[n + 1].threads[i])
  {
    RunsAreOrderly(states, events, n);
    if i == events[n].i {
      EventIsSafe(states[n], events[n]);
    } else {
      SameStays(states[n].threads[i]);
    }
  }
}
