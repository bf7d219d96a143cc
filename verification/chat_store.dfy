/** Every conversation of this device, changed in place as the program does it. */
module ChatStore {
  import opened Common
  import opened Messages
  import opened Threads
  import opened Slotting
  import opened FoldLaws
  import opened Exchange
  import opened Delivery

  /** The counts a merge reports: messages that changed, and the times of new ones from the friend. */
  datatype Tally = Tally(changed: nat, news: seq<U64>)

  /** A merged copy counts when its fingerprint changed. */
  function CountMerged(before: Message, after: Message, so: Tally): Tally {
    if PrintOf(after) != PrintOf(before) then so.(changed := so.changed + 1) else so
  }

  /** A new message counts, and one from the friend that is not unsent is news. */
  function CountNew(m: Message, so: Tally): Tally {
    Tally(so.changed + 1, if !m.fromMe && !m.deleted then so.news + [m.ts] else so.news)
  }

  function TallyOne(t: Thread, m0: Message, so: Tally): Tally {
    var m := Incoming(m0);
    match FindKey(t, KeyOf(m))
    case Some(i) => CountMerged(t[i], MergeCopy(t[i], m), so)
    case None => if |t| >= MAX_PER_PEER && m.ts < t[0].ts then so else CountNew(m, so)
  }

  function TallyAll(t: Thread, batch: seq<Message>): Tally {
    if batch == [] then Tally(0, [])
    else
      var init := batch[..|batch| - 1];
      TallyOne(MergeAll(t, init), batch[|batch| - 1], TallyAll(t, init))
  }

  /** A batch that changes nothing slots nothing in, so the thread is still in order. */
  lemma {:induction false} UnchangedKeepsSlots(t: Thread, batch: seq<Message>)
    requires TallyAll(t, batch).changed == 0
    ensures |MergeAll(t, batch)| == |t|
    ensures forall i :: 0 <= i < |t| ==> SameSlot(t[i], MergeAll(t, batch)[i])
  {
    if batch != [] {
      var init, m := batch[..|batch| - 1], batch[|batch| - 1];
      UnchangedOne(MergeAll(t, init), m, TallyAll(t, init));
      UnchangedKeepsSlots(t, init);
    }
  }

  lemma UnchangedOne(r: Thread, m: Message, so: Tally)
    requires TallyOne(r, m, so).changed == 0
    ensures so.changed == 0 && |MergeOne(r, m)| == |r|
    ensures forall i :: 0 <= i < |r| ==> SameSlot(r[i], MergeOne(r, m)[i])
  {
    var f := FindKey(r, KeyOf(Incoming(m)));
    if f.Some? { MergeFieldsKeepsCard(r[f.value], Incoming(m)); }
  }

  lemma UnchangedIsFinished(t: Thread, batch: seq<Message>)
    requires ValidThread(t) && TallyAll(t, batch).changed == 0
    ensures MergeSynced(t, batch) == MergeAll(t, batch)
  {
    UnchangedKeepsSlots(t, batch);
    SameSlotsSorted(t, MergeAll(t, batch));
    SortedIsFixed(MergeAll(t, batch));
  }

  // ---------- changes to one stored message ----------

  function ReactIn(t: Thread, id: string, key: Reaction, add: bool, now: U64): Thread {
    match FindFirst(t, (m: Message) => m.id == id)
    case None => t
    case Some(i) => t[i := ApplyReaction(t[i], key, add, now)]
  }

  function EditIn(t: Thread, id: string, text: string, hasLink: bool, authorIsMe: bool, now: U64): Thread {
    match FindFirst(t, (m: Message) => m.id == id && !m.deleted && m.fromMe == authorIsMe)
    case None => t
    case Some(i) => t[i := ApplyEdit(t[i], text, hasLink, authorIsMe, now).value]
  }

  /** The same messages in the same places, changed in content or status only. */
  ghost predicate SamePlaces(t: Thread, t': Thread) {
    |t'| == |t| && forall i :: 0 <= i < |t| ==> SameSlot(t[i], t'[i])
  }

  /** A change in place keeps the thread valid and in time order. */
  lemma SamePlacesStayValid(t: Thread, t': Thread)
    requires ValidThread(t) && SamePlaces(t, t')
    ensures ValidThread(t') && (InTime(t) ==> InTime(t'))
  {
    forall i, j | 0 <= i < j < |t'| ensures KeyLeq(t'[i], t'[j]) && KeyOf(t'[i]) != KeyOf(t'[j]) {
      assert SameSlot(t[i], t'[i]) && SameSlot(t[j], t'[j]);
      assert KeyLeq(t[i], t[j]);
    }
  }

  /** Reports, holds and receipts change a thread in place. */
  lemma StatusStaysInPlace(t: Thread, id: string, s: Status, note: string, upTo: U64)
    ensures SamePlaces(t, SetStatus(t, id, s)) && SamePlaces(t, SetHeld(t, id))
    ensures SamePlaces(t, SetServerFailed(t, id, note)) && SamePlaces(t, MarkReadUpTo(t, upTo))
  {
  }

  /** So do reactions, edits and unsends. */
  lemma ReactStaysInPlace(t: Thread, id: string, key: Reaction, add: bool, now: U64)
    ensures SamePlaces(t, ReactIn(t, id, key, add, now))
  {
  }

  lemma EditStaysInPlace(t: Thread, id: string, text: string, hasLink: bool, authorIsMe: bool, now: U64)
    ensures SamePlaces(t, EditIn(t, id, text, hasLink, authorIsMe, now))
    ensures SamePlaces(t, DeleteIn(t, id, authorIsMe, now))
  {
  }

  // ---------- every conversation ----------

  /** The undo of a failed durable write restores the thread. */
  predicate UndoIsExact(t: Thread, m: Message) {
    !(|t| == MAX_PER_PEER && !KeyLeq(t[0], m))
  }

  /** A conversation never written to is empty. */
  function At(threads: map<string, Thread>, peer: string): Thread {
    if peer in threads then threads[peer] else []
  }

  ghost predicate AllValid(threads: map<string, Thread>) {
    forall peer :: peer in threads ==> ValidThread(threads[peer])
  }

  lemma EmptyIsValid()
    ensures ValidThread([])
  {
  }

  /** What storing a message leaves of a conversation. */
  function Stored(t: Thread, m: Message, durable: bool, saved: bool): Thread {
    if Duplicate(t, m) then t else if durable && !saved then Undone(t, m) else Appended(t, m)
  }

  /** There already, or a second card for a transfer that has one. */
  ghost predicate InThread(t: Thread, m: Message) {
    exists x :: x in t && x.fromMe == m.fromMe && (x.id == m.id || (m.fileXferId.Some? && x.fileXferId == m.fileXferId))
  }

  /** `m` joined the thread; only what sorts before all of a full one is not there. */
  ghost predicate AddedWell(t: Thread, m: Message, r: Thread) {
    && (forall y :: y in r ==> y in t || y == m)
    && (forall x :: x in t || x == m ==> x in r || PushedOut(r, x))
  }

  lemma StoredIs(t: Thread, m: Message, durable: bool, saved: bool)
    requires ValidThread(t)
    ensures InThread(t, m) || (durable && !saved && UndoIsExact(t, m)) ==> Stored(t, m, durable, saved) == t
    ensures !InThread(t, m) && (saved || !durable) ==> AddedWell(t, m, Stored(t, m, durable, saved))
  {
    if !Duplicate(t, m) {
      UndoRestoresExactly(t, m);
      forall x | x in t || x == m ensures x in Appended(t, m) || PushedOut(Appended(t, m), x) {
        AppendKeepsNewest(t, m, x);
      }
      AppendKeepsNewest(t, m, m);
    }
  }

  lemma StoredIsValid(t: Thread, m: Message, durable: bool, saved: bool)
    requires ValidThread(t) && (saved || !durable || UndoIsExact(t, m))
    ensures ValidThread(Stored(t, m, durable, saved))
  {
    if !Duplicate(t, m) {
      if durable && !saved {
        UndoRestoresExactly(t, m);
      } else {
        AppendKeepsValid(t, m);
      }
    }
  }

  lemma StoringStaysValid(threads: map<string, Thread>, peer: string, m: Message, durable: bool, saved: bool)
    requires AllValid(threads) && (saved || !durable || UndoIsExact(At(threads, peer), m))
    ensures AllValid(threads[peer := Stored(At(threads, peer), m, durable, saved)])
  {
    EmptyIsValid();
    StoredIsValid(At(threads, peer), m, durable, saved);
  }

  lemma MergingStaysValid(threads: map<string, Thread>, peer: string, batch: seq<Message>)
    requires AllValid(threads)
    ensures AllValid(threads[peer := MergeSynced(At(threads, peer), batch)])
  {
    EmptyIsValid();
    SyncKeepsThread(At(threads, peer), batch);
  }

  lemma FoldingStaysValid(threads: map<string, Thread>, source: string, into: string)
    requires AllValid(threads) && source in threads && source != into
    ensures AllValid((threads - {source})[into := FoldInto(At(threads, into), threads[source])])
  {
    EmptyIsValid();
    FoldKeepsThread(At(threads, into), threads[source]);
  }

  lemma ReadingStaysValid(threads: map<string, Thread>, peer: string, upTo: U64)
    requires AllValid(threads) && peer in threads
    ensures AllValid(threads[peer := MarkReadUpTo(threads[peer], upTo)])
  {
    StatusStaysInPlace(threads[peer], "", Sent, "", upTo);
    SamePlacesStayValid(threads[peer], MarkReadUpTo(threads[peer], upTo));
  }

  function Changed(threads: map<string, Thread>, peer: string, change: Thread -> Thread): map<string, Thread> {
    if peer in threads then threads[peer := change(threads[peer])] else threads
  }

  /** Changing one conversation in place keeps every conversation valid. */
  lemma ChangedStaysValid(threads: map<string, Thread>, peer: string, change: Thread -> Thread)
    requires AllValid(threads) && (peer in threads ==> SamePlaces(threads[peer], change(threads[peer])))
    ensures AllValid(Changed(threads, peer, change))
  {
    if peer in threads { SamePlacesStayValid(threads[peer], change(threads[peer])); }
  }

  class Store {
    var threads: map<string, Thread>

    ghost function ThreadOf(peer: string): Thread
      reads this
    {
      At(threads, peer)
    }

    constructor ()
      ensures threads == map[]
    {
      threads := map[];
    }

    /**
      Store one message. `saved` is whether the disk write went through. A durable write
      that fails is undone in memory (see `StampedUndoRestores` and `UndoRestoresExactly`).
     */
    method Append(peer: string, m: Message, durable: bool, saved: bool) returns (r: Result<bool, string>)
      modifies this
      ensures threads == old(threads)[peer := Stored(old(ThreadOf(peer)), m, durable, saved)]
      ensures r == if Duplicate(old(ThreadOf(peer)), m) then Ok(false)
                   else if saved then Ok(true) else Err("cannot save")
      ensures r == Ok(false) <==> InThread(old(ThreadOf(peer)), m)
      ensures r == Ok(false) || (durable && !saved && UndoIsExact(old(ThreadOf(peer)), m)) ==>
        ValidThread(old(ThreadOf(peer))) ==> threads[peer] == old(ThreadOf(peer))
      ensures r != Ok(false) && (saved || !durable) && ValidThread(old(ThreadOf(peer))) ==>
        AddedWell(old(ThreadOf(peer)), m, threads[peer])
      ensures AllValid(old(threads)) && (saved || !durable || UndoIsExact(old(ThreadOf(peer)), m)) ==> AllValid(threads)
    {
      if ValidThread(ThreadOf(peer)) { StoredIs(ThreadOf(peer), m, durable, saved); }
      if AllValid(threads) && (saved || !durable || UndoIsExact(ThreadOf(peer), m)) {
        StoringStaysValid(threads, peer, m, durable, saved);
      }
      var t := if peer in threads then threads[peer] else [];
      t, r := StoreIn(t, m, durable, saved);
      threads := threads[peer := t];
    }

    static method StoreIn(before: Thread, m: Message, durable: bool, saved: bool)
      returns (t: Thread, r: Result<bool, string>)
      ensures t == Stored(before, m, durable, saved)
      ensures r == if Duplicate(before, m) then Ok(false) else if saved then Ok(true) else Err("cannot save")
    {
      t := before;
      if Duplicate(t, m) { return t, Ok(false); }
      t := Sort(t + [m]);
      var trimmed := Overflow(t);
      t := Trim(t);
      if saved { return t, Ok(true); }
      if durable {
        t := trimmed + WithoutKey(t, KeyOf(m));
      }
      return t, Err("cannot save");
    }

    /** The number for the next message written in a conversation. */
    method NextNumber(peer: string) returns (n: U64)
      ensures n == NextSeq(ThreadOf(peer))
    {
      if peer !in threads { return 1; }
      var t, top := threads[peer], 0;
      for i := 0 to |t|
        invariant top == MaxOrder(t[..i])
      {
        assert t[..i + 1][..i] == t[..i];
        top := Max(top, t[i].order);
      }
      assert t[..|t|] == t;
      n := SatAdd(top, 1);
    }

    /** Merge a copy into ours: content by its clocks, delivery by the furthest progress. */
    static method MergeIntoCopy(x: Message, m: Message) returns (y: Message)
      ensures y == MergeCopy(x, m)
    {
      y := MergeCopies(x, m);
      if y.fromMe && Rank(m.status) > Rank(y.status) {
        y := y.(status := m.status);
      }
    }

    /** Merge one message: into its copy here, or slotted in by its time. */
    static method MergeMessage(t: Thread, m0: Message, so: Tally) returns (t': Thread, tally: Tally)
      ensures t' == MergeOne(t, m0) && tally == TallyOne(t, m0, so)
    {
      t', tally := t, so;
      var m := Incoming(m0);
      var found := FindKey(t, KeyOf(m));
      if found.Some? {
        var merged := MergeIntoCopy(t[found.value], m);
        tally := CountMerged(t[found.value], merged, so);
        t' := t[found.value := merged];
      } else if |t| < MAX_PER_PEER || m.ts >= t[0].ts {   // else older than all a full thread keeps
        tally := CountNew(m, so);
        t' := t + [m.(order := SlotSeq(t, m.ts))];
      }
    }

    static method MergeEach(before: Thread, batch: seq<Message>) returns (t: Thread, tally: Tally)
      ensures t == MergeAll(before, batch) && tally == TallyAll(before, batch)
    {
      t, tally := before, Tally(0, []);
      for n := 0 to |batch|
        invariant t == MergeAll(before, batch[..n]) && tally == TallyAll(before, batch[..n])
      {
        assert batch[..n + 1][..n] == batch[..n];
        t, tally := MergeMessage(t, batch[n], tally);
      }
      assert batch[..|batch|] == batch;
    }

    /** Merge a batch from another own device; sorted and bounded only when something changed. */
    method MergeBatch(peer: string, batch: seq<Message>) returns (tally: Tally)
      requires ValidThread(ThreadOf(peer))
      modifies this
      ensures threads == old(threads)[peer := MergeSynced(old(ThreadOf(peer)), batch)]
      ensures tally == TallyAll(old(ThreadOf(peer)), batch)
      ensures AllValid(old(threads)) ==> AllValid(threads)
    {
      if AllValid(threads) { MergingStaysValid(threads, peer, batch); }
      var before := if peer in threads then threads[peer] else [];
      var t;
      t, tally := MergeEach(before, batch);
      if tally.changed > 0 {
        t := Trim(Sort(t));
      } else {
        UnchangedIsFinished(before, batch);
      }
      threads := threads[peer := t];
    }

    /**
      Move this device's thread `source` into `into`: one person, two records. Nothing of
      either is lost but what a full thread has no place for; `moved` is how many messages
      only the source had.
     */
    method FoldThread(source: string, into: string) returns (moved: nat)
      modifies this
      ensures source == into || source !in old(threads) ==> threads == old(threads) && moved == 0
      ensures source != into && source in old(threads) ==>
        && threads == (old(threads) - {source})[into := FoldInto(old(ThreadOf(into)), old(threads)[source])]
        && moved == |KeySet(old(threads)[source]) - KeySet(old(ThreadOf(into)))|
      ensures source != into && source in old(threads) && UniqueKeys(old(threads)[source]) ==>
        into in threads && FoldedWell(old(ThreadOf(into)), old(threads)[source], threads[into])
      ensures AllValid(old(threads)) ==> AllValid(threads)
    {
      moved := 0;
      if source == into || source !in threads { return; }
      if AllValid(threads) { FoldingStaysValid(threads, source, into); }
      var moving := threads[source];
      threads := threads - {source};
      var t := if into in threads then threads[into] else [];
      if UniqueKeys(moving) { FoldIsWell(t, moving); }
      t, moved := Fold(t, moving);
      threads := threads[into := t];
    }

    static method Fold(before: Thread, moving: seq<Message>) returns (t: Thread, moved: nat)
      ensures t == FoldInto(before, moving) && moved == |KeySet(moving) - KeySet(before)|
    {
      FoldAllSize(before, moving);
      t, moved := FoldEach(before, moving);
      t := Trim(Sort(t));
    }

    static method FoldEach(before: Thread, moving: seq<Message>) returns (t: Thread, moved: nat)
      ensures t == FoldAll(before, moving) && |before| + moved == |t|
    {
      t, moved := before, 0;
      for n := 0 to |moving|
        invariant t == FoldAll(before, moving[..n]) && |before| + moved == |t|
      {
        assert moving[..n + 1][..n] == moving[..n];
        var m := moving[n];
        if !Holds(t, KeyOf(m)) {
          t := t + [m.(order := SlotSeq(t, m.ts))];
          moved := moved + 1;
        }
      }
      assert moving[..|moving|] == moving;
    }

    /** A read receipt from the peer. Returns how many messages it moved. */
    method MarkRead(peer: string, upTo: U64) returns (moved: nat)
      modifies this
      ensures peer !in old(threads) ==> threads == old(threads)
      ensures peer in old(threads) ==> threads == old(threads)[peer := MarkReadUpTo(old(threads)[peer], upTo)]
      ensures moved == 0 <==> threads == old(threads)
      ensures AllValid(old(threads)) ==> AllValid(threads)
    {
      moved := 0;
      if peer !in threads { return; }
      if AllValid(threads) { ReadingStaysValid(threads, peer, upTo); }
      var t := threads[peer];
      ghost var before := t;
      for i := 0 to |t|
        invariant |t| == |before|
        invariant forall j :: 0 <= j < i ==> t[j] == ReadUpTo(before[j], upTo)
        invariant forall j :: i <= j < |t| ==> t[j] == before[j]
        invariant moved == 0 <==> t == before
      {
        var reached := t[i].status == Some(Status.Delivered) || t[i].status == Some(Held) || t[i].status == Some(Sent);
        if t[i].fromMe && t[i].ts <= upTo && reached {
          ghost var was := t[i];
          t := t[i := t[i].(status := Some(Status.Read))];
          moved := moved + 1;
          assert t[i].status != was.status && before[i] == was;
        }
      }
      assert t == MarkReadUpTo(before, upTo);
      threads := threads[peer := t];
    }

    /** A delivery report; `None` when it may not change the message. */
    method SetStatusOf(peer: string, id: string, s: Status) returns (r: Option<Message>)
      modifies this
      ensures threads == Changed(old(threads), peer, (t: Thread) => SetStatus(t, id, s))
      ensures if r.Some? then peer in threads && r.value in threads[peer] && r.value.status == Some(s)
              else threads == old(threads)
      ensures AllValid(old(threads)) ==> AllValid(threads)
    {
      ghost var before := threads;
      if AllValid(before) {
        if peer in before { StatusStaysInPlace(before[peer], id, s, "", 0); }
        ChangedStaysValid(before, peer, (t: Thread) => SetStatus(t, id, s));
      }
      if peer !in threads { return None; }
      var t := threads[peer];
      var found := FindFirst(t, (m: Message) => m.id == id);
      if found.None? { return None; }
      var m := t[found.value];
      if !ReportAllowed(m.status, s) {
        assert t[found.value := m] == t;
        return None;
      }
      if s == Status.Delivered || s == Status.Read {
        m := m.(serverNote := None);
      }
      m := m.(status := Some(s));
      threads := threads[peer := t[found.value := m]];
      assert threads[peer][found.value] == m;
      return Some(m);
    }

    /** A Transfer Server took an undelivered message. */
    method SetHeldOf(peer: string, id: string) returns (r: Option<Message>)
      modifies this
      ensures threads == Changed(old(threads), peer, (t: Thread) => SetHeld(t, id))
      ensures r.None? ==> threads == old(threads)
      ensures AllValid(old(threads)) ==> AllValid(threads)
    {
      ghost var before := threads;
      if AllValid(before) {
        if peer in before { StatusStaysInPlace(before[peer], id, Sent, "", 0); }
        ChangedStaysValid(before, peer, (t: Thread) => SetHeld(t, id));
      }
      if peer !in threads { return None; }
      var t := threads[peer];
      var found := FindFirst(t, (m: Message) => m.id == id && m.fromMe);
      if found.None? { return None; }
      var m := t[found.value];
      if !(m.status == Some(Sending) || m.status == Some(Failed)) {
        assert t[found.value := m] == t;
        return None;
      }
      m := m.(status := Some(Held), serverNote := None);
      threads := threads[peer := t[found.value := m]];
      return Some(m);
    }

    /** The server gave up on a message. */
    method SetServerFailedOf(peer: string, id: string, note: string) returns (r: Option<Message>)
      modifies this
      ensures threads == Changed(old(threads), peer, (t: Thread) => SetServerFailed(t, id, note))
      ensures r.None? ==> threads == old(threads)
      ensures AllValid(old(threads)) ==> AllValid(threads)
    {
      ghost var before := threads;
      if AllValid(before) {
        if peer in before { StatusStaysInPlace(before[peer], id, Sent, note, 0); }
        ChangedStaysValid(before, peer, (t: Thread) => SetServerFailed(t, id, note));
      }
      if peer !in threads { return None; }
      var t := threads[peer];
      var found := FindFirst(t, (m: Message) => m.id == id && m.fromMe);
      if found.None? { return None; }
      var m := t[found.value];
      if !(m.status == Some(Held) || m.status == Some(Sending) || m.status == Some(Failed))
        || (m.status == Some(Failed) && m.serverNote == Some(note)) {
        assert ServerGaveUp(m, note) == m;
        assert t[found.value := m] == t;
        return None;
      }
      m := m.(status := Some(Failed), serverNote := Some(note));
      threads := threads[peer := t[found.value := m]];
      return Some(m);
    }

    /** Add or remove a reaction. */
    method React(peer: string, id: string, key: Reaction, add: bool, now: U64) returns (r: Option<Message>)
      modifies this
      ensures threads == Changed(old(threads), peer, (t: Thread) => ReactIn(t, id, key, add, now))
      ensures r.Some? ==> peer in threads && r.value in threads[peer] && (key in r.value.reactions || !add)
      ensures AllValid(old(threads)) ==> AllValid(threads)
    {
      ghost var before := threads;
      if AllValid(before) {
        if peer in before { ReactStaysInPlace(before[peer], id, key, add, now); }
        ChangedStaysValid(before, peer, (t: Thread) => ReactIn(t, id, key, add, now));
      }
      if peer !in threads { return None; }
      var t := threads[peer];
      var found := FindFirst(t, (m: Message) => m.id == id);
      if found.None? { return None; }
      var m := t[found.value];
      var has := key in m.reactions;
      if add != has {
        var at := BumpRev(now, m.rev);
        m := m.(reactions := if add then m.reactions + [key] else Remove(m.reactions, key));
        m := m.(rev := at, reactionRevs := NoteReactionRev(m.reactionRevs, key, at, add));
      }
      threads := threads[peer := t[found.value := m]];
      assert threads[peer][found.value] == m;
      return Some(m);
    }

    /** Edit a message of one's own, or take the author's edit. */
    method EditText(peer: string, id: string, text: string, hasLink: bool, authorIsMe: bool, now: U64)
      returns (r: Option<Message>)
      modifies this
      ensures threads == Changed(old(threads), peer, (t: Thread) => EditIn(t, id, text, hasLink, authorIsMe, now))
      ensures if r.Some?
              then peer in threads && r.value in threads[peer] && r.value.text == text && r.value.fromMe == authorIsMe
              else threads == old(threads)
      ensures AllValid(old(threads)) ==> AllValid(threads)
    {
      ghost var before := threads;
      if AllValid(before) {
        if peer in before { EditStaysInPlace(before[peer], id, text, hasLink, authorIsMe, now); }
        ChangedStaysValid(before, peer, (t: Thread) => EditIn(t, id, text, hasLink, authorIsMe, now));
      }
      if peer !in threads { return None; }
      var t := threads[peer];
      var found := FindFirst(t, (m: Message) => m.id == id && !m.deleted && m.fromMe == authorIsMe);
      if found.None? { return None; }
      var m := t[found.value].(text := text);
      if m.linkPreview.Some? && !hasLink {
        m := m.(linkPreview := None);
      }
      m := m.(edited := true, rev := BumpRev(now, m.rev));
      m := m.(textRev := m.rev);
      threads := threads[peer := t[found.value := m]];
      assert threads[peer][found.value] == m;
      return Some(m);
    }

    /** Unsend a message of one's own, or take the author's unsend. */
    method Unsend(peer: string, id: string, authorIsMe: bool, now: U64) returns (r: Option<Message>)
      modifies this
      ensures threads == Changed(old(threads), peer, (t: Thread) => DeleteIn(t, id, authorIsMe, now))
      ensures if r.Some?
              then peer in threads && r.value in threads[peer] && r.value.deleted && r.value.fromMe == authorIsMe
              else threads == old(threads)
      ensures AllValid(old(threads)) ==> AllValid(threads)
    {
      ghost var before := threads;
      if AllValid(before) {
        if peer in before { EditStaysInPlace(before[peer], id, "", false, authorIsMe, now); }
        ChangedStaysValid(before, peer, (t: Thread) => DeleteIn(t, id, authorIsMe, now));
      }
      if peer !in threads { return None; }
      var t := threads[peer];
      var found := FindFirst(t, (m: Message) => m.id == id && m.fromMe == authorIsMe);
      if found.None? { return None; }
      var m := t[found.value].(deleted := true, text := "", linkPreview := None);
      m := m.(files := [], path := None, gif := None);
      m := m.(reactions := [], rev := BumpRev(now, m.rev));
      m := m.(textRev := m.rev);
      threads := threads[peer := t[found.value := m]];
      assert threads[peer][found.value] == m;
      return Some(m);
    }

    /** Everything of ours not yet out, over all conversations in any order, sorted for sending. */
    method ListOutbox() returns (out: seq<Message>)
      ensures Sorted(out)
      ensures forall m :: m in out <==> exists peer :: peer in threads && m in threads[peer] && Waiting(m)
    {
      var all: seq<Message> := [];
      var rest := threads.Keys;
      while rest != {}
        invariant rest <= threads.Keys
        invariant forall m :: m in all <==> WaitsIn(threads, threads.Keys - rest, m)
      {
        var peer :| peer in rest;
        ghost var before := all;
        all := all + Outbox(threads[peer]);
        WaitsStep(threads, threads.Keys - rest, peer, before);
        assert threads.Keys - (rest - {peer}) == threads.Keys - rest + {peer};
        rest := rest - {peer};
      }
      out := Sort(all);
      SortIsSorted(all);
      forall m ensures m in out <==> m in all {
        SortElements(all, m);
      }
    }
  }

  ghost predicate WaitsIn(threads: map<string, Thread>, peers: set<string>, m: Message) {
    exists peer :: peer in peers && peer in threads && m in threads[peer] && Waiting(m)
  }

  lemma WaitsStep(threads: map<string, Thread>, peers: set<string>, peer: string, all: seq<Message>)
    requires peer in threads && forall m :: m in all <==> WaitsIn(threads, peers, m)
    ensures forall m :: m in all + Outbox(threads[peer]) <==> WaitsIn(threads, peers + {peer}, m)
  {
    forall m ensures m in all + Outbox(threads[peer]) <==> WaitsIn(threads, peers + {peer}, m) {
      OutboxElements(threads[peer], m);
      if WaitsIn(threads, peers, m) {
        var p :| p in peers && p in threads && m in threads[p] && Waiting(m);
        assert p in peers + {peer};
      }
      if m in Outbox(threads[peer]) {
        assert peer in peers + {peer};
      }
    }
  }
}
