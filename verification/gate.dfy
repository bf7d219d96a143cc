/** How often refused commands from strangers are answered and recorded. */
module Gate {
  import opened Common

  const MINUTE: U64 := 60_000
  const PEER_ANSWERS: nat := 10
  const GLOBAL_RECORDS: nat := 20
  const MAX_PEERS: nat := 4096
  const U32_LIMIT: nat := 0x1_0000_0000

  type U32 = n: nat | n < 0x1_0000_0000

  /** The addition wraps at 32 bits. */
  function Inc(n: U32): U32 {
    if n + 1 == U32_LIMIT then 0 else n + 1
  }

  /** A peer's window: its start, the refusals in it, and those not yet recorded. */
  datatype Entry = Entry(start: U64, count: U32, pending: U32)

  datatype GateState = GateState(peers: map<string, Entry>, globalStart: U64, globalCount: U32)

  const EMPTY: GateState := GateState(map[], 0, 0)

  /** What one refusal gets: an answer or silence, and the count of a record if one is made. */
  datatype Verdict = Verdict(answer: bool, record: Option<U32>)

  predicate Expired(start: U64, now: U64) {
    SatSub(now, start) >= MINUTE
  }

  /** With many peers, those whose window is over are forgotten. */
  function Purged(peers: map<string, Entry>, now: U64): map<string, Entry> {
    if |peers| > MAX_PEERS then map w | w in peers && !Expired(peers[w].start, now) :: peers[w] else peers
  }

  function EntryOf(peers: map<string, Entry>, who: string): Entry {
    if who in peers then peers[who] else Entry(0, 0, 0)
  }

  predicate Fresh(e: Entry, now: U64) {
    e.count == 0 || Expired(e.start, now)
  }

  /** The entry after one more refusal, before any record. */
  function Counted(e: Entry, now: U64): Entry {
    if Fresh(e, now) then Entry(now, 1, Inc(e.pending)) else Entry(e.start, Inc(e.count), Inc(e.pending))
  }

  function Reset(g: GateState, now: U64): GateState {
    if Expired(g.globalStart, now) then g.(globalStart := now, globalCount := 0) else g
  }

  predicate Records(g: GateState, who: string, now: U64) {
    Fresh(EntryOf(Purged(g.peers, now), who), now) && Reset(g, now).globalCount < GLOBAL_RECORDS
  }

  function Check(g: GateState, who: string, now: U64): (GateState, Verdict) {
    var peers := Purged(g.peers, now);
    var e := Counted(EntryOf(peers, who), now);
    var h := Reset(g, now);
    if Records(g, who, now) then
      (GateState(peers[who := e.(pending := 0)], h.globalStart, h.globalCount + 1),
       Verdict(e.count <= PEER_ANSWERS, Some(e.pending)))
    else
      (GateState(peers[who := e], h.globalStart, h.globalCount), Verdict(e.count <= PEER_ANSWERS, None))
  }

  /** The gate as the program keeps it. */
  class RefusalGate {
    var peers: map<string, Entry>
    var globalStart: U64
    var globalCount: U32

    constructor ()
      ensures Value() == EMPTY
    {
      peers, globalStart, globalCount := map[], 0, 0;
    }

    function Value(): GateState
      reads this
    {
      GateState(peers, globalStart, globalCount)
    }

    method CheckRefusal(who: string, now: U64) returns (v: Verdict)
      modifies this
      ensures (Value(), v) == Check(old(Value()), who, now)
    {
      if |peers| > MAX_PEERS {
        peers := map w | w in peers && !Expired(peers[w].start, now) :: peers[w];
      }
      if Expired(globalStart, now) {
        globalStart, globalCount := now, 0;
      }
      var e := EntryOf(peers, who);
      var startsOver := Fresh(e, now);
      if startsOver {
        e := e.(start := now, count := 0);
      }
      e := e.(count := Inc(e.count), pending := Inc(e.pending));
      var answer := e.count <= PEER_ANSWERS;
      if !startsOver || globalCount >= GLOBAL_RECORDS {
        peers := peers[who := e];
        return Verdict(answer, None);
      }
      globalCount := globalCount + 1;
      peers := peers[who := e.(pending := 0)];
      return Verdict(answer, Some(e.pending));
    }
  }

  // ---------- runs ----------

  datatype Call = Call(who: string, now: U64)

  function After(calls: seq<Call>): GateState {
    if calls == [] then EMPTY
    else Check(After(calls[..|calls| - 1]), calls[|calls| - 1].who, calls[|calls| - 1].now).0
  }

  function VerdictOf(calls: seq<Call>): Verdict
    requires calls != []
  {
    Check(After(calls[..|calls| - 1]), calls[|calls| - 1].who, calls[|calls| - 1].now).1
  }

  ghost predicate TimeGoesOn(calls: seq<Call>) {
    forall i, j :: 0 <= i <= j < |calls| ==> calls[i].now <= calls[j].now
  }

  /** How many calls from the `from`-th on are counted by `one`. */
  ghost function Tally(calls: seq<Call>, from: nat, one: seq<Call> -> nat): nat {
    if |calls| <= from then 0 else Tally(calls[..|calls| - 1], from, one) + one(calls)
  }

  ghost function Answered(w: string): seq<Call> -> nat {
    (calls: seq<Call>) => if calls != [] && calls[|calls| - 1].who == w && VerdictOf(calls).answer then 1 else 0
  }

  ghost function Recorded(): seq<Call> -> nat {
    (calls: seq<Call>) => if calls != [] && VerdictOf(calls).record.Some? then 1 else 0
  }

  ghost function RecordedFor(w: string): seq<Call> -> nat {
    (calls: seq<Call>) => if calls != [] && calls[|calls| - 1].who == w && VerdictOf(calls).record.Some? then 1 else 0
  }

  /** Fewer than 2^32 refusals in any span under a minute: no window's counter wraps. */
  ghost predicate Unhurried(calls: seq<Call>) {
    forall i, j :: 0 <= i <= j < |calls| && calls[j].now < calls[i].now + MINUTE ==> j - i + 1 < U32_LIMIT
  }

  function LastTime(calls: seq<Call>): U64 {
    if calls == [] then 0 else calls[|calls| - 1].now
  }

  ghost predicate GlobalSane(g: GateState, now: U64) {
    g.globalStart <= now && g.globalCount <= GLOBAL_RECORDS
  }

  lemma {:induction false} RunsAreSane(calls: seq<Call>)
    requires TimeGoesOn(calls)
    ensures GlobalSane(After(calls), LastTime(calls))
  {
    if calls != [] {
      RunsAreSane(calls[..|calls| - 1]);
    }
  }

  /** The window of `w` began with some call, and counts no more than the calls since. */
  ghost predicate WindowBegan(calls: seq<Call>, w: string) {
    w in After(calls).peers ==>
      exists i :: 0 <= i < |calls| && CountsFrom(After(calls).peers[w], calls[i].now, |calls| - i)
  }

  predicate CountsFrom(e: Entry, start: U64, calls: nat) {
    e.start == start && 1 <= e.count <= calls
  }

  /** A window begins, stays, or counts one more while it is open. */
  lemma WindowStep(g: GateState, w: string, who: string, now: U64)
    ensures var g' := Check(g, who, now).0;
            w in g'.peers ==>
              || CountsFrom(g'.peers[w], now, 1)
              || (w in g.peers && g'.peers[w].start == g.peers[w].start
                  && (g'.peers[w].count == g.peers[w].count
                      || (!Expired(g.peers[w].start, now) && g'.peers[w].count == Inc(g.peers[w].count))))
  {
  }

  lemma {:induction false} WindowsBegan(calls: seq<Call>, w: string)
    requires TimeGoesOn(calls) && Unhurried(calls)
    ensures WindowBegan(calls, w)
  {
    if calls != [] && w in After(calls).peers {
      var init, c := calls[..|calls| - 1], calls[|calls| - 1];
      WindowsBegan(init, w);
      WindowStep(After(init), w, c.who, c.now);
      if CountsFrom(After(calls).peers[w], c.now, 1) {
        assert CountsFrom(After(calls).peers[w], calls[|init|].now, |calls| - |init|);
      } else {
        var i :| 0 <= i < |init| && CountsFrom(After(init).peers[w], init[i].now, |init| - i);
        assert calls[i] == init[i] && calls[|init|] == c;
        assert CountsFrom(After(calls).peers[w], calls[i].now, |calls| - i);
      }
    }
  }

  /** A window that is still open counts on without wrapping. */
  ghost predicate PeerSane(g: GateState, w: string, now: U64) {
    w in g.peers ==>
      && 1 <= g.peers[w].count && g.peers[w].start <= now
      && (now < g.peers[w].start + MINUTE ==> g.peers[w].count + 1 < U32_LIMIT)
  }

  /** The state before the last call, which is within a minute of `calls[from]`. */
  lemma BeforeLast(calls: seq<Call>, from: nat)
    requires TimeGoesOn(calls) && from < |calls| && LastTime(calls) < calls[from].now + MINUTE
    ensures var init, c := calls[..|calls| - 1], calls[|calls| - 1];
            && TimeGoesOn(init) && GlobalSane(After(init), LastTime(init)) && LastTime(init) <= c.now
            && calls[from].now <= c.now < calls[from].now + MINUTE
            && (from < |init| ==> init[from] == calls[from] && LastTime(init) < calls[from].now + MINUTE)
            && (After(calls), VerdictOf(calls)) == Check(After(init), c.who, c.now)
  {
    RunsAreSane(calls[..|calls| - 1]);
  }

  lemma PeerBeforeLast(calls: seq<Call>, w: string)
    requires TimeGoesOn(calls) && Unhurried(calls) && calls != []
    ensures Unhurried(calls[..|calls| - 1])
    ensures PeerSane(After(calls[..|calls| - 1]), w, LastTime(calls))
  {
    var init := calls[..|calls| - 1];
    WindowsBegan(init, w);
    if w in After(init).peers {
      var i :| 0 <= i < |init| && CountsFrom(After(init).peers[w], init[i].now, |init| - i);
      assert calls[i] == init[i] && calls[i].now <= calls[|init|].now;
    }
  }

  lemma NoneYet(calls: seq<Call>, one: seq<Call> -> nat)
    ensures Tally(calls, |calls|, one) == 0
  {
  }

  // ---------- answers to one peer ----------

  function Least(a: nat, b: nat): nat {
    if a < b then a else b
  }

  /** Answers `n` to `w` since `t0`: one window's worth, and the one begun since. */
  ghost predicate AnswersHold(g: GateState, w: string, t0: U64, n: nat) {
    if w in g.peers && g.peers[w].start >= t0 then n <= PEER_ANSWERS + Least(g.peers[w].count, PEER_ANSWERS)
    else n <= PEER_ANSWERS && (w in g.peers ==> n <= Least(g.peers[w].count, PEER_ANSWERS))
  }

  lemma AnswersStep(g: GateState, w: string, t0: U64, n: nat, who: string, now: U64)
    requires AnswersHold(g, w, t0, n) && PeerSane(g, w, now)
    requires t0 <= now < t0 + MINUTE
    ensures var (g', v) := Check(g, who, now); AnswersHold(g', w, t0, if who == w && v.answer then n + 1 else n)
  {
  }

  lemma {:induction false} AnswersInSpan(calls: seq<Call>, from: nat, w: string)
    requires TimeGoesOn(calls) && Unhurried(calls) && from < |calls| && LastTime(calls) < calls[from].now + MINUTE
    ensures AnswersHold(After(calls), w, calls[from].now, Tally(calls, from, Answered(w)))
  {
    var init, c := calls[..|calls| - 1], calls[|calls| - 1];
    var t0 := calls[from].now;
    BeforeLast(calls, from);
    PeerBeforeLast(calls, w);
    if from == |init| {
      NoneYet(init, Answered(w));
    } else {
      AnswersInSpan(init, from, w);
    }
    AnswersStep(After(init), w, t0, Tally(init, from, Answered(w)), c.who, c.now);
  }

  /** In any span shorter than a minute one peer gets at most twice its answers. */
  lemma AnswersAreFew(calls: seq<Call>, from: nat, w: string)
    requires TimeGoesOn(calls) && Unhurried(calls) && from < |calls| && LastTime(calls) < calls[from].now + MINUTE
    ensures Tally(calls, from, Answered(w)) <= 2 * PEER_ANSWERS
  {
    AnswersInSpan(calls, from, w);
  }

  // ---------- records ----------

  ghost predicate RecordsHold(g: GateState, t0: U64, n: nat) {
    n <= g.globalCount + (if g.globalStart >= t0 then GLOBAL_RECORDS else 0)
  }

  lemma {:induction false} RecordsInSpan(calls: seq<Call>, from: nat)
    requires TimeGoesOn(calls) && from < |calls| && LastTime(calls) < calls[from].now + MINUTE
    ensures RecordsHold(After(calls), calls[from].now, Tally(calls, from, Recorded()))
  {
    var init := calls[..|calls| - 1];
    BeforeLast(calls, from);
    if from == |init| {
      NoneYet(init, Recorded());
    } else {
      RecordsInSpan(init, from);
    }
  }

  /** In any span shorter than a minute at most twice the global number of records is made. */
  lemma RecordsAreFew(calls: seq<Call>, from: nat)
    requires TimeGoesOn(calls) && from < |calls| && LastTime(calls) < calls[from].now + MINUTE
    ensures Tally(calls, from, Recorded()) <= 2 * GLOBAL_RECORDS
  {
    RecordsInSpan(calls, from);
    RunsAreSane(calls);
  }

  ghost predicate OneRecordHolds(g: GateState, w: string, t0: U64, n: nat) {
    n == 0 || (n == 1 && w in g.peers && g.peers[w].start >= t0)
  }

  lemma {:induction false} OneRecordInSpan(calls: seq<Call>, from: nat, w: string)
    requires TimeGoesOn(calls) && Unhurried(calls) && from < |calls| && LastTime(calls) < calls[from].now + MINUTE
    ensures OneRecordHolds(After(calls), w, calls[from].now, Tally(calls, from, RecordedFor(w)))
  {
    var init, c := calls[..|calls| - 1], calls[|calls| - 1];
    BeforeLast(calls, from);
    PeerBeforeLast(calls, w);
    if from == |init| {
      NoneYet(init, RecordedFor(w));
    } else {
      OneRecordInSpan(init, from, w);
    }
    var n := Tally(init, from, RecordedFor(w));
    OneRecordStep(After(init), w, calls[from].now, n, c.who, c.now);
  }

  lemma OneRecordStep(g: GateState, w: string, t0: U64, n: nat, who: string, now: U64)
    requires OneRecordHolds(g, w, t0, n) && PeerSane(g, w, now)
    requires t0 <= now < t0 + MINUTE
    ensures var (g', v) := Check(g, who, now);
            OneRecordHolds(g', w, t0, if who == w && v.record.Some? then n + 1 else n)
  {
  }

  /** A peer is recorded at most once a minute. */
  lemma OneRecordAMinute(calls: seq<Call>, from: nat, w: string)
    requires TimeGoesOn(calls) && Unhurried(calls) && from < |calls| && LastTime(calls) < calls[from].now + MINUTE
    ensures Tally(calls, from, RecordedFor(w)) <= 1
  {
    OneRecordInSpan(calls, from, w);
  }

  // ---------- what is never held back ----------

  /** The refusals of `w` less than a minute before `now`. */
  function RecentOf(calls: seq<Call>, w: string, now: U64): nat {
    if calls == [] then 0
    else
      var c := calls[|calls| - 1];
      RecentOf(calls[..|calls| - 1], w, now) + if c.who == w && now < c.now + MINUTE then 1 else 0
  }

  /** The records made less than a minute before `now`. */
  function RecentRecords(calls: seq<Call>, now: U64): nat {
    if calls == [] then 0
    else
      RecentRecords(calls[..|calls| - 1], now)
      + if now < calls[|calls| - 1].now + MINUTE && VerdictOf(calls).record.Some? then 1 else 0
  }

  /** An open window counts no more than was refused lately, and one is closed if nothing was. */
  ghost predicate CountsRecent(g: GateState, w: string, now: U64, last: U64, recent: nat) {
    w in g.peers ==>
      && g.peers[w].start <= last
      && (now < g.peers[w].start + MINUTE ==> g.peers[w].count <= recent)
      && (recent == 0 ==> g.peers[w].start + MINUTE <= now)
  }

  lemma {:induction false} WindowsCountRecent(calls: seq<Call>, w: string, now: U64)
    requires TimeGoesOn(calls) && LastTime(calls) <= now
    ensures CountsRecent(After(calls), w, now, LastTime(calls), RecentOf(calls, w, now))
  {
    if calls != [] {
      var init, c := calls[..|calls| - 1], calls[|calls| - 1];
      WindowsCountRecent(init, w, now);
      CountsRecentStep(After(init), w, now, LastTime(init), RecentOf(init, w, now), c);
    }
  }

  lemma CountsRecentStep(g: GateState, w: string, now: U64, was: U64, recent: nat, c: Call)
    requires CountsRecent(g, w, now, was, recent) && was <= c.now <= now
    ensures CountsRecent(Check(g, c.who, c.now).0, w, now, c.now,
                         recent + if c.who == w && now < c.now + MINUTE then 1 else 0)
  {
  }

  lemma {:induction false} RecordsCountRecent(calls: seq<Call>, now: U64)
    requires TimeGoesOn(calls) && LastTime(calls) <= now
    ensures var g := After(calls);
            g.globalStart <= LastTime(calls)
            && (now < g.globalStart + MINUTE ==> g.globalCount <= RecentRecords(calls, now))
  {
    if calls != [] { RecordsCountRecent(calls[..|calls| - 1], now); }
  }

  /** A refusal is answered whenever fewer than ten of its peer came in the minute before it. */
  lemma FewAreAnswered(calls: seq<Call>)
    requires calls != [] && TimeGoesOn(calls)
    requires var c := calls[|calls| - 1]; RecentOf(calls[..|calls| - 1], c.who, c.now) < 10
    ensures VerdictOf(calls).answer
  {
    var init, c := calls[..|calls| - 1], calls[|calls| - 1];
    WindowsCountRecent(init, c.who, c.now);
  }

  /**
    It is recorded, with all of its peer's that is pending, whenever none of its peer came in
    the minute before it and fewer than twenty records were made in it.
   */
  lemma QuietIsRecorded(calls: seq<Call>)
    requires calls != [] && TimeGoesOn(calls)
    requires var c := calls[|calls| - 1];
             RecentOf(calls[..|calls| - 1], c.who, c.now) == 0 && RecentRecords(calls[..|calls| - 1], c.now) < 20
    ensures var c := calls[|calls| - 1];
            VerdictOf(calls).record.Some? && PendingOf(After(calls), c.who) == 0
  {
    var init, c := calls[..|calls| - 1], calls[|calls| - 1];
    WindowsCountRecent(init, c.who, c.now);
    RecordsCountRecent(init, c.now);
  }

  // ---------- every refusal is counted ----------

  function PendingOf(g: GateState, w: string): nat {
    EntryOf(g.peers, w).pending
  }

  ghost function CallsOf(w: string): seq<Call> -> nat {
    (calls: seq<Call>) => if calls != [] && calls[|calls| - 1].who == w then 1 else 0
  }

  /** The refusals folded into the records about `w`. */
  ghost function FoldedFor(w: string): seq<Call> -> nat {
    (calls: seq<Call>) =>
      if calls != [] && calls[|calls| - 1].who == w && VerdictOf(calls).record.Some?
      then VerdictOf(calls).record.value else 0
  }

  /** The unrecorded refusals of `w` that a purge forgets. */
  ghost function Forgotten(w: string): seq<Call> -> nat {
    (calls: seq<Call>) =>
      if calls == [] then 0
      else
        var g := After(calls[..|calls| - 1]);
        PendingOf(g, w) - EntryOf(Purged(g.peers, calls[|calls| - 1].now), w).pending
  }

  lemma PendingStep(g: GateState, w: string, who: string, now: U64)
    ensures var (g', v) := Check(g, who, now);
            var folded := if who == w && v.record.Some? then v.record.value else 0;
            var counted := EntryOf(Purged(g.peers, now), w).pending + if who == w then 1 else 0;
            folded + PendingOf(g', w) == if counted == U32_LIMIT then 0 else counted
  {
  }

  /** The refusals of `w` found again: folded into records, pending, or forgotten by a purge. */
  ghost function FoundAgain(calls: seq<Call>, w: string): nat {
    Tally(calls, 0, FoldedFor(w)) + PendingOf(After(calls), w) + Tally(calls, 0, Forgotten(w))
  }

  /** One more refusal is found again, unless it makes the pending ones wrap. */
  lemma FoundStep(calls: seq<Call>, w: string)
    requires calls != []
    ensures var init, d := calls[..|calls| - 1], CallsOf(w)(calls);
            || FoundAgain(calls, w) == FoundAgain(init, w) + d
            || FoundAgain(calls, w) == FoundAgain(init, w) + d - U32_LIMIT
  {
    var init, c := calls[..|calls| - 1], calls[|calls| - 1];
    PendingStep(After(init), w, c.who, c.now);
    var kept := EntryOf(Purged(After(init).peers, c.now), w).pending;
    assert Forgotten(w)(calls) == PendingOf(After(init), w) - kept;
    var folded := FoldedFor(w)(calls);
    assert folded + PendingOf(After(calls), w) == if kept + CallsOf(w)(calls) == U32_LIMIT then 0
                                                  else kept + CallsOf(w)(calls);
    assert Tally(calls, 0, FoldedFor(w)) == Tally(init, 0, FoldedFor(w)) + folded;
  }

  /** `n` is short of `m` by whole wraps of a counter. */
  ghost predicate ShortByWraps(n: nat, m: nat) {
    exists wraps: nat :: m == n + Wraps(wraps)
  }

  function Wraps(n: nat): nat {
    n * U32_LIMIT
  }

  /**
    Every refusal of a peer is in a record, pending, or was forgotten by a purge, short only by
    whole wraps of the 32-bit counter; with fewer than 2^32 refusals by nothing.
   */
  lemma {:induction false} RefusalsAreCounted(calls: seq<Call>, w: string)
    ensures ShortByWraps(FoundAgain(calls, w), Tally(calls, 0, CallsOf(w)))
    ensures Tally(calls, 0, CallsOf(w)) < U32_LIMIT ==> FoundAgain(calls, w) == Tally(calls, 0, CallsOf(w))
  {
    if calls == [] {
      assert 0 == FoundAgain(calls, w) + Wraps(0);
    } else {
      var init := calls[..|calls| - 1];
      RefusalsAreCounted(init, w);
      FoundStep(calls, w);
      var n: nat :| Tally(init, 0, CallsOf(w)) == FoundAgain(init, w) + Wraps(n);
      assert Tally(calls, 0, CallsOf(w)) == Tally(init, 0, CallsOf(w)) + CallsOf(w)(calls);
      var total := Tally(calls, 0, CallsOf(w));
      assert total == FoundAgain(calls, w) + Wraps(n) || total == FoundAgain(calls, w) + Wraps(n + 1);
    }
  }

  /** No purge, nothing forgotten. */
  lemma {:induction false} NothingForgotten(calls: seq<Call>, w: string)
    requires forall i :: 0 <= i < |calls| ==> |After(calls[..i]).peers| <= MAX_PEERS
    ensures Tally(calls, 0, Forgotten(w)) == 0
  {
    if calls != [] {
      var init := calls[..|calls| - 1];
      forall i | 0 <= i < |init| ensures |After(init[..i]).peers| <= MAX_PEERS {
        assert init[..i] == calls[..i];
      }
      NothingForgotten(init, w);
    }
  }

  // ---------- places for running commands ----------

  const MAX_PER_DEVICE: nat := 4

  /** How many commands run for each device; `held` are the places handed out. */
  class Sessions {
    var running: map<string, nat>
    ghost var held: multiset<string>

    ghost predicate Valid()
      reads this
    {
      && (forall who :: who in running <==> held[who] > 0)
      && (forall who :: who in running ==> running[who] == held[who] <= MAX_PER_DEVICE)
    }

    constructor ()
      ensures Valid() && held == multiset{}
    {
      running, held := map[], multiset{};
    }

    /** A place, refused exactly when the device already has all of its own. */
    method Take(who: string) returns (ok: bool)
      requires Valid()
      modifies this
      ensures Valid() && (ok <==> old(held)[who] < MAX_PER_DEVICE)
      ensures held == if ok then old(held) + multiset{who} else old(held)
    {
      var n := if who in running then running[who] else 0;
      if n >= MAX_PER_DEVICE { return false; }
      running := running[who := n + 1];
      held := held + multiset{who};
      return true;
    }

    /** The command ends and frees its place. */
    method Drop(who: string)
      requires Valid() && who in held
      modifies this
      ensures Valid() && held == old(held) - multiset{who}
    {
      if who in running {
        var n := running[who] - 1;
        running := if n == 0 then running - {who} else running[who := n];
      }
      held := held - multiset{who};
    }
  }
}
