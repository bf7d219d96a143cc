/** Rounds within a budget: what two devices still differ in shrinks until nothing does. */
module BudgetRounds {
  import opened Common
  import opened Messages
  import opened Threads
  import opened Slotting
  import opened Exchange
  import opened Window
  import opened Fingerprints
  import opened OneExchange

  /** Both threads after one round with these budgets there and back. */
  function RoundWithin(a: Thread, b: Thread, size: Message -> nat, out: nat, answer: nat): (Thread, Thread) {
    var b' := MergeSynced(b, Sent(a, b, size, out));
    (MergeSynced(a, SentBack(a, b, size, out, answer)), b')
  }

  function Sent(a: Thread, b: Thread, size: Message -> nat, out: nat): seq<Message> {
    TakeWithin(Batch(a, DueKeys(a, b)), size, out).0
  }

  function SentBack(a: Thread, b: Thread, size: Message -> nat, out: nat, answer: nat): seq<Message> {
    TakeWithin(Batch(MergeSynced(b, Sent(a, b, size, out)), DueKeys(b, a)), size, answer).0
  }

  /** The budget has room for the newest message that is due. */
  predicate FirstFits(due: seq<Message>, size: Message -> nat, budget: nat) {
    due != [] ==> size(due[0]) <= budget
  }

  predicate BothFit(a: Thread, b: Thread, size: Message -> nat, out: nat, answer: nat) {
    && FirstFits(Batch(a, DueKeys(a, b)), size, out)
    && FirstFits(Batch(MergeSynced(b, Sent(a, b, size, out)), DueKeys(b, a)), size, answer)
  }

  // ---------- the first of a batch is the newest ----------

  lemma {:induction false} ReverseFirst(s: seq<Message>)
    requires s != []
    ensures Reverse(s) != [] && Reverse(s)[0] == s[|s| - 1]
  {
    if |s| > 1 { ReverseFirst(s[1..]); }
  }

  lemma {:induction false} LastSelected(t: Thread, keys: set<SyncKey>, i: nat)
    requires i < |t| && KeyOf(t[i]) in keys && forall j :: i < j < |t| ==> KeyOf(t[j]) !in keys
    ensures var s := Select(t, keys); s != [] && s[|s| - 1] == Stripped(t[i])
  {
    if i > 0 {
      LastSelected(t[1..], keys, i - 1);
    } else if Select(t[1..], keys) != [] {
      var m := Select(t[1..], keys)[0];
      SelectElements(t[1..], keys, m);
    }
  }

  /** Whatever is sent at all, the newest that is due is in it. */
  lemma FirstSent(t: Thread, keys: set<SyncKey>, x: Message, piece: seq<Message>)
    requires StrictlyInTime(t) && x in t && KeyOf(x) in keys
    requires forall z :: z in t && KeyOf(z) in keys ==> z.ts <= x.ts
    requires piece <= Batch(t, keys) && (Batch(t, keys) != [] ==> piece != [])
    ensures KeyOf(x) in KeySet(piece)
  {
    var i :| 0 <= i < |t| && t[i] == x;
    forall j | i < j < |t| ensures KeyOf(t[j]) !in keys {
      assert t[j] in t && t[i].ts < t[j].ts;
    }
    LastSelected(t, keys, i);
    ReverseFirst(Select(t, keys));
    assert piece[0] == Stripped(x) && piece[0] in piece;
  }

  // ---------- what a round starts from ----------

  /** The copies of every message with fewer than a window newer in `u` meet. */
  ghost predicate MeetWithin(a: Thread, b: Thread, u: set<U64>) {
    forall x, y :: x in a && y in b && KeyOf(x) == KeyOf(y) && Recent(u, x.ts) ==> PrintsMeet(x, y)
  }

  /** Every recent time of `u` is that of a message held. */
  ghost predicate HoldsRecent(a: Thread, b: Thread, u: set<U64>) {
    forall w :: w in u && Recent(u, w) ==> w in AllTimes(a, b)
  }

  ghost predicate Ground(a: Thread, b: Thread, times: Timetable, u: set<U64>) {
    Pair(a, b, times) && AllTimes(a, b) <= u && HoldsRecent(a, b, u) && MeetWithin(a, b, u)
  }

  /** The recent messages that are not on both sides with one fingerprint. */
  ghost function Unsettled(a: Thread, b: Thread, u: set<U64>): set<SyncKey> {
    set x: Message | x in a + b && Recent(u, x.ts) && !SameAt(a, b, KeyOf(x)) :: KeyOf(x)
  }

  lemma GroundIsMutual(a: Thread, b: Thread, times: Timetable, u: set<U64>)
    requires Ground(a, b, times, u)
    ensures Ground(b, a, times, u) && Unsettled(b, a, u) == Unsettled(a, b, u)
  {
    PairIsMutual(a, b, times);
    forall x, y | x in b && y in a && KeyOf(x) == KeyOf(y) && Recent(u, x.ts) ensures PrintsMeet(x, y) {
      assert x.ts == y.ts;
      MeetingIsMutual(y, x);
    }
    forall k ensures SameAt(a, b, k) <==> SameAt(b, a, k) {
    }
    assert forall x :: x in a + b <==> x in b + a;
  }

  // ---------- one round ----------

  /** What moves in a round: something each way in which anything is due. */
  ghost predicate Round(a: Thread, b: Thread, sent: seq<Message>, back: seq<Message>, times: Timetable, u: set<U64>) {
    && TwoLegs(a, b, sent, back, times, u)
    && (Batch(a, DueKeys(a, b)) != [] ==> sent != [])
    && (Batch(MergeSynced(b, sent), DueKeys(b, a)) != [] ==> back != [])
  }

  lemma BudgetedRound(a: Thread, b: Thread, size: Message -> nat, out: nat, answer: nat, times: Timetable, u: set<U64>)
    requires Pair(a, b, times) && AllTimes(a, b) <= u && BothFit(a, b, size, out, answer)
    ensures Round(a, b, Sent(a, b, size, out), SentBack(a, b, size, out, answer), times, u)
  {
    TakenIsNewest(Batch(a, DueKeys(a, b)), size, out);
    TakenIsNewest(Batch(MergeSynced(b, Sent(a, b, size, out)), DueKeys(b, a)), size, answer);
  }

  lemma LegKeepsMeeting(from: Thread, t: Thread, piece: seq<Message>, keys: set<SyncKey>, times: Timetable,
                        u: set<U64>)
    requires Leg(from, t, piece, keys, times, u) && MeetWithin(from, t, u)
    ensures MeetWithin(from, MergeSynced(t, piece), u)
  {
    forall x, q | x in from && q in MergeSynced(t, piece) && KeyOf(x) == KeyOf(q) && Recent(u, x.ts)
      ensures PrintsMeet(x, q)
    {
      LegLeaves(from, t, piece, keys, times, u, x, q);
      BesideIsCopy(from, t, times, x, q);
    }
  }

  lemma MeetingBothWays(a: Thread, b: Thread, times: Timetable, u: set<U64>)
    requires Pair(a, b, times) && MeetWithin(a, b, u)
    ensures MeetWithin(b, a, u)
  {
    forall x, y | x in b && y in a && KeyOf(x) == KeyOf(y) && Recent(u, x.ts) ensures PrintsMeet(x, y) {
      assert x.ts == y.ts;
      MeetingIsMutual(y, x);
    }
  }

  lemma StillHeld(a: Thread, b: Thread, sent: seq<Message>, back: seq<Message>, x: Message, times: Timetable,
                  u: set<U64>)
    requires TwoLegs(a, b, sent, back, times, u) && Recent(u, x.ts)
    ensures x in b ==> Holds(MergeSynced(b, sent), KeyOf(x))
    ensures x in a ==> Holds(MergeSynced(a, back), KeyOf(x))
  {
    BothLegs(a, b, sent, back, times, u);
    if x in b { LegAt(a, b, sent, DueKeys(a, b), times, u, KeyOf(x)); }
    if x in a { LegAt(MergeSynced(b, sent), a, back, DueKeys(b, a), times, u, KeyOf(x)); }
  }

  lemma RoundKeepsRecent(a: Thread, b: Thread, sent: seq<Message>, back: seq<Message>, times: Timetable, u: set<U64>)
    requires TwoLegs(a, b, sent, back, times, u) && HoldsRecent(a, b, u)
    ensures HoldsRecent(MergeSynced(a, back), MergeSynced(b, sent), u)
  {
    var a', b' := MergeSynced(a, back), MergeSynced(b, sent);
    BothLegs(a, b, sent, back, times, u);
    forall w | w in u && Recent(u, w) ensures w in AllTimes(a', b') {
      var x :| (x in a || x in b) && x.ts == w;
      StillHeld(a, b, sent, back, x, times, u);
      var y: Message :| (y in a' || y in b') && KeyOf(y) == KeyOf(x);
      assert y.ts == w;
    }
  }

  lemma RoundKeepsGround(a: Thread, b: Thread, sent: seq<Message>, back: seq<Message>, times: Timetable, u: set<U64>)
    requires Ground(a, b, times, u) && TwoLegs(a, b, sent, back, times, u)
    ensures Ground(MergeSynced(a, back), MergeSynced(b, sent), times, u)
  {
    var b' := MergeSynced(b, sent);
    BothLegs(a, b, sent, back, times, u);
    RoundKeepsRecent(a, b, sent, back, times, u);
    LegKeepsPair(a, b, sent, DueKeys(a, b), times, u);
    LegKeepsMeeting(a, b, sent, DueKeys(a, b), times, u);
    MeetingBothWays(a, b', times, u);
    LegKeepsMeeting(b', a, back, DueKeys(b, a), times, u);
    LegKeepsPair(b', a, back, DueKeys(b, a), times, u);
    MeetingBothWays(b', MergeSynced(a, back), times, u);
  }

  lemma NewerIsRecent(u: set<U64>, s: U64, t: U64)
    requires Recent(u, s) && s <= t
    ensures Recent(u, t)
  {
    SubsetCardinality(Above(u, t), Above(u, s));
  }

  /** What is due of a recent message is unsettled. */
  lemma DueIsUnsettled(a: Thread, b: Thread, z: Message, times: Timetable, u: set<U64>)
    requires Pair(a, b, times) && AllTimes(a, b) <= u && Recent(u, z.ts)
    requires (z in a && KeyOf(z) in DueKeys(a, b)) || (z in b && KeyOf(z) in DueKeys(b, a))
    ensures KeyOf(z) in Unsettled(a, b, u)
  {
    if SameAt(a, b, KeyOf(z)) {
      var p, q :| p in a && q in b && KeyOf(p) == KeyOf(z) && KeyOf(q) == KeyOf(z) && PrintOf(p) == PrintOf(q);
      assert p.ts == z.ts;
      AlikeIsNotDue(a, b, p, q, times, u);
    }
    assert z in a + b;
  }

  ghost predicate NewestUnsettled(a: Thread, b: Thread, u: set<U64>, x: Message) {
    && (x in a || x in b) && KeyOf(x) in Unsettled(a, b, u) && Recent(u, x.ts)
    && forall z :: (z in a || z in b) && KeyOf(z) in Unsettled(a, b, u) ==> z.ts <= x.ts
  }

  /** The newest unsettled message goes first both ways. */
  lemma NewestMoves(a: Thread, b: Thread, sent: seq<Message>, back: seq<Message>, x: Message, times: Timetable,
                    u: set<U64>)
    requires Round(a, b, sent, back, times, u) && NewestUnsettled(a, b, u, x)
    ensures Moves(a, b, sent, back, KeyOf(x))
  {
    BothLegs(a, b, sent, back, times, u);
    if KeyOf(x) in DueKeys(a, b) {
      var y := DueIsHeld(a, b, KeyOf(x));
      TimedIsStrict(a, times);
      forall z | z in a && KeyOf(z) in DueKeys(a, b) ensures z.ts <= y.ts {
        NoNewerDue(a, b, x, z, times, u);
      }
      FirstSent(a, DueKeys(a, b), y, sent);
    }
    if KeyOf(x) in DueKeys(b, a) {
      NewestComesBack(a, b, sent, back, x, times, u);
    }
  }

  lemma NoNewerDue(a: Thread, b: Thread, x: Message, z: Message, times: Timetable, u: set<U64>)
    requires Pair(a, b, times) && AllTimes(a, b) <= u && NewestUnsettled(a, b, u, x)
    requires (z in a && KeyOf(z) in DueKeys(a, b)) || (z in b && KeyOf(z) in DueKeys(b, a))
    ensures z.ts <= x.ts
  {
    if z.ts > x.ts {
      NewerIsRecent(u, x.ts, z.ts);
      DueIsUnsettled(a, b, z, times, u);
    }
  }

  lemma NewestComesBack(a: Thread, b: Thread, sent: seq<Message>, back: seq<Message>, x: Message, times: Timetable,
                        u: set<U64>)
    requires Round(a, b, sent, back, times, u) && NewestUnsettled(a, b, u, x) && KeyOf(x) in DueKeys(b, a)
    ensures KeyOf(x) in KeySet(back)
  {
    var b' := MergeSynced(b, sent);
    BothLegs(a, b, sent, back, times, u);
    var y := DueIsHeld(b, a, KeyOf(x));
    assert y.ts == x.ts;
    StillHeld(a, b, sent, back, y, times, u);
    var y': Message :| y' in b' && KeyOf(y') == KeyOf(x);
    forall z | z in b' && KeyOf(z) in DueKeys(b, a) ensures z.ts <= y'.ts {
      var w := DueIsHeld(b, a, KeyOf(z));
      assert w.ts == z.ts;
      NoNewerDue(a, b, x, w, times, u);
    }
    FirstSent(b', DueKeys(b, a), y', back);
  }

  /** A message settled stays so. */
  lemma SettledStays(a: Thread, b: Thread, sent: seq<Message>, back: seq<Message>, k: SyncKey, times: Timetable,
                     u: set<U64>)
    requires TwoLegs(a, b, sent, back, times, u) && k in times && Recent(u, times[k]) && SameAt(a, b, k)
    ensures SameAt(MergeSynced(a, back), MergeSynced(b, sent), k)
  {
    var p, q :| p in a && q in b && KeyOf(p) == k && KeyOf(q) == k && PrintOf(p) == PrintOf(q);
    BothAlike(a, b, sent, back, p, q, times, u);
  }

  /** No message is new to both. */
  lemma FromBefore(a: Thread, b: Thread, sent: seq<Message>, back: seq<Message>, p: Message, times: Timetable,
                   u: set<U64>) returns (z: Message)
    requires TwoLegs(a, b, sent, back, times, u) && (p in MergeSynced(a, back) || p in MergeSynced(b, sent))
    ensures (z in a || z in b) && KeyOf(z) == KeyOf(p) && z.ts == p.ts
  {
    BothLegs(a, b, sent, back, times, AllTimes(a, b));
    assert p.ts in AllTimes(a, b);
    z :| (z in a || z in b) && z.ts == p.ts;
    assert times[KeyOf(z)] == times[KeyOf(p)];
  }

  lemma UnsettledStays(a: Thread, b: Thread, sent: seq<Message>, back: seq<Message>, times: Timetable, u: set<U64>)
    requires TwoLegs(a, b, sent, back, times, u)
    ensures Unsettled(MergeSynced(a, back), MergeSynced(b, sent), u) <= Unsettled(a, b, u)
  {
    var a', b' := MergeSynced(a, back), MergeSynced(b, sent);
    forall k | k in Unsettled(a', b', u) ensures k in Unsettled(a, b, u) {
      var p: Message :| p in a' + b' && Recent(u, p.ts) && !SameAt(a', b', k) && KeyOf(p) == k;
      var z := FromBefore(a, b, sent, back, p, times, u);
      if SameAt(a, b, k) { SettledStays(a, b, sent, back, k, times, u); }
      assert z in a + b;
    }
  }

  lemma PickNewest(a: Thread, b: Thread, times: Timetable, u: set<U64>) returns (x: Message)
    requires Pair(a, b, times) && Unsettled(a, b, u) != {}
    ensures NewestUnsettled(a, b, u, x)
  {
    var open := Unsettled(a, b, u);
    var ts := set z: Message | z in a + b && KeyOf(z) in open :: z.ts;
    var k :| k in open;
    var y: Message :| y in a + b && Recent(u, y.ts) && !SameAt(a, b, k) && KeyOf(y) == k;
    assert y.ts in ts;
    var top := MaxOf(ts);
    x :| x in a + b && KeyOf(x) in open && x.ts == top;
    forall z | (z in a || z in b) && KeyOf(z) in open ensures z.ts <= x.ts {
      assert z in a + b && z.ts in ts;
    }
    NewerIsRecent(u, y.ts, x.ts);
  }

  /** Each round settles the newest message not yet settled, and unsettles none. */
  lemma RoundShrinks(a: Thread, b: Thread, sent: seq<Message>, back: seq<Message>, times: Timetable, u: set<U64>)
    requires Ground(a, b, times, u) && Round(a, b, sent, back, times, u) && Unsettled(a, b, u) != {}
    ensures Unsettled(MergeSynced(a, back), MergeSynced(b, sent), u) < Unsettled(a, b, u)
  {
    var a', b' := MergeSynced(a, back), MergeSynced(b, sent);
    UnsettledStays(a, b, sent, back, times, u);
    var x := PickNewest(a, b, times, u);
    NewestMoves(a, b, sent, back, x, times, u);
    RecentMet(a, b, sent, back, x, times, u);
    assert MeetAt(a, b, KeyOf(x)) by {
      forall p, q | p in a && q in b && KeyOf(p) == KeyOf(x) && KeyOf(q) == KeyOf(x) ensures PrintsMeet(p, q) {
        assert p.ts == x.ts;
      }
    }
    var p, q :| Met(a', b', KeyOf(x), p, q, MeetAt(a, b, KeyOf(x)));
    assert SameAt(a', b', KeyOf(x));
    assert KeyOf(x) !in Unsettled(a', b', u);
  }

  lemma NothingUnsettled(a: Thread, b: Thread, times: Timetable, u: set<U64>)
    requires Ground(a, b, times, u) && Unsettled(a, b, u) == {}
    ensures DigestOf(a) == DigestOf(b)
  {
    TimedIsStrict(a, times);
    TimedIsStrict(b, times);
    forall x | (x in a || x in b) && Recent(u, x.ts) ensures SameAt(a, b, KeyOf(x)) {
      assert x in a + b;
      assert KeyOf(x) !in Unsettled(a, b, u);
    }
    forall w | w in u && Recent(u, w) ensures w in Times(a) && w in Times(b) {
      var x :| (x in a || x in b) && x.ts == w;
      var p, q :| p in a && q in b && KeyOf(p) == KeyOf(x) && KeyOf(q) == KeyOf(x) && PrintOf(p) == PrintOf(q);
      assert p.ts == w && q.ts == w;
    }
    DigestsEqualExactly(a, b, times, u);
  }

  // ---------- any number of rounds ----------

  /** One budgeted round, whoever dials, with room each way for the newest message that is due. */
  ghost predicate RoundOn(a: Thread, b: Thread, a': Thread, b': Thread) {
    || (exists size: Message -> nat, out: nat, answer: nat ::
          BothFit(a, b, size, out, answer) && RoundWithin(a, b, size, out, answer) == (a', b'))
    || (exists size: Message -> nat, out: nat, answer: nat ::
          BothFit(b, a, size, out, answer) && RoundWithin(b, a, size, out, answer) == (b', a'))
  }

  ghost predicate Rounds(states: seq<(Thread, Thread)>) {
    && states != []
    && forall i :: 0 < i < |states| ==> RoundOn(states[i - 1].0, states[i - 1].1, states[i].0, states[i].1)
  }

  lemma RoundGains(a: Thread, b: Thread, a': Thread, b': Thread, times: Timetable, u: set<U64>)
    requires Ground(a, b, times, u) && RoundOn(a, b, a', b')
    ensures Ground(a', b', times, u)
    ensures Unsettled(a', b', u) < Unsettled(a, b, u) || Unsettled(a', b', u) == {}
  {
    if size: Message -> nat, out: nat, answer: nat
       :| BothFit(a, b, size, out, answer) && RoundWithin(a, b, size, out, answer) == (a', b') {
      DialGains(a, b, size, out, answer, times, u);
    } else {
      var size: Message -> nat, out: nat, answer: nat
        :| BothFit(b, a, size, out, answer) && RoundWithin(b, a, size, out, answer) == (b', a');
      GroundIsMutual(a, b, times, u);
      DialGains(b, a, size, out, answer, times, u);
      GroundIsMutual(b', a', times, u);
    }
  }

  lemma DialGains(a: Thread, b: Thread, size: Message -> nat, out: nat, answer: nat, times: Timetable, u: set<U64>)
    requires Ground(a, b, times, u) && BothFit(a, b, size, out, answer)
    ensures var (a', b') := RoundWithin(a, b, size, out, answer);
            Ground(a', b', times, u) && (Unsettled(a', b', u) < Unsettled(a, b, u) || Unsettled(a', b', u) == {})
  {
    var sent, back := Sent(a, b, size, out), SentBack(a, b, size, out, answer);
    BudgetedRound(a, b, size, out, answer, times, u);
    RoundKeepsGround(a, b, sent, back, times, u);
    UnsettledStays(a, b, sent, back, times, u);
    if Unsettled(a, b, u) != {} { RoundShrinks(a, b, sent, back, times, u); }
  }

  lemma {:induction false} RoundsGain(states: seq<(Thread, Thread)>, times: Timetable, u: set<U64>, n: nat)
    requires Rounds(states) && n < |states| && Ground(states[0].0, states[0].1, times, u)
    ensures Ground(states[n].0, states[n].1, times, u)
    ensures var left := |Unsettled(states[n].0, states[n].1, u)|;
            left == 0 || left + n <= |Unsettled(states[0].0, states[0].1, u)|
  {
    if n > 0 {
      RoundsGain(states, times, u, n - 1);
      var (a, b) := states[n - 1];
      var (p, q) := states[n];
      RoundGains(a, b, p, q, times, u);
      if Unsettled(p, q, u) < Unsettled(a, b, u) {
        StrictSubsetCardinality(Unsettled(p, q, u), Unsettled(a, b, u));
      }
    }
  }

  // ---------- copies that do not meet ----------

  ghost predicate Apart(a: Thread, b: Thread, x: Message, y: Message, u: set<U64>) {
    x in a && y in b && KeyOf(x) == KeyOf(y) && Recent(u, x.ts) && !PrintsMeet(x, y)
  }

  ghost predicate SomeApart(a: Thread, b: Thread, u: set<U64>) {
    exists x, y :: Apart(a, b, x, y, u)
  }

  lemma LegKeepsApart(from: Thread, t: Thread, piece: seq<Message>, keys: set<SyncKey>, times: Timetable, u: set<U64>)
    requires Leg(from, t, piece, keys, times, u) && SomeApart(from, t, u)
    ensures SomeApart(from, MergeSynced(t, piece), u)
  {
    var x, y :| Apart(from, t, x, y, u);
    LegAt(from, t, piece, keys, times, u, KeyOf(x));
    MergingMeets(x, y);
    var q := if KeyOf(x) in KeySet(piece) then Over(x, y) else y;
    assert Apart(from, MergeSynced(t, piece), x, q, u);
  }

  lemma ApartBothWays(a: Thread, b: Thread, times: Timetable, u: set<U64>)
    requires Pair(a, b, times) && SomeApart(a, b, u)
    ensures SomeApart(b, a, u)
  {
    var x, y :| Apart(a, b, x, y, u);
    MeetingIsMutual(x, y);
    assert Apart(b, a, y, x, u);
  }

  lemma DialKeepsApart(a: Thread, b: Thread, size: Message -> nat, out: nat, answer: nat, times: Timetable, u: set<U64>)
    requires Pair(a, b, times) && AllTimes(a, b) <= u && BothFit(a, b, size, out, answer) && SomeApart(a, b, u)
    ensures var (a', b') := RoundWithin(a, b, size, out, answer);
            Pair(a', b', times) && AllTimes(a', b') <= u && SomeApart(a', b', u)
  {
    var sent, back := Sent(a, b, size, out), SentBack(a, b, size, out, answer);
    var b' := MergeSynced(b, sent);
    BudgetedRound(a, b, size, out, answer, times, u);
    BothLegs(a, b, sent, back, times, u);
    LegKeepsApart(a, b, sent, DueKeys(a, b), times, u);
    LegKeepsPair(a, b, sent, DueKeys(a, b), times, u);
    ApartBothWays(a, b', times, u);
    LegKeepsApart(b', a, back, DueKeys(b, a), times, u);
    LegKeepsPair(b', a, back, DueKeys(b, a), times, u);
    ApartBothWays(b', MergeSynced(a, back), times, u);
  }

  lemma RoundKeepsApart(a: Thread, b: Thread, a': Thread, b': Thread, times: Timetable, u: set<U64>)
    requires Pair(a, b, times) && AllTimes(a, b) <= u && SomeApart(a, b, u) && RoundOn(a, b, a', b')
    ensures Pair(a', b', times) && AllTimes(a', b') <= u && SomeApart(a', b', u)
  {
    if size: Message -> nat, out: nat, answer: nat
       :| BothFit(a, b, size, out, answer) && RoundWithin(a, b, size, out, answer) == (a', b') {
      DialKeepsApart(a, b, size, out, answer, times, u);
    } else {
      var size: Message -> nat, out: nat, answer: nat
        :| BothFit(b, a, size, out, answer) && RoundWithin(b, a, size, out, answer) == (b', a');
      PairIsMutual(a, b, times);
      ApartBothWays(a, b, times, u);
      DialKeepsApart(b, a, size, out, answer, times, u);
      PairIsMutual(b', a', times);
      ApartBothWays(b', a', times, u);
    }
  }

  lemma {:induction false} StaysApart(states: seq<(Thread, Thread)>, times: Timetable, u: set<U64>, n: nat)
    requires Rounds(states) && n < |states|
    requires var (a, b) := states[0]; Pair(a, b, times) && AllTimes(a, b) <= u && SomeApart(a, b, u)
    ensures var (a, b) := states[n]; Pair(a, b, times) && AllTimes(a, b) <= u && SomeApart(a, b, u)
  {
    if n > 0 {
      StaysApart(states, times, u, n - 1);
      RoundKeepsApart(states[n - 1].0, states[n - 1].1, states[n].0, states[n].1, times, u);
    }
  }

  lemma ApartDiffer(a: Thread, b: Thread, times: Timetable, u: set<U64>)
    requires Pair(a, b, times) && AllTimes(a, b) <= u && SomeApart(a, b, u)
    ensures DigestOf(a) != DigestOf(b)
  {
    var x, y :| Apart(a, b, x, y, u);
    if PrintOf(x) == PrintOf(y) { SamePrintMeets(x, y); }
    BothDiffering(a, b, x, y, times, u);
  }

  // ---------- the theorem ----------

  /**
    However small the budgets, as long as they hold the newest message that is due each way,
    as many rounds as recent messages were unsettled leave equal digests: nothing more is
    sent. That is so exactly when the copies of each recent message met at the start.
   */
  lemma RoundsSettle(states: seq<(Thread, Thread)>, times: Timetable)
    requires Rounds(states) && Pair(states[0].0, states[0].1, times)
    requires |states| > |Unsettled(states[0].0, states[0].1, AllTimes(states[0].0, states[0].1))|
    ensures DigestOf(states[|states| - 1].0) == DigestOf(states[|states| - 1].1) <==>
              AllMeet(states[0].0, states[0].1)
  {
    var (a, b) := states[0];
    var u, n := AllTimes(a, b), |states| - 1;
    if AllMeet(a, b) {
      assert Ground(a, b, times, u);
      RoundsGain(states, times, u, n);
      NothingUnsettled(states[n].0, states[n].1, times, u);
    } else {
      var x, y :| x in a && y in b && KeyOf(x) == KeyOf(y) && Recent(u, x.ts) && !PrintsMeet(x, y);
      assert Apart(a, b, x, y, u);
      StaysApart(states, times, u, n);
      ApartDiffer(states[n].0, states[n].1, times, u);
    }
  }
}
