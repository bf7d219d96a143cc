/** Fingerprints of two copies of one message that merge each other: when they meet, and when never. */
module Fingerprints {
  import opened Common
  import opened Messages
  import opened Convergence
  import opened Slotting
  import opened Exchange
  import opened Window

  // ---------- fingerprints and versions ----------

  /** Same fingerprint, same message shown. */
  lemma SamePrintSameVersion(x: Message, y: Message)
    requires CurrentBuild(x) && CurrentBuild(y) && KeyOf(x) == KeyOf(y) && Agree(ViewOf(x), ViewOf(y))
    requires PrintOf(x) == PrintOf(y)
    ensures VersionOf(x) == VersionOf(y)
  {
    forall c ensures c in x.reactionRevs <==> c in y.reactionRevs {
      assert c in multiset(x.reactionRevs) <==> c in multiset(y.reactionRevs);
    }
    if !x.deleted {
      SameClocksSameMarks(x.reactionRevs, y.reactionRevs);
    }
  }

  lemma SameClocksSameMarks(r: seq<ReactionRev>, s: seq<ReactionRev>)
    requires OneClockEach(r) && OneClockEach(s) && forall c :: c in r <==> c in s
    ensures Marks(r) == Marks(s)
  {
    var m := Marks(s);
    forall c | c in r ensures c.key in m && m[c.key] == Mark(c.at, c.on) {
      MarkUnique(s, c);
    }
    MarksAre(r, m);
  }

  /** And the other way round: a live message's fingerprint is its version. */
  lemma SameVersionSamePrint(x: Message, y: Message)
    requires CurrentBuild(x) && CurrentBuild(y) && VersionOf(x) == VersionOf(y) && !x.deleted
    requires Rank(x.status) == Rank(y.status)
    ensures PrintOf(x) == PrintOf(y)
  {
    SameMarksSameClocks(x.reactionRevs, y.reactionRevs);
  }

  lemma SameMarksSameClocks(r: seq<ReactionRev>, s: seq<ReactionRev>)
    requires OneClockEach(r) && OneClockEach(s) && Marks(r) == Marks(s)
    ensures multiset(r) == multiset(s)
  {
    forall c ensures multiset(r)[c] == multiset(s)[c] {
      ClockCount(r, c);
      ClockCount(s, c);
      MarkedIn(r, c);
      MarkedIn(s, c);
    }
  }

  lemma MarkedIn(r: seq<ReactionRev>, c: ReactionRev)
    requires OneClockEach(r)
    ensures c in r <==> c.key in Marks(r) && Marks(r)[c.key] == Mark(c.at, c.on)
  {
    if c in r { MarkUnique(r, c); }
    if c.key in Marks(r) && Marks(r)[c.key] == Mark(c.at, c.on) {
      var d :| d in r && d.key == c.key;
      MarkUnique(r, d);
      assert d == c;
    }
  }

  lemma {:induction false} ClockCount(r: seq<ReactionRev>, c: ReactionRev)
    requires OneClockEach(r)
    ensures multiset(r)[c] == if c in r then 1 else 0
  {
    if r != [] {
      var init, last := r[..|r| - 1], r[|r| - 1];
      assert r == init + [last];
      ClockCount(init, c);
      assert last !in init;
    }
  }

  lemma JoinBackAndForth(v: Version, w: Version)
    requires Compatible(v, w)
    ensures Compatible(v, JoinVersions(w, v)) && JoinVersions(v, JoinVersions(w, v)) == JoinVersions(w, v)
  {
    ViewsBackAndForth(v.view, w.view);
  }

  lemma ViewsBackAndForth(v: View, w: View)
    requires Agree(v, w)
    ensures Agree(v, Join(w, v)) && Join(v, Join(w, v)) == Join(w, v)
  {
    if v.Live? && w.Live? {
      JoinMarksLaws(v.marks, w.marks);
      JoinMarksAssociates(v.marks, v.marks, w.marks);
      JoinMarksLaws(v.marks, v.marks);
    }
  }

  // ---------- one exchange of two copies ----------

  /** The listener's copy `y` once it merged the dialer's. */
  function Over(x: Message, y: Message): Message {
    MergeCopy(y, Incoming(x))
  }

  /** The dialer's copy `x` once it merged what the listener made of both. */
  function Back(x: Message, y: Message): Message {
    MergeCopy(x, Incoming(Over(x, y)))
  }

  /** The clocks that no merge with an unsent copy joins: its own text and reactions stay as they are. */
  predicate ClocksMeet(x: Message, y: Message) {
    && multiset(x.reactionRevs) == multiset(y.reactionRevs) && x.edited == y.edited
    && (x.deleted ==> y.textRev <= x.textRev) && (y.deleted ==> x.textRev <= y.textRev)
  }

  predicate RanksMeet(x: Message, y: Message) {
    x.fromMe || Rank(x.status) == Rank(y.status)
  }

  /** Two copies that end with one fingerprint. */
  predicate PrintsMeet(x: Message, y: Message) {
    RanksMeet(x, y) && (x.deleted || y.deleted ==> ClocksMeet(x, y))
  }

  /** Two copies of one message, as current builds keep them. */
  ghost predicate Copies(x: Message, y: Message) {
    CurrentBuild(x) && CurrentBuild(y) && KeyOf(x) == KeyOf(y) && Agree(ViewOf(x), ViewOf(y))
  }

  lemma Tombstones(x: Message, m: Message)
    requires CurrentBuild(x) && CurrentBuild(m) && (x.deleted || m.deleted)
    ensures var y := MergeCopy(x, Incoming(m));
            && y.rev == Max(x.rev, m.rev) && y.deleted && KeyOf(y) == KeyOf(x)
            && y.textRev == (if x.deleted then x.textRev else Max(x.textRev, m.textRev))
            && y.reactionRevs == x.reactionRevs && y.edited == x.edited
            && Rank(y.status) == if x.fromMe && Rank(m.status) > Rank(x.status) then Rank(m.status) else Rank(x.status)
  {
    NoLegacyReading(x, Incoming(m));
    NoLegacyReading(Incoming(m), x);
  }

  lemma SamePrintMeets(x: Message, y: Message)
    requires PrintOf(x) == PrintOf(y)
    ensures PrintsMeet(x, y)
  {
  }

  /** Whoever merges the other's copy, whether they meet stays as it was. */
  lemma MergingMeets(x: Message, y: Message)
    requires Copies(x, y)
    ensures PrintsMeet(x, Over(x, y)) <==> PrintsMeet(x, y)
    ensures Copies(x, Over(x, y)) && VersionOf(Over(x, y)) == JoinVersions(VersionOf(y), VersionOf(x))
  {
    CopyMerged(y, x);
    JoinBackAndForth(VersionOf(x), VersionOf(y));
    MergeCopyKeepsKey(y, Incoming(x));
    if x.deleted || y.deleted {
      Tombstones(y, x);
    } else {
      LiveRanks(y, x);
    }
  }

  lemma LiveRanks(x: Message, m: Message)
    requires CurrentBuild(x) && CurrentBuild(m) && !x.deleted && !m.deleted
    ensures var y := MergeCopy(x, Incoming(m));
            && !y.deleted
            && Rank(y.status) == if x.fromMe && Rank(m.status) > Rank(x.status) then Rank(m.status) else Rank(x.status)
  {
    MergeFieldsKeepsCard(x, Incoming(m));
    MergeDeletes(x, Incoming(m));
  }

  lemma MeetingIsMutual(x: Message, y: Message)
    requires Copies(x, y)
    ensures Copies(y, x) && (PrintsMeet(x, y) <==> PrintsMeet(y, x))
  {
  }

  /**
    One exchange of two copies of a message leaves both shown the same, and with one
    fingerprint exactly when the copies met: where one was unsent, the other knew no
    later text and no other reactions.
   */
  lemma ExchangedPrints(x: Message, y: Message)
    requires Copies(x, y)
    ensures var (x', y') := (Back(x, y), Over(x, y));
            && Copies(x', y') && VersionOf(x') == VersionOf(y')
            && (PrintOf(x') == PrintOf(y') <==> PrintsMeet(x, y))
            && (PrintsMeet(x', y') <==> PrintsMeet(x, y))
  {
    var z := Over(x, y);
    MergingMeets(x, y);
    MeetingIsMutual(x, z);
    MergingMeets(z, x);
    JoinBackAndForth(VersionOf(x), VersionOf(y));
    MeetingIsMutual(z, Back(x, y));
    MeetingPrints(x, y);
  }

  lemma MeetingPrints(x: Message, y: Message)
    requires Copies(x, y) && Copies(x, Over(x, y)) && CurrentBuild(Back(x, y))
    requires VersionOf(Back(x, y)) == VersionOf(Over(x, y))
    ensures PrintOf(Back(x, y)) == PrintOf(Over(x, y)) <==> PrintsMeet(x, y)
  {
    var z := Over(x, y);
    if x.deleted || y.deleted {
      Tombstones(y, x);
      Tombstones(x, z);
    } else {
      LiveRanks(y, x);
      LiveRanks(x, z);
      MergeCopyKeepsKey(x, Incoming(z));
      MergeCopyKeepsKey(y, Incoming(x));
      if RanksMeet(x, y) { SameVersionSamePrint(Back(x, y), z); }
    }
  }

  // ---------- any number of exchanges ----------

  /** The two copies after these exchanges; in each one or the other dials. */
  function AfterRounds(x: Message, y: Message, firstDials: seq<bool>): (Message, Message) {
    if firstDials == [] then (x, y)
    else
      var (p, q) := AfterRounds(x, y, firstDials[..|firstDials| - 1]);
      if firstDials[|firstDials| - 1] then (Back(p, q), Over(p, q)) else (Over(q, p), Back(q, p))
  }

  /** However often they merge each other, and whoever dials, two copies that do not meet never do. */
  lemma {:induction false} PrintsMeetExactly(x: Message, y: Message, rounds: seq<bool>)
    requires Copies(x, y)
    ensures var (p, q) := AfterRounds(x, y, rounds);
            && Copies(p, q) && (PrintsMeet(p, q) <==> PrintsMeet(x, y))
            && (rounds != [] ==> (PrintOf(p) == PrintOf(q) <==> PrintsMeet(x, y)))
  {
    if rounds != [] {
      PrintsMeetExactly(x, y, rounds[..|rounds| - 1]);
      var (p, q) := AfterRounds(x, y, rounds[..|rounds| - 1]);
      MeetingIsMutual(p, q);
      if rounds[|rounds| - 1] {
        ExchangedPrints(p, q);
      } else {
        ExchangedPrints(q, p);
        MeetingIsMutual(Back(q, p), Over(q, p));
      }
    }
  }

  // ---------- at some inputs ----------

  /** Unsent on two devices, at 2 and at 1. */
  lemma TombstonesApartExample(rounds: seq<bool>)
    requires rounds != []
    ensures
      var x := BLANK.(id := "a", deleted := true, rev := 2, textRev := 2);
      var (p, q) := AfterRounds(x, x.(rev := 1, textRev := 1), rounds);
      Copies(x, x.(rev := 1, textRev := 1)) && PrintOf(p) != PrintOf(q)
  {
    var x := BLANK.(id := "a", deleted := true, rev := 2, textRev := 2);
    PrintsMeetExactly(x, x.(rev := 1, textRev := 1), rounds);
  }

  /** Reacted to on one device at 1, unsent at 5 on the other, which had not heard of it. */
  lemma UnsendMeetsReactionExample(rounds: seq<bool>)
    requires rounds != []
    ensures
      var r := Reaction("e", true);
      var x := BLANK.(id := "a", rev := 1, reactions := [r], reactionRevs := [ReactionRev(r, 1, true)]);
      var y := BLANK.(id := "a", deleted := true, rev := 5, textRev := 5);
      var (p, q) := AfterRounds(x, y, rounds);
      Copies(x, y) && PrintOf(p) != PrintOf(q)
  {
    var r := Reaction("e", true);
    var x := BLANK.(id := "a", rev := 1, reactions := [r], reactionRevs := [ReactionRev(r, 1, true)]);
    var y := BLANK.(id := "a", deleted := true, rev := 5, textRev := 5);
    assert x.reactionRevs[0] in multiset(x.reactionRevs) && x.reactionRevs[0] !in multiset(y.reactionRevs);
    assert x.reactionRevs[0] in x.reactionRevs;
    PrintsMeetExactly(x, y, rounds);
  }

  /** An unsend of what the other device still shows, with nothing there it had not heard of, meets it. */
  lemma PlainUnsendMeets(x: Message, now: U64, rounds: seq<bool>)
    requires CurrentBuild(x) && !x.deleted && x.fromMe && x.rev < U64_MAX && rounds != []
    ensures var (p, q) := AfterRounds(x, ApplyDelete(x, true, now).value, rounds); PrintOf(p) == PrintOf(q)
  {
    PrintsMeetExactly(x, ApplyDelete(x, true, now).value, rounds);
  }

  /** Of two copies of our own unsent message, one delivered, the merge makes one. */
  lemma DeliveryMarksMeet(rounds: seq<bool>)
    requires rounds != []
    ensures
      var x := BLANK.(id := "a", deleted := true, rev := 1, textRev := 1, status := Some(Status.Delivered));
      var (p, q) := AfterRounds(x, x.(status := Some(Sent)), rounds);
      PrintOf(x) != PrintOf(x.(status := Some(Sent))) && PrintOf(p) == PrintOf(q)
  {
    var x := BLANK.(id := "a", deleted := true, rev := 1, textRev := 1, status := Some(Status.Delivered));
    PrintsMeetExactly(x, x.(status := Some(Sent)), rounds);
  }
}
