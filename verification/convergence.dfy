/**
  What a copy of a message shows, as a point of a join semilattice, and the proof that
  merging copies is the join. Text carries one clock, each reaction its own, and an
  unsend is the top.
 */
module Convergence {
  import opened Common
  import opened Messages

  datatype Mark = Mark(at: U64, on: bool)

  datatype Text = Text(text: string, edited: bool, preview: Option<string>)

  datatype View =
    | Gone
    | Live(textRev: U64, text: Text, marks: map<Reaction, Mark>)

  /** What the user sees: a tombstone, or the text and the set of reactions. */
  datatype Shown = Tombstone | Bubble(text: Text, reactions: set<Reaction>)

  // ---------- reading a copy ----------

  ghost predicate OneClockEach(revs: seq<ReactionRev>) {
    forall i, j :: 0 <= i < j < |revs| ==> revs[i].key != revs[j].key
  }

  ghost function Clocked(revs: seq<ReactionRev>): set<Reaction> {
    set c | c in revs :: c.key
  }

  ghost function MarkOf(revs: seq<ReactionRev>, key: Reaction): Mark
    requires key in Clocked(revs)
  {
    var i := FindRev(revs, key).value;
    Mark(revs[i].at, revs[i].on)
  }

  ghost function Marks(revs: seq<ReactionRev>): map<Reaction, Mark> {
    map key | key in Clocked(revs) :: MarkOf(revs, key)
  }

  ghost function TextOf(m: Message): Text {
    Text(m.text, m.edited, m.linkPreview)
  }

  ghost function ViewOf(m: Message): View {
    if m.deleted then Gone else Live(m.textRev, TextOf(m), Marks(m.reactionRevs))
  }

  ghost function ShownOf(m: Message): Shown {
    if m.deleted then Tombstone else Bubble(TextOf(m), set r | r in m.reactions)
  }

  ghost function ShownBy(v: View): Shown {
    match v
    case Gone => Tombstone
    case Live(_, text, marks) => Bubble(text, set r | r in marks && marks[r].on)
  }

  /** A copy only current builds have touched. */
  ghost predicate CurrentBuild(m: Message) {
    && OneClockEach(m.reactionRevs)
    && m.textRev <= m.rev
    && (forall c :: c in m.reactionRevs ==> c.at <= m.rev)
    && (m.rev == 0 || m.textRev > 0 || m.reactionRevs != [])
    && (m.deleted ==> m.textRev > 0)
    && (!m.deleted ==>
          && (m.edited <==> m.textRev > 0)
          && (forall r :: r in m.reactions <==> exists c :: c in m.reactionRevs && c.key == r && c.on)
          && forall i, j :: 0 <= i < j < |m.reactions| ==> m.reactions[i] != m.reactions[j])
  }

  lemma MarkUnique(revs: seq<ReactionRev>, c: ReactionRev)
    requires OneClockEach(revs) && c in revs
    ensures c.key in Marks(revs) && Marks(revs)[c.key] == Mark(c.at, c.on)
  {
  }

  /** The view says everything that is shown. */
  lemma ShownIsView(m: Message)
    requires CurrentBuild(m)
    ensures ShownOf(m) == ShownBy(ViewOf(m))
  {
    if !m.deleted {
      var marks := Marks(m.reactionRevs);
      forall r ensures r in m.reactions <==> r in marks && marks[r].on {
        if r in m.reactions {
          var c :| c in m.reactionRevs && c.key == r && c.on;
          MarkUnique(m.reactionRevs, c);
        }
        if r in marks && marks[r].on {
          var c :| c in m.reactionRevs && c.key == r;
          MarkUnique(m.reactionRevs, c);
        }
      }
    }
  }

  // ---------- the order ----------

  ghost predicate MarkLeq(a: Mark, b: Mark) {
    a.at < b.at || (a.at == b.at && (b.on ==> a.on))
  }

  ghost predicate MarksLeq(a: map<Reaction, Mark>, b: map<Reaction, Mark>) {
    forall r :: r in a ==> r in b && MarkLeq(a[r], b[r])
  }

  /** `w` has everything `v` has. */
  ghost predicate Leq(v: View, w: View) {
    w.Gone? || (v.Live? && w.Live?
      && (v.textRev < w.textRev || (v.textRev == w.textRev && v.text == w.text))
      && MarksLeq(v.marks, w.marks))
  }

  lemma LeqIsOrder(u: View, v: View, w: View)
    ensures Leq(v, v)
    ensures Leq(u, v) && Leq(v, w) ==> Leq(u, w)
    ensures Leq(v, w) && Leq(w, v) ==> v == w
  {
    if Leq(v, w) && Leq(w, v) && v.Live? {
      assert v.marks.Keys == w.marks.Keys;
      forall r | r in v.marks ensures v.marks[r] == w.marks[r] {
        assert MarkLeq(v.marks[r], w.marks[r]) && MarkLeq(w.marks[r], v.marks[r]);
      }
    }
  }

  ghost function BetterMark(a: Mark, b: Mark): Mark {
    if b.at > a.at || (b.at == a.at && !b.on) then b else a
  }

  ghost function JoinMarks(a: map<Reaction, Mark>, b: map<Reaction, Mark>): map<Reaction, Mark> {
    map r | r in a.Keys + b.Keys ::
      if r !in a then b[r] else if r !in b then a[r] else BetterMark(a[r], b[r])
  }

  ghost function Join(v: View, w: View): View {
    if v.Gone? || w.Gone? then Gone
    else Live(Max(v.textRev, w.textRev), if w.textRev > v.textRev then w.text else v.text, JoinMarks(v.marks, w.marks))
  }

  /** Two edits never share a stamp: the same stamp means the same text. */
  ghost predicate Agree(v: View, w: View) {
    v.Live? && w.Live? && v.textRev == w.textRev ==> v.text == w.text
  }

  lemma JoinIsLeastUpperBound(v: View, w: View, u: View)
    requires Agree(v, w)
    ensures Leq(v, Join(v, w)) && Leq(w, Join(v, w))
    ensures Leq(v, u) && Leq(w, u) ==> Leq(Join(v, w), u)
  {
  }

  // ---------- merging copies is the join ----------

  lemma MarksAre(revs: seq<ReactionRev>, m: map<Reaction, Mark>)
    requires OneClockEach(revs)
    requires forall c :: c in revs ==> c.key in m && m[c.key] == Mark(c.at, c.on)
    requires forall key :: key in m ==> exists c :: c in revs && c.key == key
    ensures Marks(revs) == m
  {
    forall c | c in revs { MarkUnique(revs, c); }
    assert Clocked(revs) == m.Keys;
    forall key | key in m ensures Marks(revs)[key] == m[key] {
      var c :| c in revs && c.key == key;
      MarkUnique(revs, c);
    }
  }

  lemma ReplacedClock(revs: seq<ReactionRev>, i: nat, r: ReactionRev)
    requires OneClockEach(revs) && i < |revs| && revs[i].key == r.key
    ensures OneClockEach(revs[i := r])
    ensures Marks(revs[i := r]) == Marks(revs)[r.key := Mark(r.at, r.on)]
  {
    var out := revs[i := r];
    var m := Marks(revs)[r.key := Mark(r.at, r.on)];
    forall c | c in out ensures c.key in m && m[c.key] == Mark(c.at, c.on) {
      var j :| 0 <= j < |out| && out[j] == c;
      if j != i { MarkUnique(revs, c); }
    }
    forall key | key in m ensures exists c :: c in out && c.key == key {
      if key == r.key {
        assert out[i] in out;
      } else {
        var c :| c in revs && c.key == key;
        var j :| 0 <= j < |revs| && revs[j] == c;
        assert out[j] in out;
      }
    }
    MarksAre(out, m);
  }

  lemma AddedClock(revs: seq<ReactionRev>, r: ReactionRev)
    requires OneClockEach(revs) && r.key !in Clocked(revs)
    ensures OneClockEach(revs + [r])
    ensures Marks(revs + [r]) == Marks(revs)[r.key := Mark(r.at, r.on)]
  {
    var out := revs + [r];
    var m := Marks(revs)[r.key := Mark(r.at, r.on)];
    forall c | c in out ensures c.key in m && m[c.key] == Mark(c.at, c.on) {
      if c in revs { MarkUnique(revs, c); }
    }
    forall key | key in m ensures exists c :: c in out && c.key == key {
      if key == r.key {
        assert r in out;
      } else {
        var c :| c in revs && c.key == key;
        assert c in out;
      }
    }
    forall j | 0 <= j < |revs| ensures revs[j].key != r.key {
      assert revs[j] in revs;
    }
    MarksAre(out, m);
  }

  lemma JoinOneMark(a: map<Reaction, Mark>, key: Reaction, m: Mark)
    ensures JoinMarks(a, map[key := m]) == a[key := if key in a then BetterMark(a[key], m) else m]
  {
  }

  lemma TakeRevJoins(revs: seq<ReactionRev>, r: ReactionRev)
    requires OneClockEach(revs)
    ensures OneClockEach(TakeRev(revs, r))
    ensures Marks(TakeRev(revs, r)) == JoinMarks(Marks(revs), map[r.key := Mark(r.at, r.on)])
  {
    JoinOneMark(Marks(revs), r.key, Mark(r.at, r.on));
    var f := FindRev(revs, r.key);
    if f.None? {
      assert r.key !in Clocked(revs);
      AddedClock(revs, r);
    } else {
      TakeKnownRev(revs, f.value, r);
    }
  }

  lemma TakeKnownRev(revs: seq<ReactionRev>, i: nat, r: ReactionRev)
    requires OneClockEach(revs) && i < |revs| && revs[i].key == r.key
    ensures var out := if Beats(r, revs[i]) then revs[i := r] else revs;
            var m := Marks(revs);
            OneClockEach(out) && r.key in m && Marks(out) == m[r.key := BetterMark(m[r.key], Mark(r.at, r.on))]
  {
    assert revs[i] in revs;
    MarkUnique(revs, revs[i]);
    if Beats(r, revs[i]) {
      ReplacedClock(revs, i, r);
    }
  }

  lemma JoinMarksAssociates(a: map<Reaction, Mark>, b: map<Reaction, Mark>, c: map<Reaction, Mark>)
    ensures JoinMarks(JoinMarks(a, b), c) == JoinMarks(a, JoinMarks(b, c))
  {
  }

  /** Adding one clock of its own kind to a list joins its mark. */
  lemma LastMarkJoins(more: seq<ReactionRev>)
    requires more != [] && OneClockEach(more)
    ensures var r := more[|more| - 1];
            Marks(more) == JoinMarks(Marks(more[..|more| - 1]), map[r.key := Mark(r.at, r.on)])
  {
    var init, r := more[..|more| - 1], more[|more| - 1];
    assert more == init + [r];
    assert r.key !in Clocked(init);
    AddedClock(init, r);
    JoinOneMark(Marks(init), r.key, Mark(r.at, r.on));
  }

  lemma {:induction false} TakeRevsJoins(revs: seq<ReactionRev>, more: seq<ReactionRev>)
    requires OneClockEach(revs) && OneClockEach(more)
    ensures OneClockEach(TakeRevs(revs, more))
    ensures Marks(TakeRevs(revs, more)) == JoinMarks(Marks(revs), Marks(more))
  {
    if more == [] {
      assert Marks(more) == map[];
    } else {
      var init, r := more[..|more| - 1], more[|more| - 1];
      TakeRevsJoins(revs, init);
      TakeRevJoins(TakeRevs(revs, init), r);
      LastMarkJoins(more);
      JoinMarksAssociates(Marks(revs), Marks(init), map[r.key := Mark(r.at, r.on)]);
    }
  }

  lemma {:induction false} TakeRevsGrows(revs: seq<ReactionRev>, more: seq<ReactionRev>)
    ensures |TakeRevs(revs, more)| >= |revs|
    ensures revs != [] || more != [] ==> TakeRevs(revs, more) != []
  {
    if more != [] {
      TakeRevsGrows(revs, more[..|more| - 1]);
    }
  }

  /** Every clock of the merge is a clock of one of the two. */
  lemma {:induction false} TakeRevsFrom(revs: seq<ReactionRev>, more: seq<ReactionRev>, c: ReactionRev)
    requires c in TakeRevs(revs, more)
    ensures c in revs || c in more
  {
    if more != [] && c != more[|more| - 1] {
      TakeRevsFrom(revs, more[..|more| - 1], c);
    }
  }

  ghost predicate NoRepeats(s: seq<Reaction>) {
    forall i, j :: 0 <= i < j < |s| ==> s[i] != s[j]
  }

  lemma {:induction false} KeepLiveElements(rs: seq<Reaction>, revs: seq<ReactionRev>, newer: seq<Reaction>)
    ensures var live := KeepLive(rs, revs, newer);
            NoRepeats(live) && forall r :: r in live <==> r in rs && Keeps(r, revs, newer)
  {
    if rs != [] {
      KeepLiveElements(rs[..|rs| - 1], revs, newer);
      assert rs == rs[..|rs| - 1] + [rs[|rs| - 1]];
    }
  }

  lemma {:induction false} AddClockedElements(live: seq<Reaction>, revs: seq<ReactionRev>)
    requires NoRepeats(live)
    ensures var l := AddClocked(live, revs);
            NoRepeats(l) && forall r :: r in l <==> r in live || exists c :: c in revs && c.key == r && c.on
  {
    if revs != [] {
      AddClockedElements(live, revs[..|revs| - 1]);
      assert revs == revs[..|revs| - 1] + [revs[|revs| - 1]];
    }
  }

  /** The reactions shown after a merge are exactly those whose merged clock says on. */
  lemma MergedReactions(x: Message, m: Message)
    requires CurrentBuild(x) && CurrentBuild(m) && !x.deleted && !m.deleted
    ensures var revs := TakeRevs(x.reactionRevs, m.reactionRevs);
            && NoRepeats(MergeReactions(x, m))
            && forall r :: r in MergeReactions(x, m) <==> exists c :: c in revs && c.key == r && c.on
  {
    var revs := TakeRevs(x.reactionRevs, m.reactionRevs);
    var newer := if m.rev > x.rev then m.reactions else x.reactions;
    TakeRevsJoins(x.reactionRevs, m.reactionRevs);
    KeepLiveElements(x.reactions + m.reactions, revs, newer);
    AddClockedElements(KeepLive(x.reactions + m.reactions, revs, newer), revs);
    forall r | r in x.reactions + m.reactions && Keeps(r, revs, newer)
      ensures exists c :: c in revs && c.key == r && c.on
    {
      assert r in Marks(x.reactionRevs) || r in Marks(m.reactionRevs);
      assert r in Marks(revs);
      var i := FindRev(revs, r).value;
      assert revs[i] in revs;
    }
  }

  lemma NoLegacyReading(x: Message, m: Message)
    requires CurrentBuild(x)
    ensures LegacyClocks(x, m) == x
  {
  }

  // ---------- an older build's copy ----------

  lemma {:induction false} OffRevsAre(revs: seq<ReactionRev>, on: seq<Reaction>, at: U64)
    ensures forall v :: v in OffRevs(revs, on, at) ==> v.at == at && !v.on && v.key !in on
    ensures forall o :: o in revs && o.key !in on ==> ReactionRev(o.key, at, false) in OffRevs(revs, on, at)
  {
    if revs != [] {
      assert revs == [revs[0]] + revs[1..];
      OffRevsAre(revs[1..], on, at);
    }
  }

  /** A copy whose build kept no clocks, changed since it was written. */
  predicate OlderBuild(c: Message) {
    c.rev > 0 && c.textRev == 0 && c.reactionRevs == []
  }

  predicate KeptClocks(o: Message) {
    o.textRev > 0 || o.reactionRevs != []
  }

  /**
    Against a copy with clocks, one without is read as of its last change: its edit and the
    reactions it shows as made then, and those it lacks, as far as the other knows them, as
    taken off then. Any other copy is read as it is.
   */
  lemma LegacyReads(c: Message, o: Message)
    ensures !(OlderBuild(c) && KeptClocks(o)) ==> LegacyClocks(c, o) == c
    ensures OlderBuild(c) && KeptClocks(o) ==>
              var r := LegacyClocks(c, o);
              && r == c.(textRev := r.textRev, reactionRevs := r.reactionRevs)
              && r.textRev == (if c.edited then c.rev else 0)
              && (forall v :: v in r.reactionRevs ==> v.at == c.rev && (v.on <==> v.key in c.reactions))
              && (forall k :: k in c.reactions ==> ReactionRev(k, c.rev, true) in r.reactionRevs)
              && (forall v :: v in o.reactionRevs ==> exists w :: w in r.reactionRevs && w.key == v.key)
  {
    if OlderBuild(c) && KeptClocks(o) {
      var r, on, off := LegacyClocks(c, o), OnRevs(c.reactions, c.rev), OffRevs(o.reactionRevs, c.reactions, c.rev);
      OffRevsAre(o.reactionRevs, c.reactions, c.rev);
      assert r.reactionRevs == on + off;
      forall k | k in c.reactions ensures ReactionRev(k, c.rev, true) in r.reactionRevs {
        var i :| 0 <= i < |c.reactions| && c.reactions[i] == k;
        assert on[i] == ReactionRev(k, c.rev, true);
      }
      forall v | v in o.reactionRevs ensures exists w :: w in r.reactionRevs && w.key == v.key {
        if v.key in c.reactions {
          assert ReactionRev(v.key, c.rev, true) in r.reactionRevs;
        } else {
          assert ReactionRev(v.key, c.rev, false) in r.reactionRevs;
        }
      }
    }
  }

  /** Where nobody kept clocks the copy changed last decides, and of two changed at once the edited text. */
  lemma ClocklessMerge(x: Message, m: Message)
    requires !KeptClocks(x) && !KeptClocks(m) && !x.deleted && !m.deleted
    ensures var r := MergeFields(x, m);
            && TextOf(r) == TextOf(if m.rev > x.rev || (m.rev == x.rev && m.edited && !x.edited) then m else x)
            && (forall k :: k in r.reactions <==> k in (if m.rev > x.rev then m else x).reactions)
            && r.rev == Max(x.rev, m.rev)
  {
    assert TakeRevs([], []) == [];
    KeepLiveElements(x.reactions + m.reactions, [], if m.rev > x.rev then m.reactions else x.reactions);
  }

  /** So two such copies changed at different times show the same both ways round. */
  lemma ClocklessCommutes(x: Message, m: Message)
    requires !KeptClocks(x) && !KeptClocks(m) && !x.deleted && !m.deleted && x.rev != m.rev
    ensures ShownOf(MergeFields(x, m)) == ShownOf(MergeFields(m, x))
  {
    ClocklessMerge(x, m);
    ClocklessMerge(m, x);
    MergeDeletes(x, m);
    MergeDeletes(m, x);
  }

  /** What a merge writes, once neither copy needs an older build's reading. */
  lemma MergedLive(x: Message, m: Message)
    requires CurrentBuild(x) && CurrentBuild(m) && !x.deleted && !m.deleted
    ensures var out := MergeFields(x, m);
            && !out.deleted
            && out.textRev == Max(x.textRev, m.textRev)
            && TextOf(out) == (if TextNewer(x, m) then TextOf(m) else TextOf(x))
            && out.reactions == MergeReactions(x, m)
            && out.reactionRevs == TakeRevs(x.reactionRevs, m.reactionRevs)
            && out.rev == Max(x.rev, m.rev)
  {
    NoLegacyReading(m, x);
    NoLegacyReading(x, m);
  }

  lemma MergeStaysCurrent(x: Message, m: Message)
    requires CurrentBuild(x) && CurrentBuild(m)
    ensures CurrentBuild(MergeFields(x, m))
  {
    NoLegacyReading(m, x);
    NoLegacyReading(x, m);
    if !x.deleted && !m.deleted {
      MergedLive(x, m);
      MergedReactions(x, m);
      TakeRevsJoins(x.reactionRevs, m.reactionRevs);
      var revs := TakeRevs(x.reactionRevs, m.reactionRevs);
      forall c | c in revs ensures c.at <= Max(x.rev, m.rev) {
        TakeRevsFrom(x.reactionRevs, m.reactionRevs, c);
      }
      TakeRevsGrows(x.reactionRevs, m.reactionRevs);
    }
  }

  /** Merging two copies is the join of what they hold. */
  lemma MergeIsJoin(x: Message, m: Message)
    requires CurrentBuild(x) && CurrentBuild(m) && Agree(ViewOf(x), ViewOf(m))
    ensures ViewOf(MergeFields(x, m)) == Join(ViewOf(x), ViewOf(m))
  {
    NoLegacyReading(m, x);
    NoLegacyReading(x, m);
    if !x.deleted && !m.deleted {
      MergedLive(x, m);
      TakeRevsJoins(x.reactionRevs, m.reactionRevs);
    }
  }

  lemma JoinMarksLaws(a: map<Reaction, Mark>, b: map<Reaction, Mark>)
    ensures JoinMarks(a, b) == JoinMarks(b, a)
    ensures JoinMarks(a, a) == a
  {
  }

  lemma JoinCommutes(u: View, v: View)
    requires Agree(u, v)
    ensures Join(u, v) == Join(v, u) && Join(u, u) == u
  {
    if u.Live? && v.Live? { JoinMarksLaws(u.marks, v.marks); }
    if u.Live? { JoinMarksLaws(u.marks, u.marks); }
  }

  lemma JoinAssociates(u: View, v: View, w: View)
    requires Agree(u, v) && Agree(v, w) && Agree(u, w)
    ensures Join(Join(u, v), w) == Join(u, Join(v, w))
    ensures Agree(Join(u, v), w) && Agree(u, Join(v, w))
  {
    if u.Live? && v.Live? && w.Live? { JoinMarksAssociates(u.marks, v.marks, w.marks); }
  }

  lemma MergeShown(x: Message, m: Message)
    requires CurrentBuild(x) && CurrentBuild(m) && Agree(ViewOf(x), ViewOf(m))
    ensures CurrentBuild(MergeFields(x, m))
    ensures ShownOf(MergeFields(x, m)) == ShownBy(Join(ViewOf(x), ViewOf(m)))
  {
    MergeIsJoin(x, m);
    MergeStaysCurrent(x, m);
    ShownIsView(MergeFields(x, m));
  }

  /** On what is shown, merging copies is commutative and idempotent. */
  lemma MergeCommutes(x: Message, y: Message)
    requires CurrentBuild(x) && CurrentBuild(y) && Agree(ViewOf(x), ViewOf(y))
    ensures ShownOf(MergeFields(x, y)) == ShownOf(MergeFields(y, x))
    ensures ShownOf(MergeFields(x, x)) == ShownOf(x)
  {
    MergeShown(x, y);
    MergeShown(y, x);
    MergeShown(x, x);
    ShownIsView(x);
    JoinCommutes(ViewOf(x), ViewOf(y));
  }

  /** On what is shown, merging copies is associative. */
  lemma MergeAssociates(x: Message, y: Message, z: Message)
    requires CurrentBuild(x) && CurrentBuild(y) && CurrentBuild(z)
    requires Agree(ViewOf(x), ViewOf(y)) && Agree(ViewOf(y), ViewOf(z)) && Agree(ViewOf(x), ViewOf(z))
    ensures ShownOf(MergeFields(MergeFields(x, y), z)) == ShownOf(MergeFields(x, MergeFields(y, z)))
  {
    MergeIsJoin(x, y);
    MergeIsJoin(y, z);
    MergeStaysCurrent(x, y);
    MergeStaysCurrent(y, z);
    JoinAssociates(ViewOf(x), ViewOf(y), ViewOf(z));
    MergeShown(MergeFields(x, y), z);
    MergeShown(x, MergeFields(y, z));
  }

  // ---------- when two edits share a stamp ----------

  /**
    Without distinct edit stamps the merge still commutes on what is shown, except for two
    live copies edited at the very same stamp (or never edited and equally old) whose
    texts differ: each device then keeps its own.
   */
  lemma MergeCommutesExactly(x: Message, m: Message)
    requires CurrentBuild(x) && CurrentBuild(m) && !x.deleted && !m.deleted
    ensures ShownOf(MergeFields(x, m)) == ShownOf(MergeFields(m, x)) <==>
            TextOf(x) == TextOf(m) || x.textRev != m.textRev || (x.textRev == 0 && x.rev != m.rev)
  {
    MergedLive(x, m);
    MergedLive(m, x);
    SameReactionsBothWays(x, m);
    assert (set r | r in MergeReactions(x, m)) == (set r | r in MergeReactions(m, x));
    assert TextOf(MergeFields(x, m)) == (if TextNewer(x, m) then TextOf(m) else TextOf(x));
    assert TextOf(MergeFields(m, x)) == (if TextNewer(m, x) then TextOf(x) else TextOf(m));
  }

  /** Two devices that each edited the message at 5 keep their own text for good. */
  lemma EqualStampsKeepApart()
    ensures
      var x := BLANK.(text := "left", edited := true, rev := 5, textRev := 5);
      var m := BLANK.(text := "right", edited := true, rev := 5, textRev := 5);
      && CurrentBuild(x) && CurrentBuild(m)
      && MergeFields(x, m) == x && MergeFields(m, x) == m && ShownOf(x) != ShownOf(m)
  {
    var x := BLANK.(text := "left", edited := true, rev := 5, textRev := 5);
    var m := BLANK.(text := "right", edited := true, rev := 5, textRev := 5);
    assert TextOf(x) != TextOf(m) by { assert "left"[0] != "right"[0]; }
    assert MergeReactions(x, m) == [] && MergeReactions(m, x) == [];
  }

  lemma SameReactionsBothWays(x: Message, m: Message)
    requires CurrentBuild(x) && CurrentBuild(m) && !x.deleted && !m.deleted
    ensures forall r :: r in MergeReactions(x, m) <==> r in MergeReactions(m, x)
  {
    MergedReactions(x, m);
    MergedReactions(m, x);
    var a, b := TakeRevs(x.reactionRevs, m.reactionRevs), TakeRevs(m.reactionRevs, x.reactionRevs);
    TakeRevsJoins(x.reactionRevs, m.reactionRevs);
    TakeRevsJoins(m.reactionRevs, x.reactionRevs);
    JoinMarksLaws(Marks(x.reactionRevs), Marks(m.reactionRevs));
    forall r ensures r in MergeReactions(x, m) <==> r in MergeReactions(m, x) {
      OnInMarks(a, r);
      OnInMarks(b, r);
    }
  }

  lemma OnInMarks(revs: seq<ReactionRev>, r: Reaction)
    requires OneClockEach(revs)
    ensures (exists c :: c in revs && c.key == r && c.on) <==> r in Marks(revs) && Marks(revs)[r].on
  {
    if c :| c in revs && c.key == r {
      MarkUnique(revs, c);
    }
  }

  // ---------- a copy that comes in ----------

  lemma IncomingIsSame(m: Message)
    requires CurrentBuild(m)
    ensures CurrentBuild(Incoming(m)) && ViewOf(Incoming(m)) == ViewOf(m)
  {
  }

  lemma StatusIsNoView(m: Message, s: Option<Status>)
    requires CurrentBuild(m)
    ensures CurrentBuild(m.(status := s)) && ViewOf(m.(status := s)) == ViewOf(m)
  {
  }

  /** Its delivery mark changes nothing of what is shown. */
  lemma CopyJoins(x: Message, m: Message)
    requires CurrentBuild(x) && CurrentBuild(m) && Agree(ViewOf(x), ViewOf(m))
    ensures var y := MergeCopy(x, Incoming(m)); CurrentBuild(y) && ViewOf(y) == Join(ViewOf(x), ViewOf(m))
  {
    var m' := Incoming(m);
    IncomingIsSame(m);
    MergeIsJoin(x, m');
    MergeStaysCurrent(x, m');
    StatusIsNoView(MergeFields(x, m'), m'.status);
  }

  // ---------- the rest of a message ----------

  lemma MergeDeletes(x: Message, m: Message)
    ensures MergeFields(x, m).deleted == (x.deleted || m.deleted)
  {
  }

  /** A tombstone holds no text, files, picture, path or preview. */
  predicate Emptied(m: Message) {
    m.deleted ==> m.text == "" && m.files == [] && m.gif == None && m.path == None && m.linkPreview == None
  }

  predicate SameWords(r: Message, m: Message) {
    r.text == m.text && r.edited == m.edited && r.linkPreview == m.linkPreview
  }

  /**
    A merge unsends exactly when a copy was unsent, and then empties the message. Otherwise
    text, edited mark and preview come together from the copy with the newer text, and the
    files, picture and path stay this device's own.
   */
  lemma MergedContent(x: Message, m: Message)
    requires Emptied(x)
    ensures var r := MergeFields(x, m);
            && r.deleted == (x.deleted || m.deleted) && Emptied(r)
            && (!x.deleted && m.deleted ==> r.reactions == [])
            && (!r.deleted ==>
                  && r.files == x.files && r.gif == x.gif && r.path == x.path
                  && (SameWords(r, x) || SameWords(r, m))
                  && (x.textRev > 0 && m.textRev > x.textRev ==> SameWords(r, m))
                  && (m.textRev > 0 && x.textRev >= m.textRev ==> SameWords(r, x)))
  {
    var m' := LegacyClocks(m, x);
    var x' := LegacyClocks(x, m');
    assert MergeFields(x, m) == MergeRead(x', m');
  }

  /** No change to a message fills a tombstone again, and an unsend empties it. */
  lemma ChangesKeepEmptied(m: Message, key: Reaction, add: bool, text: string, hasLink: bool, authorIsMe: bool,
                           now: U64)
    requires Emptied(m)
    ensures Emptied(ApplyReaction(m, key, add, now))
    ensures m.deleted ==> ApplyEdit(m, text, hasLink, authorIsMe, now) == None
    ensures var e := ApplyEdit(m, text, hasLink, authorIsMe, now);
            e.Some? ==> Emptied(e.value) && e.value.linkPreview == if hasLink then m.linkPreview else None
    ensures var d := ApplyDelete(m, authorIsMe, now); d.Some? ==> d.value.deleted && Emptied(d.value)
    ensures ApplyDelete(m, authorIsMe, now).Some? <==> m.fromMe == authorIsMe
  {
  }
}
