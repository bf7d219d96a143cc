/**
  Any number of own devices, each with its copy of one message, changing it locally and
  merging each other's copies in any order: what a device shows depends only on which
  changes have reached it.
 */
module Replicas {
  import opened Common
  import opened Messages
  import opened Convergence

  // ---------- a local change is a step up ----------

  lemma RemoveElements(s: seq<Reaction>, r: Reaction)
    requires NoRepeats(s)
    ensures NoRepeats(Remove(s, r))
    ensures forall x :: x in Remove(s, r) <==> x in s && x != r
  {
    if s != [] {
      assert s == [s[0]] + s[1..];
      assert s[0] !in s[1..];
      RemoveElements(s[1..], r);
    }
  }

  /**
    A local change is stamped past everything its copy has seen, short of the last stamp there
    is, and no earlier than the clock reads: at the clock, unless that lags behind the copy.
   */
  lemma BumpIsNewer(now: U64, rev: U64)
    ensures BumpRev(now, rev) > rev <==> rev < U64_MAX
    ensures now <= BumpRev(now, rev) && (rev < now ==> BumpRev(now, rev) == now)
  {
  }

  lemma NotedMarks(revs: seq<ReactionRev>, key: Reaction, at: U64, on: bool)
    requires OneClockEach(revs) && forall c :: c in revs ==> c.at < at
    ensures var out := NoteReactionRev(revs, key, at, on);
            && OneClockEach(out) && Marks(out) == Marks(revs)[key := Mark(at, on)]
            && out != [] && forall c :: c in out ==> c.at <= at
  {
    var f := FindRev(revs, key);
    if f.Some? {
      assert revs[f.value] in revs;
      ReplacedClock(revs, f.value, ReactionRev(key, at, on));
    } else {
      AddedClock(revs, ReactionRev(key, at, on));
    }
  }

  /** The reaction list still is the clocks that are on. */
  lemma ReactedReactions(rs: seq<Reaction>, revs: seq<ReactionRev>, rs': seq<Reaction>, revs': seq<ReactionRev>,
                         key: Reaction, add: bool, at: U64)
    requires NoRepeats(rs) && OneClockEach(revs) && OneClockEach(revs')
    requires forall r :: r in rs <==> exists c :: c in revs && c.key == r && c.on
    requires Marks(revs') == Marks(revs)[key := Mark(at, add)]
    requires add != (key in rs) && rs' == if add then rs + [key] else Remove(rs, key)
    ensures NoRepeats(rs')
    ensures forall r :: r in rs' <==> exists c :: c in revs' && c.key == r && c.on
  {
    if !add { RemoveElements(rs, key); }
    forall r ensures r in rs' <==> exists c :: c in revs' && c.key == r && c.on {
      OnInMarks(revs, r);
      OnInMarks(revs', r);
    }
  }

  /** What a reaction adds to the view of a live copy. */
  lemma ReactingSteps(m: Message, key: Reaction, add: bool, now: U64)
    requires CurrentBuild(m) && m.rev < U64_MAX && add != (key in m.reactions)
    ensures var out := ApplyReaction(m, key, add, now);
            && CurrentBuild(out) && out.rev > m.rev && out.deleted == m.deleted
            && out.textRev == m.textRev && TextOf(out) == TextOf(m)
            && Marks(out.reactionRevs) == Marks(m.reactionRevs)[key := Mark(out.rev, add)]
  {
    var out := ApplyReaction(m, key, add, now);
    NotedMarks(m.reactionRevs, key, out.rev, add);
    if !m.deleted {
      ReactedReactions(m.reactions, m.reactionRevs, out.reactions, out.reactionRevs, key, add, out.rev);
    }
  }

  /** Merging either way with anything the copy had already seen keeps what it shows. */
  lemma NewerViewWins(out: Message, stale: Message)
    requires CurrentBuild(out) && CurrentBuild(stale) && Leq(ViewOf(stale), ViewOf(out))
    ensures ShownOf(MergeFields(out, stale)) == ShownOf(out) == ShownOf(MergeFields(stale, out))
  {
    var v, w := ViewOf(stale), ViewOf(out);
    LeqIsOrder(w, w, w);
    JoinIsLeastUpperBound(v, w, w);
    LeqIsOrder(w, w, Join(v, w));
    JoinCommutes(v, w);
    MergeShown(out, stale);
    MergeShown(stale, out);
    ShownIsView(out);
  }

  /** A local reaction beats every state its copy had already seen, whichever side merges. */
  lemma LocalReactionWins(m: Message, stale: Message, key: Reaction, add: bool, now: U64)
    requires CurrentBuild(m) && CurrentBuild(stale) && Leq(ViewOf(stale), ViewOf(m)) && m.rev < U64_MAX
    ensures var out := ApplyReaction(m, key, add, now);
            ShownOf(MergeFields(out, stale)) == ShownOf(out) == ShownOf(MergeFields(stale, out))
  {
    var out := ApplyReaction(m, key, add, now);
    if add != (key in m.reactions) {
      ReactingSteps(m, key, add, now);
      MarksStepUp(m, out, key, Mark(out.rev, add));
    }
    LeqIsOrder(ViewOf(m), ViewOf(m), ViewOf(m));
    LeqIsOrder(ViewOf(stale), ViewOf(m), ViewOf(out));
    NewerViewWins(out, stale);
  }

  /** So does a local edit or unsend. */
  lemma LocalEditWins(m: Message, stale: Message, text: string, hasLink: bool, now: U64)
    requires CurrentBuild(m) && CurrentBuild(stale) && Leq(ViewOf(stale), ViewOf(m)) && m.rev < U64_MAX
    ensures var e := ApplyEdit(m, text, hasLink, m.fromMe, now);
            e.Some? ==> ShownOf(MergeFields(e.value, stale)) == ShownOf(e.value) == ShownOf(MergeFields(stale, e.value))
    ensures var d := ApplyDelete(m, m.fromMe, now).value;
            ShownOf(MergeFields(d, stale)) == Tombstone == ShownOf(MergeFields(stale, d))
  {
    var e := ApplyEdit(m, text, hasLink, m.fromMe, now);
    if e.Some? {
      LeqIsOrder(ViewOf(stale), ViewOf(m), ViewOf(e.value));
      NewerViewWins(e.value, stale);
    }
    NewerViewWins(ApplyDelete(m, m.fromMe, now).value, stale);
  }

  /** Of two edits of the same copy, made on two devices past its clocks, the later by the clocks is shown on both. */
  lemma LaterEditWins(m: Message, text: string, hasLink: bool, now: U64, text': string, hasLink': bool, later: U64)
    requires CurrentBuild(m) && !m.deleted && m.rev < now < later
    ensures var x := ApplyEdit(m, text, hasLink, m.fromMe, now).value;
            var y := ApplyEdit(m, text', hasLink', m.fromMe, later).value;
            ShownOf(MergeFields(x, y)) == ShownOf(y) == ShownOf(MergeFields(y, x))
  {
    var x := ApplyEdit(m, text, hasLink, m.fromMe, now).value;
    var y := ApplyEdit(m, text', hasLink', m.fromMe, later).value;
    BumpIsNewer(now, m.rev);
    BumpIsNewer(later, m.rev);
    NewerViewWins(y, x);
  }

  lemma MarksStepUp(m: Message, out: Message, key: Reaction, mark: Mark)
    requires CurrentBuild(m) && mark.at > m.rev
    requires Marks(out.reactionRevs) == Marks(m.reactionRevs)[key := mark]
    ensures MarksLeq(Marks(m.reactionRevs), Marks(out.reactionRevs))
  {
    if c :| c in m.reactionRevs && c.key == key {
      MarkUnique(m.reactionRevs, c);
    }
  }

  // ---------- the cluster ----------

  /** A device's copy, with the set of changes that have reached it (kept only for the statement). */
  datatype Replica = Absent | Present(copy: Message, seen: set<View>)

  /** `texts`: what was written at each text stamp, 0 being the original. */
  datatype Cluster = Cluster(devices: seq<Replica>, texts: map<U64, Text>)

  datatype Act =
    | React(i: nat, key: Reaction, add: bool, now: U64)
    | Edit(i: nat, text: string, hasLink: bool, now: U64)
    | Unsend(i: nat, now: U64)
    | Sync(source: nat, i: nat)

  ghost predicate Enabled(c: Cluster, a: Act) {
    && a.i < |c.devices|
    && match a
       case Sync(source, i) => source < |c.devices| && c.devices[source].Present?
       case Edit(i, text, hasLink, now) =>
         && c.devices[i].Present? && c.devices[i].copy.rev < U64_MAX
         && BumpRev(now, c.devices[i].copy.rev) !in c.texts   // no two edits share a stamp
       case _ => c.devices[a.i].Present? && c.devices[a.i].copy.rev < U64_MAX
  }

  /** The change a reaction makes, as a view on its own. */
  ghost function ReactionDelta(c: Cluster, out: Message, key: Reaction, add: bool): View
    requires 0 in c.texts
  {
    Live(0, c.texts[0], map[key := Mark(out.rev, add)])
  }

  ghost function Perform(c: Cluster, a: Act): Cluster
    requires 0 in c.texts && Enabled(c, a)
  {
    var r := c.devices[a.i];
    match a
    case React(i, key, add, now) =>
      var out := ApplyReaction(r.copy, key, add, now);
      if out == r.copy then c
      else c.(devices := c.devices[i := Present(out, r.seen + {ReactionDelta(c, out, key, add)})])
    case Edit(i, text, hasLink, now) =>
      (match ApplyEdit(r.copy, text, hasLink, r.copy.fromMe, now)
       case None => c
       case Some(out) =>
         Cluster(c.devices[i := Present(out, r.seen + {Live(out.textRev, TextOf(out), map[])})],
                 c.texts[out.textRev := TextOf(out)]))
    case Unsend(i, now) =>
      var out := ApplyDelete(r.copy, r.copy.fromMe, now).value;
      c.(devices := c.devices[i := Present(out, r.seen + {Gone})])
    case Sync(source, i) =>
      var s := c.devices[source];
      if r.Absent? then c.(devices := c.devices[i := Present(Incoming(s.copy), s.seen)])
      else c.(devices := c.devices[i := Present(MergeCopy(r.copy, Incoming(s.copy)), r.seen + s.seen)])
  }

  /** `v` is exactly the join of the changes in `seen`. */
  ghost predicate IsJoinOf(v: View, seen: set<View>) {
    && (forall d :: d in seen ==> Leq(d, v))
    && (forall w :: (forall d :: d in seen ==> Leq(d, w)) ==> Leq(v, w))
  }

  ghost predicate Recorded(v: View, texts: map<U64, Text>) {
    v.Live? ==> v.textRev in texts && texts[v.textRev] == v.text
  }

  ghost predicate GoodReplica(r: Replica, texts: map<U64, Text>) {
    r.Present? ==> CurrentBuild(r.copy) && Recorded(ViewOf(r.copy), texts) && IsJoinOf(ViewOf(r.copy), r.seen)
  }

  ghost predicate Good(c: Cluster) {
    0 in c.texts && forall i :: 0 <= i < |c.devices| ==> GoodReplica(c.devices[i], c.texts)
  }

  /** A message just written on device `i`, nowhere else yet. */
  ghost predicate WrittenOn(c: Cluster, m: Message, i: nat) {
    && i < |c.devices| && !m.deleted && !m.edited
    && m.rev == 0 && m.textRev == 0 && m.reactions == [] && m.reactionRevs == []
    && c.texts == map[0 := TextOf(m)]
    && forall j :: 0 <= j < |c.devices| ==>
         c.devices[j] == if j == i then Present(m, {Live(0, TextOf(m), map[])}) else Absent
  }

  lemma InitialIsGood(c: Cluster, m: Message, i: nat)
    requires WrittenOn(c, m, i)
    ensures Good(c)
  {
    assert Marks(m.reactionRevs) == map[];
    assert ViewOf(m) == Live(0, TextOf(m), map[]);
    LeqIsOrder(ViewOf(m), ViewOf(m), ViewOf(m));
  }

  /** Joining one more change. */
  lemma JoinOneMore(v: View, seen: set<View>, d: View, out: View)
    requires IsJoinOf(v, seen) && Agree(v, d) && out == Join(v, d)
    ensures IsJoinOf(out, seen + {d}) && Leq(v, out)
  {
    forall x | x in seen + {d} ensures Leq(x, out) {
      JoinIsLeastUpperBound(v, d, out);
      LeqIsOrder(x, v, out);
    }
    JoinIsLeastUpperBound(v, d, out);
    forall w | forall x :: x in seen + {d} ==> Leq(x, w) ensures Leq(out, w) {
      JoinIsLeastUpperBound(v, d, w);
    }
  }

  lemma JoinTwo(v: View, seen: set<View>, v2: View, seen2: set<View>, out: View)
    requires IsJoinOf(v, seen) && IsJoinOf(v2, seen2) && Agree(v, v2) && out == Join(v, v2)
    ensures IsJoinOf(out, seen + seen2) && Leq(v, out)
  {
    JoinIsLeastUpperBound(v, v2, out);
    forall x | x in seen + seen2 ensures Leq(x, out) {
      LeqIsOrder(x, v, out);
      LeqIsOrder(x, v2, out);
    }
    forall w | forall x :: x in seen + seen2 ==> Leq(x, w) ensures Leq(out, w) {
      JoinIsLeastUpperBound(v, v2, w);
    }
  }

  lemma RecordedAgree(v: View, w: View, texts: map<U64, Text>)
    requires Recorded(v, texts) && Recorded(w, texts)
    ensures Agree(v, w) && Recorded(Join(v, w), texts)
  {
  }

  lemma ReactKeepsGood(c: Cluster, a: Act)
    requires Good(c) && Enabled(c, a) && a.React?
    ensures Good(Perform(c, a)) && Grows(c, Perform(c, a))
  {
    var r := c.devices[a.i];
    assert GoodReplica(r, c.texts);
    var out := ApplyReaction(r.copy, a.key, a.add, a.now);
    if a.add != (a.key in r.copy.reactions) {
      ReactingSteps(r.copy, a.key, a.add, a.now);
      var d := ReactionDelta(c, out, a.key, a.add);
      var v := ViewOf(r.copy);
      assert Recorded(d, c.texts);
      RecordedAgree(v, d, c.texts);
      assert ViewOf(out) == Join(v, d) by {
        if v.Live? { JoinNewerMark(r.copy, a.key, Mark(out.rev, a.add)); }
      }
      JoinOneMore(v, r.seen, d, ViewOf(out));
    }
    ReflexiveGrowth(c);
  }

  /** A mark stamped past a copy's `rev` beats whatever mark the copy has. */
  lemma JoinNewerMark(m: Message, key: Reaction, mark: Mark)
    requires CurrentBuild(m) && mark.at > m.rev
    ensures JoinMarks(Marks(m.reactionRevs), map[key := mark]) == Marks(m.reactionRevs)[key := mark]
  {
    JoinOneMark(Marks(m.reactionRevs), key, mark);
    if c :| c in m.reactionRevs && c.key == key {
      MarkUnique(m.reactionRevs, c);
    }
  }

  lemma EditKeepsGood(c: Cluster, a: Act)
    requires Good(c) && Enabled(c, a) && a.Edit?
    ensures Good(Perform(c, a)) && Grows(c, Perform(c, a))
  {
    var r, c' := c.devices[a.i], Perform(c, a);
    assert GoodReplica(r, c.texts);
    var e := ApplyEdit(r.copy, a.text, a.hasLink, r.copy.fromMe, a.now);
    if e.Some? {
      var out := e.value;
      var v, d := ViewOf(r.copy), Live(out.textRev, TextOf(out), map[]);
      assert v.textRev in c.texts && v.textRev < out.textRev;
      assert JoinMarks(v.marks, map[]) == v.marks;
      assert ViewOf(out) == Join(v, d);
      JoinOneMore(v, r.seen, d, ViewOf(out));
      forall j | 0 <= j < |c'.devices| && j != a.i ensures GoodReplica(c'.devices[j], c'.texts) {
        assert GoodReplica(c.devices[j], c.texts);
      }
    }
    ReflexiveGrowth(c);
  }

  lemma UnsendKeepsGood(c: Cluster, a: Act)
    requires Good(c) && Enabled(c, a) && a.Unsend?
    ensures Good(Perform(c, a)) && Grows(c, Perform(c, a))
  {
    var r := c.devices[a.i];
    assert GoodReplica(r, c.texts);
    JoinOneMore(ViewOf(r.copy), r.seen, Gone, Gone);
    ReflexiveGrowth(c);
  }

  lemma MergedReplica(r: Replica, s: Replica, texts: map<U64, Text>)
    requires r.Present? && s.Present? && GoodReplica(r, texts) && GoodReplica(s, texts)
    ensures var out := MergeCopy(r.copy, Incoming(s.copy));
            GoodReplica(Present(out, r.seen + s.seen), texts) && Leq(ViewOf(r.copy), ViewOf(out))
  {
    RecordedAgree(ViewOf(r.copy), ViewOf(s.copy), texts);
    CopyJoins(r.copy, s.copy);
    JoinTwo(ViewOf(r.copy), r.seen, ViewOf(s.copy), s.seen, ViewOf(MergeCopy(r.copy, Incoming(s.copy))));
  }

  lemma SyncKeepsGood(c: Cluster, a: Act)
    requires Good(c) && Enabled(c, a) && a.Sync?
    ensures Good(Perform(c, a)) && Grows(c, Perform(c, a))
  {
    var r, s := c.devices[a.i], c.devices[a.source];
    assert GoodReplica(r, c.texts) && GoodReplica(s, c.texts);
    if r.Present? {
      MergedReplica(r, s, c.texts);
    } else {
      IncomingIsSame(s.copy);
    }
    ReflexiveGrowth(c);
  }

  /** No device ever loses its copy or any change it holds. */
  ghost predicate Grows(c: Cluster, c': Cluster) {
    && |c'.devices| == |c.devices|
    && forall i :: 0 <= i < |c.devices| && c.devices[i].Present? ==>
         && c'.devices[i].Present?
         && c.devices[i].seen <= c'.devices[i].seen
         && Leq(ViewOf(c.devices[i].copy), ViewOf(c'.devices[i].copy))
  }

  lemma ReflexiveGrowth(c: Cluster)
    ensures Grows(c, c)
    ensures forall v: View :: Leq(v, v)
  {
    forall v: View ensures Leq(v, v) { LeqIsOrder(v, v, v); }
  }

  lemma ActKeepsGood(c: Cluster, a: Act)
    requires Good(c) && Enabled(c, a)
    ensures Good(Perform(c, a)) && Grows(c, Perform(c, a))
  {
    match a
    case React(_, _, _, _) => ReactKeepsGood(c, a);
    case Edit(_, _, _, _) => EditKeepsGood(c, a);
    case Unsend(_, _) => UnsendKeepsGood(c, a);
    case Sync(_, _) => SyncKeepsGood(c, a);
  }

  /** `states[0]` has the message on one device; each next state is one act further. */
  ghost predicate ClusterRun(states: seq<Cluster>, acts: seq<Act>, m: Message, i: nat) {
    && |states| == |acts| + 1 && WrittenOn(states[0], m, i)
    && forall n :: 0 <= n < |acts| ==>
         0 in states[n].texts && Enabled(states[n], acts[n]) && states[n + 1] == Perform(states[n], acts[n])
  }

  /**
    In every run every copy keeps its clocks under `rev`, its reactions are exactly the
    clocks that are on (unless unsent), and it is the join of the changes it has seen.
   */
  lemma {:induction false} RunsStayGood(states: seq<Cluster>, acts: seq<Act>, m: Message, i: nat, n: nat)
    requires ClusterRun(states, acts, m, i) && n < |states|
    ensures Good(states[n])
  {
    if n == 0 {
      InitialIsGood(states[0], m, i);
    } else {
      RunsStayGood(states, acts, m, i, n - 1);
      ActKeepsGood(states[n - 1], acts[n - 1]);
    }
  }

  /**
    Strong eventual consistency: two devices the same changes have reached show the same
    message, in whatever order, through whichever devices and however often they came.
   */
  lemma SameChangesSameMessage(states: seq<Cluster>, acts: seq<Act>, m: Message, i: nat, n: nat, x: nat, y: nat)
    requires ClusterRun(states, acts, m, i) && n < |states|
    requires x < |states[n].devices| && y < |states[n].devices|
    requires states[n].devices[x].Present? && states[n].devices[y].Present?
    requires states[n].devices[x].seen == states[n].devices[y].seen
    ensures ShownOf(states[n].devices[x].copy) == ShownOf(states[n].devices[y].copy)
  {
    RunsStayGood(states, acts, m, i, n);
    var a, b := states[n].devices[x], states[n].devices[y];
    assert GoodReplica(a, states[n].texts) && GoodReplica(b, states[n].texts);
    LeqIsOrder(ViewOf(a.copy), ViewOf(a.copy), ViewOf(b.copy));
    ShownIsView(a.copy);
    ShownIsView(b.copy);
  }

  lemma RunsGrow(states: seq<Cluster>, acts: seq<Act>, m: Message, i: nat, k: nat)
    requires ClusterRun(states, acts, m, i) && k < |acts|
    ensures Grows(states[k], states[k + 1])
  {
    RunsStayGood(states, acts, m, i, k);
    ActKeepsGood(states[k], acts[k]);
  }

  /** Nothing is above a tombstone. */
  lemma GoneStaysGone(c: Cluster, c': Cluster, x: nat)
    requires Grows(c, c') && x < |c.devices| && c.devices[x].Present? && c.devices[x].copy.deleted
    ensures |c'.devices| == |c.devices| && c'.devices[x].Present? && c'.devices[x].copy.deleted
  {
    assert Leq(ViewOf(c.devices[x].copy), ViewOf(c'.devices[x].copy));
  }

  ghost predicate Growing(states: seq<Cluster>) {
    forall k :: 0 <= k < |states| - 1 ==> Grows(states[k], states[k + 1])
  }

  lemma {:induction false} GoneThroughout(states: seq<Cluster>, n: nat, k: nat, x: nat)
    requires Growing(states) && n <= k < |states| && x < |states[n].devices|
    requires states[n].devices[x].Present? && states[n].devices[x].copy.deleted
    ensures |states[k].devices| == |states[n].devices| && states[k].devices[x].Present?
    ensures states[k].devices[x].copy.deleted
  {
    if n < k {
      GoneThroughout(states, n, k - 1, x);
      GoneStaysGone(states[k - 1], states[k - 1 + 1], x);
    }
  }

  /** An unsend is never undone: once a device shows the tombstone it always does. */
  lemma UnsendSticks(states: seq<Cluster>, acts: seq<Act>, m: Message, i: nat, n: nat, k: nat, x: nat)
    requires ClusterRun(states, acts, m, i) && n <= k < |states| && x < |states[n].devices|
    requires states[n].devices[x].Present? && ShownOf(states[n].devices[x].copy) == Tombstone
    ensures |states[k].devices| == |states[n].devices| && states[k].devices[x].Present?
    ensures ShownOf(states[k].devices[x].copy) == Tombstone
  {
    forall j | 0 <= j < |states| - 1 ensures Grows(states[j], states[j + 1]) {
      RunsGrow(states, acts, m, i, j);
    }
    GoneThroughout(states, n, k, x);
  }
}
