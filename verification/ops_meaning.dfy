/** What coalescing the queue of offline changes means for the copy the peer ends up showing. */
module OpsMeaning {
  import opened Common
  import opened Messages
  import opened Convergence
  import opened Replicas
  import opened Ops

  // ---------- what one op does to a copy ----------

  /** The receiver's side: a remote change to the author's message, or a reaction on any. */
  function Apply(m: Message, k: Kind, now: U64): Message {
    match k
    case React(emoji, add) => ApplyReaction(m, Reaction(emoji, false), add, now)
    case Edit(text, hasLink) => (match ApplyEdit(m, text, hasLink, false, now) case Some(e) => e case None => m)
    case Delete => (match ApplyDelete(m, false, now) case Some(d) => d case None => m)
  }

  /** The ops for one message, in the order they arrive; `now` is the clock at each. */
  function ApplyAll(m: Message, ops: seq<Op>, t: Target, now: nat -> U64): Message {
    if ops == [] then m
    else
      var r, op := ApplyAll(m, ops[..|ops| - 1], t, now), ops[|ops| - 1];
      if op.target == t then Apply(r, op.kind, now(|ops| - 1)) else r
  }

  /** The text and reactions a copy shows, or the tombstone. */
  datatype Seen = Unsent | Seen(text: string, edited: bool, reactions: set<Reaction>)

  ghost function SeenOf(m: Message): Seen {
    if m.deleted then Unsent else Seen(m.text, m.edited, set r | r in m.reactions)
  }

  // ---------- what a list of ops says about one target ----------

  ghost predicate Unsends(ops: seq<Op>, t: Target) {
    exists o :: o in ops && o.target == t && o.kind.Delete?
  }

  /** Some edit leaves the text without a link. */
  ghost predicate LosesLink(ops: seq<Op>, t: Target) {
    exists o :: o in ops && o.target == t && o.kind.Edit? && !o.kind.hasLink
  }

  function LastEdit(ops: seq<Op>, t: Target): (r: Option<Kind>)
    ensures r.Some? ==> r.value.Edit?
  {
    if ops == [] then None
    else if ops[|ops| - 1].target == t && ops[|ops| - 1].kind.Edit? then Some(ops[|ops| - 1].kind)
    else LastEdit(ops[..|ops| - 1], t)
  }

  function LastReact(ops: seq<Op>, t: Target, emoji: string): Option<bool> {
    if ops == [] then None
    else
      var o := ops[|ops| - 1];
      if o.target == t && o.kind.React? && o.kind.emoji == emoji then Some(o.kind.add)
      else LastReact(ops[..|ops| - 1], t, emoji)
  }

  ghost function After(was: bool, last: Option<bool>): bool {
    if last.Some? then last.value else was
  }

  // ---------- applying ops in order ----------

  ghost predicate SameReactionsBut(r: Message, m: Message, key: Reaction, on: bool) {
    forall x :: x in r.reactions <==> if x == key then on else x in m.reactions
  }

  lemma ApplyMeans(m: Message, k: Kind, now: U64)
    requires NoRepeats(m.reactions)
    ensures var r := Apply(m, k, now);
            && NoRepeats(r.reactions) && r.fromMe == m.fromMe
            && r.deleted == (m.deleted || (!m.fromMe && k.Delete?))
            && (!r.deleted ==>
                  && r.text == (if !m.fromMe && k.Edit? then k.text else m.text)
                  && r.edited == (m.edited || (!m.fromMe && k.Edit?))
                  && r.linkPreview == (if !m.fromMe && k.Edit? && !k.hasLink then None else m.linkPreview)
                  && (k.React? ==> SameReactionsBut(r, m, Reaction(k.emoji, false), k.add))
                  && (!k.React? ==> r.reactions == m.reactions))
  {
    if k.React? { RemoveElements(m.reactions, Reaction(k.emoji, false)); }
  }

  /** What the copy shows after the ops: the unsend, else the last edit and the last word on each reaction. */
  ghost predicate Reads(r: Message, m: Message, ops: seq<Op>, t: Target) {
    && NoRepeats(r.reactions) && r.fromMe == m.fromMe
    && r.deleted == (m.deleted || (!m.fromMe && Unsends(ops, t)))
    && (!r.deleted ==>
          && r.text == (if !m.fromMe && LastEdit(ops, t).Some? then LastEdit(ops, t).value.text else m.text)
          && r.edited == (m.edited || (!m.fromMe && LastEdit(ops, t).Some?))
          && r.linkPreview == (if !m.fromMe && LosesLink(ops, t) then None else m.linkPreview)
          && ReactionsRead(r, m, ops, t))
  }

  ghost predicate ReactionsRead(r: Message, m: Message, ops: seq<Op>, t: Target) {
    forall x :: x in r.reactions <==>
      if x.fromMe then x in m.reactions else After(x in m.reactions, LastReact(ops, t, x.emoji))
  }

  lemma {:induction false} ApplyAllReads(m: Message, ops: seq<Op>, t: Target, now: nat -> U64)
    requires NoRepeats(m.reactions)
    ensures Reads(ApplyAll(m, ops, t, now), m, ops, t)
  {
    if ops != [] {
      var init, op := ops[..|ops| - 1], ops[|ops| - 1];
      assert ops == init + [op];
      ApplyAllReads(m, init, t, now);
      assert Unsends(ops, t) <==> Unsends(init, t) || (op.target == t && op.kind.Delete?);
      assert LosesLink(ops, t) <==> LosesLink(init, t) || (op.target == t && op.kind.Edit? && !op.kind.hasLink);
      ApplyMeans(ApplyAll(m, init, t, now), op.kind, now(|ops| - 1));
    }
  }

  // ---------- the queue in any order ----------

  lemma {:induction false} LastEditFound(q: seq<Op>, t: Target, i: nat)
    requires Canonical(q) && i < |q| && q[i].target == t && q[i].kind.Edit?
    ensures LastEdit(q, t) == Some(q[i].kind)
  {
    if i < |q| - 1 { LastEditFound(q[..|q| - 1], t, i); }
  }

  lemma {:induction false} LastEditIn(q: seq<Op>, t: Target)
    ensures LastEdit(q, t).Some? ==> exists i :: 0 <= i < |q| && q[i].target == t && q[i].kind == LastEdit(q, t).value
  {
    if q != [] {
      LastEditIn(q[..|q| - 1], t);
      if LastEdit(q[..|q| - 1], t).Some? {
        var i :| 0 <= i < |q| - 1 && q[..|q| - 1][i].target == t
                 && q[..|q| - 1][i].kind == LastEdit(q[..|q| - 1], t).value;
        assert q[i].target == t;
      }
    }
  }

  lemma {:induction false} LastReactFound(q: seq<Op>, t: Target, i: nat)
    requires Canonical(q) && i < |q| && q[i].target == t && q[i].kind.React?
    ensures LastReact(q, t, q[i].kind.emoji) == Some(q[i].kind.add)
  {
    if i < |q| - 1 { LastReactFound(q[..|q| - 1], t, i); }
  }

  lemma {:induction false} LastReactIn(q: seq<Op>, t: Target, e: string)
    ensures LastReact(q, t, e).Some? ==>
              exists i :: 0 <= i < |q| && q[i].target == t && q[i].kind == Kind.React(e, LastReact(q, t, e).value)
  {
    if q != [] {
      var init := q[..|q| - 1];
      LastReactIn(init, t, e);
      if LastReact(init, t, e).Some? {
        var i :| 0 <= i < |init| && init[i].target == t && init[i].kind == Kind.React(e, LastReact(init, t, e).value);
        assert q[i].target == t;
      }
    }
  }

  lemma OrderSaysNothing(q: seq<Op>, r: seq<Op>, t: Target)
    requires Canonical(q) && multiset(r) == multiset(q)
    ensures LastEdit(r, t) == LastEdit(q, t)
    ensures forall e :: LastReact(r, t, e) == LastReact(q, t, e)
    ensures Unsends(r, t) == Unsends(q, t) && LosesLink(r, t) == LosesLink(q, t)
  {
    ReorderingStaysCanonical(q, r);
    forall o ensures o in q <==> o in r {
      assert o in q <==> o in multiset(r);
    }
    SameWords(q, r, t);
    SameWords(r, q, t);
  }

  lemma SameWords(q: seq<Op>, r: seq<Op>, t: Target)
    requires Canonical(r) && forall o :: o in q ==> o in r
    ensures LastEdit(q, t).Some? ==> LastEdit(r, t) == LastEdit(q, t)
    ensures forall e :: LastReact(q, t, e).Some? ==> LastReact(r, t, e) == LastReact(q, t, e)
  {
    if LastEdit(q, t).Some? {
      LastEditIn(q, t);
      var i :| 0 <= i < |q| && q[i].target == t && q[i].kind == LastEdit(q, t).value;
      assert q[i] in q;
      var j :| 0 <= j < |r| && r[j] == q[i];
      LastEditFound(r, t, j);
    }
    forall e | LastReact(q, t, e).Some? ensures LastReact(r, t, e) == LastReact(q, t, e) {
      LastReactIn(q, t, e);
      var i :| 0 <= i < |q| && q[i].target == t && q[i].kind == Kind.React(e, LastReact(q, t, e).value);
      assert q[i] in q;
      var j :| 0 <= j < |r| && r[j] == q[i];
      LastReactFound(r, t, j);
    }
  }

  // ---------- what folding an op into the queue leaves ----------

  lemma {:induction false} RetainLeaves(q: seq<Op>, op: Op, t: Target)
    requires op.target != t || op.kind.Edit?
    ensures var r := Retain(q, (o: Op) => !Supersedes(op, o));
            && (op.target != t ==> LastEdit(r, t) == LastEdit(q, t))
            && (forall e :: LastReact(r, t, e) == LastReact(q, t, e))
            && Unsends(r, t) == Unsends(q, t)
  {
    var keep := (o: Op) => !Supersedes(op, o);
    var r := Retain(q, keep);
    RetainElements(q, keep);
    if Unsends(q, t) {
      var o :| o in q && o.target == t && o.kind.Delete?;
      assert keep(o);
    }
    RetainLeavesWords(q, op, t);
  }

  lemma {:induction false} RetainLeavesWords(q: seq<Op>, op: Op, t: Target)
    requires op.target != t || op.kind.Edit?
    ensures var r := Retain(q, (o: Op) => !Supersedes(op, o));
            && (op.target != t ==> LastEdit(r, t) == LastEdit(q, t))
            && (forall e :: LastReact(r, t, e) == LastReact(q, t, e))
  {
    if q != [] {
      RetainLeavesWords(q[..|q| - 1], op, t);
    }
  }

  lemma {:induction false} CutLeaves(q: seq<Op>, i: nat, t: Target)
    requires Canonical(q) && i < |q| && q[i].kind.React?
    ensures var r := q[..i] + q[i + 1..];
            && LastEdit(r, t) == LastEdit(q, t) && Unsends(r, t) == Unsends(q, t)
            && (forall e :: !(q[i].target == t && q[i].kind.emoji == e) ==> LastReact(r, t, e) == LastReact(q, t, e))
            && (q[i].target == t ==> LastReact(r, t, q[i].kind.emoji) == None)
  {
    var r := q[..i] + q[i + 1..];
    assert q == q[..i] + [q[i]] + q[i + 1..];
    if q[i].target == t {
      LastReactIn(r, t, q[i].kind.emoji);
    }
    CutLeavesWords(q, i, t);
  }

  lemma {:induction false} CutLeavesWords(q: seq<Op>, i: nat, t: Target)
    requires i < |q| && q[i].kind.React?
    ensures var r := q[..i] + q[i + 1..];
            && LastEdit(r, t) == LastEdit(q, t)
            && (forall e :: !(q[i].target == t && q[i].kind.emoji == e) ==> LastReact(r, t, e) == LastReact(q, t, e))
  {
    var init, r := q[..|q| - 1], q[..i] + q[i + 1..];
    if i == |q| - 1 {
      assert r == init;
    } else {
      CutLeavesWords(init, i, t);
      assert r[..|r| - 1] == init[..i] + init[i + 1..];
    }
  }

  // ---------- the queue against the log ----------

  /** What the queue keeps of a reaction: nothing, or the log's last word on it. */
  ghost predicate KeepsReactions(q: seq<Op>, log: seq<Op>, t: Target) {
    forall e :: LastReact(q, t, e).Some? ==> LastReact(q, t, e) == LastReact(log, t, e)
  }

  /** The queue `q` says what the log does, short of the reactions that cancelled or an unsend replaced. */
  ghost predicate Says(q: seq<Op>, log: seq<Op>, t: Target) {
    && Unsends(q, t) == Unsends(log, t) && KeepsReactions(q, log, t)
    && (!Unsends(log, t) ==> LastEdit(q, t) == LastEdit(log, t))
  }

  /** A reaction's queued word once `op` is folded in. */
  ghost predicate NextReact(r: seq<Op>, q: seq<Op>, op: Op, t: Target, e: string) {
    LastReact(r, t, e) ==
      if op.target == t && op.kind.Delete? then None
      else if op.target == t && op.kind.React? && op.kind.emoji == e
      then (if LastReact(q, t, e) == Some(!op.kind.add) then None else Some(op.kind.add))
      else LastReact(q, t, e)
  }

  ghost predicate FoldsTo(r: seq<Op>, q: seq<Op>, op: Op, t: Target) {
    && Unsends(r, t) == (Unsends(q, t) || (op.target == t && op.kind.Delete?))
    && (!Unsends(r, t) ==>
          LastEdit(r, t) == if op.target == t && op.kind.Edit? then Some(op.kind) else LastEdit(q, t))
    && (forall e :: NextReact(r, q, op, t, e))
  }

  lemma {:induction false} QueueSays(log: seq<Op>, t: Target)
    requires Fits(log)
    ensures Says(Coalesce(log), log, t)
  {
    if log != [] {
      var init, op := log[..|log| - 1], log[|log| - 1];
      CoalesceFoldsTo(log, t);
      QueueSays(init, t);
      SaysStep(Coalesce(log), Coalesce(init), log, t);
    }
  }

  lemma CoalesceFoldsTo(log: seq<Op>, t: Target)
    requires log != [] && Fits(log)
    ensures FoldsTo(Coalesce(log), Coalesce(log[..|log| - 1]), log[|log| - 1], t)
    ensures Fits(log[..|log| - 1])
  {
    QueueIsCanonical(log[..|log| - 1]);
    FoldSays(Coalesce(log[..|log| - 1]), log[|log| - 1], t);
  }

  lemma UnsendsGrows(log: seq<Op>, t: Target)
    requires log != []
    ensures var init, op := log[..|log| - 1], log[|log| - 1];
            Unsends(log, t) <==> Unsends(init, t) || (op.target == t && op.kind.Delete?)
  {
    assert log == log[..|log| - 1] + [log[|log| - 1]];
  }

  lemma SaysStep(r: seq<Op>, q: seq<Op>, log: seq<Op>, t: Target)
    requires log != [] && Says(q, log[..|log| - 1], t) && FoldsTo(r, q, log[|log| - 1], t)
    ensures Says(r, log, t)
  {
    var init, op := log[..|log| - 1], log[|log| - 1];
    UnsendsGrows(log, t);
    forall e | LastReact(r, t, e).Some? ensures LastReact(r, t, e) == LastReact(log, t, e) {
      assert NextReact(r, q, op, t, e);
    }
  }

  /** One op folded in. */
  lemma FoldSays(q: seq<Op>, op: Op, t: Target)
    requires Canonical(q)
    ensures FoldsTo(Fold(q, op), q, op, t)
  {
    if op.kind.React? {
      FoldReactionSays(q, op, t);
    } else {
      var kept := Retain(q, (o: Op) => !Supersedes(op, o));
      assert Fold(q, op) == kept + [op] && Fold(q, op)[..|kept|] == kept;
      if op.target != t || op.kind.Edit? {
        RetainLeaves(q, op, t);
        assert Unsends(kept + [op], t) <==> Unsends(kept, t) || (op.target == t && op.kind.Delete?);
      } else {
        assert op in kept + [op];
        UnsendReplaces(q, op, t);
      }
    }
  }

  /** An unsend leaves no reaction queued for its target. */
  lemma UnsendReplaces(q: seq<Op>, op: Op, t: Target)
    requires op.target == t && op.kind.Delete?
    ensures forall e :: LastReact(Fold(q, op), t, e) == None
  {
    var r := Fold(q, op);
    RetainElements(q, (o: Op) => !Supersedes(op, o));
    forall e ensures LastReact(r, t, e) == None {
      LastReactIn(r, t, e);
      forall i | 0 <= i < |r| && r[i].target == t ensures !r[i].kind.React? {
        assert r[i] in r;
      }
    }
  }

  lemma FoldReactionSays(q: seq<Op>, op: Op, t: Target)
    requires Canonical(q) && op.kind.React?
    ensures var r := Fold(q, op);
            && Unsends(r, t) == Unsends(q, t) && LastEdit(r, t) == LastEdit(q, t)
            && forall e :: NextReact(r, q, op, t, e)
  {
    match FindReaction(q, op) {
      case None =>
        NotQueued(q, op);
        AppendSays(q, op, t);
      case Some(i) => ReplaceSays(q, i, op, t);
    }
  }

  lemma ReplaceSays(q: seq<Op>, i: nat, op: Op, t: Target)
    requires Canonical(q) && op.kind.React? && i < |q| && SameReaction(q[i], op)
    ensures var rest := q[..i] + q[i + 1..];
            var r := if q[i].kind.add != op.kind.add then rest else rest + [op];
            && Unsends(r, t) == Unsends(q, t) && LastEdit(r, t) == LastEdit(q, t)
            && forall e :: NextReact(r, q, op, t, e)
  {
    var rest := q[..i] + q[i + 1..];
    CutLeaves(q, i, t);
    LastReactFound(q, q[i].target, i);
    AppendSays(rest, op, t);
  }

  lemma AppendSays(q: seq<Op>, op: Op, t: Target)
    requires op.kind.React?
    ensures var r := q + [op];
            && Unsends(r, t) == Unsends(q, t) && LastEdit(r, t) == LastEdit(q, t)
            && forall e :: LastReact(r, t, e) ==
                 if op.target == t && op.kind.emoji == e then Some(op.kind.add) else LastReact(q, t, e)
  {
    assert (q + [op])[..|q|] == q;
  }

  lemma NotQueued(q: seq<Op>, op: Op)
    requires op.kind.React? && FindReaction(q, op) == None
    ensures LastReact(q, op.target, op.kind.emoji) == None
  {
    LastReactIn(q, op.target, op.kind.emoji);
    NoneFound(q, op);
    if LastReact(q, op.target, op.kind.emoji).Some? {
      var i :| 0 <= i < |q| && q[i].target == op.target
               && q[i].kind == Kind.React(op.kind.emoji, LastReact(q, op.target, op.kind.emoji).value);
      assert q[i] in q && SameReaction(q[i], op);
    }
  }

  // ---------- coalescing refines the log ----------

  /** The ops unsend the message: its author's do, anyone else's unsend is refused. */
  ghost predicate EndsUnsent(c: Message, log: seq<Op>, t: Target) {
    c.deleted || (!c.fromMe && Unsends(log, t))
  }

  /** A reaction with nothing left in the queue, cancelled or replaced by an unsend, was left as the peer has it. */
  ghost predicate CancelsToPeers(c: Message, log: seq<Op>, t: Target) {
    forall e :: LastReact(log, t, e).Some? && LastReact(Coalesce(log), t, e).None? ==>
      LastReact(log, t, e).value == (Reaction(e, false) in c.reactions)
  }

  /**
    Sending the coalesced queue, in whatever order, shows the peer what sending every op
    would have, exactly when each reaction no longer queued was left as the peer has it,
    or the message ends unsent anyway. The message may be either side's: an edit or unsend
    of the peer's own is queued like any other and refused there.
  */
  lemma CoalescingIsExact(c: Message, log: seq<Op>, sent: seq<Op>, t: Target, now: nat -> U64, later: nat -> U64)
    requires Fits(log) && NoRepeats(c.reactions) && multiset(sent) == multiset(Coalesce(log))
    ensures SeenOf(ApplyAll(c, sent, t, later)) == SeenOf(ApplyAll(c, log, t, now)) <==>
              EndsUnsent(c, log, t) || CancelsToPeers(c, log, t)
  {
    var a, b := ApplyAll(c, sent, t, later), ApplyAll(c, log, t, now);
    QueueSays(log, t);
    QueueIsCanonical(log);
    OrderSaysNothing(Coalesce(log), sent, t);
    ApplyAllReads(c, sent, t, later);
    ApplyAllReads(c, log, t, now);
    if !EndsUnsent(c, log, t) {
      SeenAlike(c, log, sent, t, a, b);
    }
  }

  lemma SeenAlike(c: Message, log: seq<Op>, sent: seq<Op>, t: Target, a: Message, b: Message)
    requires Reads(a, c, sent, t) && Reads(b, c, log, t) && !a.deleted && !b.deleted
    requires (!c.fromMe ==> LastEdit(sent, t) == LastEdit(log, t)) && KeepsReactions(Coalesce(log), log, t)
    requires forall e :: LastReact(sent, t, e) == LastReact(Coalesce(log), t, e)
    ensures SeenOf(a) == SeenOf(b) <==> CancelsToPeers(c, log, t)
  {
    if CancelsToPeers(c, log, t) {
      forall x ensures x in a.reactions <==> x in b.reactions {
        assert x == Reaction(x.emoji, x.fromMe);
      }
    }
    if SeenOf(a) == SeenOf(b) {
      forall e | LastReact(log, t, e).Some? && LastReact(Coalesce(log), t, e).None?
        ensures LastReact(log, t, e).value == (Reaction(e, false) in c.reactions)
      {
        assert Reaction(e, false) in a.reactions <==> Reaction(e, false) in SeenOf(b).reactions;
      }
    }
  }

  /** An edit drops the preview of a link and a later one has a link again. */
  ghost predicate RegainsLink(log: seq<Op>, t: Target) {
    LosesLink(log, t) && LastEdit(log, t).Some? && LastEdit(log, t).value.hasLink
  }

  /**
    The preview of a link is the one thing coalescing can show differently: it survives when
    the queued edit that would have dropped it was replaced.
  */
  lemma CoalescedPreview(c: Message, log: seq<Op>, sent: seq<Op>, t: Target, now: nat -> U64, later: nat -> U64)
    requires Fits(log) && NoRepeats(c.reactions) && multiset(sent) == multiset(Coalesce(log)) && !c.deleted
    ensures ApplyAll(c, sent, t, later).linkPreview == ApplyAll(c, log, t, now).linkPreview <==>
              c.linkPreview == None || c.fromMe || Unsends(log, t) || !RegainsLink(log, t)
  {
    QueueSays(log, t);
    QueueIsCanonical(log);
    OrderSaysNothing(Coalesce(log), sent, t);
    if !c.fromMe && !Unsends(log, t) { LosesAsLast(sent, log, t); }
    PreviewAfter(c, sent, t, later);
    PreviewAfter(c, log, t, now);
  }

  lemma {:induction false} TombstoneIsBare(c: Message, ops: seq<Op>, t: Target, now: nat -> U64)
    requires !c.deleted
    ensures var r := ApplyAll(c, ops, t, now); r.deleted ==> r.linkPreview == None
  {
    if ops != [] { TombstoneIsBare(c, ops[..|ops| - 1], t, now); }
  }

  lemma PreviewAfter(c: Message, ops: seq<Op>, t: Target, now: nat -> U64)
    requires NoRepeats(c.reactions) && !c.deleted
    ensures ApplyAll(c, ops, t, now).linkPreview ==
              if !c.fromMe && (Unsends(ops, t) || LosesLink(ops, t)) then None else c.linkPreview
  {
    ApplyAllReads(c, ops, t, now);
    TombstoneIsBare(c, ops, t, now);
  }

  lemma LosesAsLast(sent: seq<Op>, log: seq<Op>, t: Target)
    requires multiset(sent) == multiset(Coalesce(log)) && Canonical(Coalesce(log))
    requires LastEdit(Coalesce(log), t) == LastEdit(log, t) && LosesLink(sent, t) == LosesLink(Coalesce(log), t)
    ensures LosesLink(sent, t) <==> LosesLink(log, t) && !RegainsLink(log, t)
  {
    LastLink(Coalesce(log), t);
    LastEditIn(log, t);
    if LosesLink(log, t) {
      var o :| o in log && o.target == t && o.kind.Edit? && !o.kind.hasLink;
      LastEditNone(log, t, o);
    }
  }

  lemma {:induction false} LastEditNone(q: seq<Op>, t: Target, o: Op)
    requires o in q && o.target == t && o.kind.Edit?
    ensures LastEdit(q, t).Some?
  {
    if o != q[|q| - 1] {
      assert q == q[..|q| - 1] + [q[|q| - 1]];
      LastEditNone(q[..|q| - 1], t, o);
    }
  }

  /** With one edit at most, its link decides. */
  lemma LastLink(q: seq<Op>, t: Target)
    requires Canonical(q)
    ensures LosesLink(q, t) <==> LastEdit(q, t).Some? && !LastEdit(q, t).value.hasLink
  {
    if LosesLink(q, t) {
      var o :| o in q && o.target == t && o.kind.Edit? && !o.kind.hasLink;
      var i :| 0 <= i < |q| && q[i] == o;
      LastEditFound(q, t, i);
    }
    LastEditIn(q, t);
  }

  // ---------- the author's side ----------

  /** The same change made on the author's own copy. */
  function Author(m: Message, k: Kind, now: U64): Message {
    match k
    case React(emoji, add) => ApplyReaction(m, Reaction(emoji, true), add, now)
    case Edit(text, hasLink) => (match ApplyEdit(m, text, hasLink, true, now) case Some(e) => e case None => m)
    case Delete => (match ApplyDelete(m, true, now) case Some(d) => d case None => m)
  }

  function AuthorAll(m: Message, ops: seq<Op>, t: Target, now: nat -> U64): Message {
    if ops == [] then m
    else
      var r, op := AuthorAll(m, ops[..|ops| - 1], t, now), ops[|ops| - 1];
      if op.target == t then Author(r, op.kind, now(|ops| - 1)) else r
  }

  /** A reaction really toggles, and an unsend is of one's own; an edit refused here is refused there. */
  predicate Real(m: Message, k: Kind) {
    match k
    case React(emoji, add) => add != (Reaction(emoji, true) in m.reactions)
    case Edit(_, _) => true
    case Delete => m.fromMe
  }

  /** Every queued op for `t` was a real change of the author's copy `m`. */
  predicate AllReal(m: Message, ops: seq<Op>, t: Target, now: nat -> U64) {
    ops == [] || (
      var init, op := ops[..|ops| - 1], ops[|ops| - 1];
      AllReal(m, init, t, now) && (op.target == t ==> Real(AuthorAll(m, init, t, now), op.kind)))
  }

  /** The two ends of a conversation show the same: what is mine here is theirs there. */
  ghost predicate Mirrored(a: Message, c: Message) {
    && a.fromMe != c.fromMe && a.deleted == c.deleted
    && NoRepeats(a.reactions) && NoRepeats(c.reactions)
    && (!a.deleted ==>
          && a.text == c.text && a.edited == c.edited
          && forall e, mine :: Reaction(e, mine) in a.reactions <==> Reaction(e, !mine) in c.reactions)
  }

  lemma MirroredStep(a: Message, c: Message, k: Kind, now: U64, later: U64)
    requires Mirrored(a, c) && Real(a, k)
    ensures Mirrored(Author(a, k, now), Apply(c, k, later))
  {
    if k.React? {
      RemoveElements(a.reactions, Reaction(k.emoji, true));
      RemoveElements(c.reactions, Reaction(k.emoji, false));
    }
  }

  /** Sending every op in order keeps the ends showing the same. */
  lemma {:induction false} FullLogMirrors(a: Message, c: Message, log: seq<Op>, t: Target, now: nat -> U64,
                                          later: nat -> U64)
    requires Mirrored(a, c) && AllReal(a, log, t, now)
    ensures Mirrored(AuthorAll(a, log, t, now), ApplyAll(c, log, t, later))
  {
    if log != [] {
      var init, op := log[..|log| - 1], log[|log| - 1];
      assert log == init + [op];
      FullLogMirrors(a, c, init, t, now, later);
      if op.target == t {
        var there, here := ApplyAll(c, init, t, later), AuthorAll(a, init, t, now);
        MirroredStep(here, there, op.kind, now(|log| - 1), later(|log| - 1));
        AuthorStays(a, init, t, now);
      }
    }
  }

  lemma {:induction false} AuthorStays(a: Message, ops: seq<Op>, t: Target, now: nat -> U64)
    ensures AuthorAll(a, ops, t, now).fromMe == a.fromMe
  {
    if ops != [] {
      AuthorStays(a, ops[..|ops| - 1], t, now);
    }
  }

  /** A reaction as the peer has it, `was`, against the queue's and the log's last word on it. */
  ghost predicate NetsOut(was: bool, queued: Option<bool>, logged: Option<bool>) {
    After(was, queued) == After(was, logged) && (queued.Some? ==> queued.value != was)
  }

  /** Reactions that really toggled cancel only back to what the peer has. */
  lemma {:induction false} TogglesNetOut(a: Message, c: Message, log: seq<Op>, t: Target, now: nat -> U64, e: string)
    requires Fits(log) && Mirrored(a, c) && AllReal(a, log, t, now) && !c.deleted && !Unsends(log, t)
    ensures NetsOut(Reaction(e, false) in c.reactions, LastReact(Coalesce(log), t, e), LastReact(log, t, e))
  {
    if log != [] {
      var init, op := log[..|log| - 1], log[|log| - 1];
      UnsendsGrows(log, t);
      CoalesceFoldsTo(log, t);
      TogglesNetOut(a, c, init, t, now, e);
      if op.target == t && op.kind.React? && op.kind.emoji == e {
        RealTogglesShown(a, c, init, t, now, e, op.kind.add);
      }
      QueueSays(init, t);
      NetsOutStep(Reaction(e, false) in c.reactions, Coalesce(log), Coalesce(init), log, t, e);
    }
  }

  lemma NetsOutStep(was: bool, r: seq<Op>, q: seq<Op>, log: seq<Op>, t: Target, e: string)
    requires log != [] && !Unsends(log, t)
    requires var init, op := log[..|log| - 1], log[|log| - 1];
             && NetsOut(was, LastReact(q, t, e), LastReact(init, t, e)) && Says(q, init, t) && FoldsTo(r, q, op, t)
             && (op.target == t && op.kind.React? && op.kind.emoji == e ==>
                   op.kind.add != After(was, LastReact(init, t, e)))
    ensures NetsOut(was, LastReact(r, t, e), LastReact(log, t, e))
  {
    UnsendsGrows(log, t);
    var op := log[|log| - 1];
    assert NextReact(r, q, op, t, e);
  }

  lemma RealTogglesShown(a: Message, c: Message, ops: seq<Op>, t: Target, now: nat -> U64, e: string, add: bool)
    requires Mirrored(a, c) && AllReal(a, ops, t, now) && !c.deleted && !Unsends(ops, t)
    requires Real(AuthorAll(a, ops, t, now), Kind.React(e, add))
    ensures add != After(Reaction(e, false) in c.reactions, LastReact(ops, t, e))
  {
    FullLogMirrors(a, c, ops, t, now, now);
    ApplyAllReads(c, ops, t, now);
    ShownBefore(c, ops, t, now, e);
  }

  lemma ShownBefore(c: Message, ops: seq<Op>, t: Target, now: nat -> U64, e: string)
    requires Reads(ApplyAll(c, ops, t, now), c, ops, t) && !c.deleted && !Unsends(ops, t)
    ensures Reaction(e, false) in ApplyAll(c, ops, t, now).reactions <==>
              After(Reaction(e, false) in c.reactions, LastReact(ops, t, e))
    ensures !ApplyAll(c, ops, t, now).deleted
  {
  }

  /**
    The queue does its job: when every queued change was real and none had reached the peer,
    flushing the coalesced queue in any order leaves the peer showing what the author shows.
  */
  lemma FlushMirrorsAuthor(a: Message, c: Message, log: seq<Op>, sent: seq<Op>, t: Target, now: nat -> U64,
                           later: nat -> U64)
    requires Fits(log) && Mirrored(a, c) && AllReal(a, log, t, now)
    requires multiset(sent) == multiset(Coalesce(log))
    ensures Mirrored(AuthorAll(a, log, t, now), ApplyAll(c, sent, t, later))
  {
    FullLogMirrors(a, c, log, t, now, later);
    RealLogsCancel(a, c, log, t, now);
    CoalescingIsExact(c, log, sent, t, later, later);
    SameSeen(c, log, sent, t, later);
    SeenIsMirrored(AuthorAll(a, log, t, now), ApplyAll(c, log, t, later), ApplyAll(c, sent, t, later));
  }

  lemma RealLogsCancel(a: Message, c: Message, log: seq<Op>, t: Target, now: nat -> U64)
    requires Fits(log) && Mirrored(a, c) && AllReal(a, log, t, now)
    ensures EndsUnsent(c, log, t) || CancelsToPeers(c, log, t)
  {
    if c.fromMe { OnlyReactions(a, log, t, now); }
    if !c.deleted && !Unsends(log, t) {
      forall e | LastReact(log, t, e).Some? && LastReact(Coalesce(log), t, e).None?
        ensures LastReact(log, t, e).value == (Reaction(e, false) in c.reactions)
      {
        TogglesNetOut(a, c, log, t, now, e);
      }
    }
  }

  /** Of a message the peer wrote, a real change is a reaction. */
  lemma {:induction false} OnlyReactions(a: Message, ops: seq<Op>, t: Target, now: nat -> U64)
    requires !a.fromMe && AllReal(a, ops, t, now)
    ensures !Unsends(ops, t)
  {
    if ops != [] {
      OnlyReactions(a, ops[..|ops| - 1], t, now);
      AuthorStays(a, ops[..|ops| - 1], t, now);
      UnsendsGrows(ops, t);
    }
  }

  lemma SameSeen(c: Message, log: seq<Op>, sent: seq<Op>, t: Target, now: nat -> U64)
    requires NoRepeats(c.reactions)
    ensures var a, b := ApplyAll(c, log, t, now), ApplyAll(c, sent, t, now);
            NoRepeats(a.reactions) && NoRepeats(b.reactions) && a.fromMe == b.fromMe
  {
    ApplyAllReads(c, sent, t, now);
    ApplyAllReads(c, log, t, now);
  }

  lemma SeenIsMirrored(a: Message, b: Message, c: Message)
    requires Mirrored(a, b) && SeenOf(b) == SeenOf(c) && b.fromMe == c.fromMe && NoRepeats(c.reactions)
    ensures Mirrored(a, c)
  {
    if !b.deleted {
      forall r ensures r in b.reactions <==> r in c.reactions {
        assert r in b.reactions <==> r in SeenOf(b).reactions;
        assert r in c.reactions <==> r in SeenOf(c).reactions;
      }
    }
  }

  /** A reaction re-sent though the peer already shows it, then taken back: the queue is empty and the peer keeps it. */
  lemma RepeatedReactionIsLost(c: Message, emoji: string, t: Target, now: nat -> U64)
    requires !c.deleted && c.reactions == [Reaction(emoji, false)]
    ensures var log := [Op("1", t, Kind.React(emoji, true), 0), Op("2", t, Kind.React(emoji, false), 1)];
            && Coalesce(log) == []
            && SeenOf(ApplyAll(c, [], t, now)) != SeenOf(ApplyAll(c, log, t, now))
  {
    var add, drop := Op("1", t, Kind.React(emoji, true), 0), Op("2", t, Kind.React(emoji, false), 1);
    var log := [add, drop];
    OppositesCancel(log, add, drop);
    ApplyAllReads(c, log, t, now);
    assert LastReact(log, t, emoji) == Some(false) && !Unsends(log, t);
    ShownBefore(c, log, t, now, emoji);
    assert Reaction(emoji, false) in c.reactions;
    assert Reaction(emoji, false) in SeenOf(c).reactions;
  }

  lemma OppositesCancel(log: seq<Op>, add: Op, drop: Op)
    requires log == [add, drop] && SameReaction(add, drop) && add.kind.add != drop.kind.add
    ensures Coalesce(log) == []
  {
    assert log[..1] == [add] && [add][..0] == [];
    assert Coalesce([]) == [] && FindReaction([], add) == None && Fold([], add) == [add];
    assert Coalesce([add]) == Enqueue(Coalesce([]), add);
    assert FindReaction([add], drop) == Some(0) && Fold([add], drop) == [];
    assert Coalesce(log) == Enqueue(Coalesce([add]), drop);
  }

  /** A reaction to the peer's own message, then an unsend of it, which replaces the reaction and is refused there. */
  lemma SweptReactionIsLost(c: Message, t: Target, react: Op, unsend: Op, now: nat -> U64)
    requires c.fromMe && !c.deleted && c.reactions == []
    requires react.target == t && react.kind.React? && react.kind.add && unsend.target == t && unsend.kind.Delete?
    ensures var log := [react, unsend];
            SeenOf(ApplyAll(c, Coalesce(log), t, now)) != SeenOf(ApplyAll(c, log, t, now))
  {
    var log, e := [react, unsend], react.kind.emoji;
    ShortLogsFit(log);
    assert log[..1] == [react] && Coalesce(log) == Enqueue(Coalesce([react]), unsend);
    UnsendReplaces(Coalesce([react]), unsend, t);
    assert LastReact(log, t, e) == LastReact([react], t, e) == Some(true);
    CoalescingIsExact(c, log, Coalesce(log), t, now, now);
    FoldGrows(Coalesce([react]), unsend);
    ShortLogsFit([react]);
    assert LastReact(Coalesce(log), t, e) == None;
  }

  /** A link taken out and put in again: every op would drop the preview on the way, the queue keeps it. */
  lemma PreviewSurvives(c: Message, t: Target, drop: Op, again: Op, now: nat -> U64)
    requires !c.deleted && !c.fromMe && c.linkPreview.Some? && NoRepeats(c.reactions)
    requires drop.target == t && drop.kind.Edit? && !drop.kind.hasLink
    requires again.target == t && again.kind.Edit? && again.kind.hasLink
    ensures ApplyAll(c, Coalesce([drop, again]), t, now).linkPreview != ApplyAll(c, [drop, again], t, now).linkPreview
  {
    var log := [drop, again];
    ShortLogsFit(log);
    LinkRegained(log, t, drop, again);
    CoalescedPreview(c, log, Coalesce(log), t, now, now);
  }

  lemma LinkRegained(log: seq<Op>, t: Target, drop: Op, again: Op)
    requires log == [drop, again] && drop.target == t && drop.kind.Edit? && !drop.kind.hasLink
    requires again.target == t && again.kind.Edit? && again.kind.hasLink
    ensures !Unsends(log, t) && RegainsLink(log, t)
  {
    assert log[1] == again && drop in log;
  }
}
