/** The queue of offline edits, unsends and reactions, and what coalescing it means. */
module Ops {
  import opened Common
  import opened Sorting
  import opened Threads

  const MAX_OPS: nat := 1000
  const OP_MAX_AGE_MS: U64 := 604_800_000

  /** `hasLink`: the edited text has a link. */
  datatype Kind = React(emoji: string, add: bool) | Edit(text: string, hasLink: bool) | Delete

  /** A message of one conversation. */
  datatype Target = Target(peer: string, message: string)

  datatype Op = Op(id: string, target: Target, kind: Kind, ts: U64)

  // ---------- the queue ----------

  function Retain(q: seq<Op>, keep: Op -> bool): (r: seq<Op>)
    ensures |r| <= |q|
  {
    if q == [] then []
    else
      if keep(q[|q| - 1]) then Retain(q[..|q| - 1], keep) + [q[|q| - 1]] else Retain(q[..|q| - 1], keep)
  }

  lemma {:induction false} RetainElements(q: seq<Op>, keep: Op -> bool)
    ensures forall o :: o in Retain(q, keep) <==> o in q && keep(o)
  {
    if q != [] {
      RetainElements(q[..|q| - 1], keep);
      assert q == q[..|q| - 1] + [q[|q| - 1]];
    }
  }

  predicate SameReaction(o: Op, p: Op) {
    o.target == p.target && o.kind.React? && p.kind.React? && o.kind.emoji == p.kind.emoji
  }

  function FindReaction(q: seq<Op>, op: Op): (r: Option<nat>)
    ensures r.Some? ==> r.value < |q| && SameReaction(q[r.value], op)
  {
    if q == [] then None
    else if SameReaction(q[0], op) then Some(0)
    else
      match FindReaction(q[1..], op)
      case None => None
      case Some(i) => Some(i + 1)
  }

  lemma {:induction false} NoneFound(q: seq<Op>, op: Op)
    requires FindReaction(q, op) == None
    ensures forall o :: o in q ==> !SameReaction(o, op)
  {
    if q != [] {
      NoneFound(q[1..], op);
      assert q == [q[0]] + q[1..];
    }
  }

  /** An unsend replaces everything queued for its target, an edit the edit. */
  predicate Supersedes(op: Op, o: Op) {
    o.target == op.target && (op.kind.Delete? || (op.kind.Edit? && o.kind.Edit?))
  }

  /** The queue with `op` folded in, before it is bounded. */
  function Fold(q: seq<Op>, op: Op): seq<Op> {
    if op.kind.React? then
      match FindReaction(q, op)
      case None => q + [op]
      case Some(i) =>
        var rest := q[..i] + q[i + 1..];
        if q[i].kind.add != op.kind.add then rest else rest + [op]
    else Retain(q, (o: Op) => !Supersedes(op, o)) + [op]
  }

  /** A reaction and its queued opposite net to nothing. */
  predicate Cancels(q: seq<Op>, op: Op) {
    op.kind.React? && var i := FindReaction(q, op); i.Some? && q[i.value].kind.add != op.kind.add
  }

  function Enqueue(q: seq<Op>, op: Op): seq<Op> {
    var r := Fold(q, op);
    if |r| > MAX_OPS && !Cancels(q, op) then r[|r| - MAX_OPS..] else r
  }

  function Coalesce(log: seq<Op>): seq<Op> {
    if log == [] then [] else Enqueue(Coalesce(log[..|log| - 1]), log[|log| - 1])
  }

  /** The bound never drops an op along the way. */
  predicate Fits(log: seq<Op>) {
    log == [] || (Fits(log[..|log| - 1]) && |Fold(Coalesce(log[..|log| - 1]), log[|log| - 1])| <= MAX_OPS)
  }

  lemma FoldGrows(q: seq<Op>, op: Op)
    ensures |Fold(q, op)| <= |q| + 1 && |Enqueue(q, op)| <= |q| + 1
  {
  }

  /** A queue of at most a thousand ops ever always fits. */
  lemma {:induction false} ShortLogsFit(log: seq<Op>)
    requires |log| <= MAX_OPS
    ensures Fits(log) && |Coalesce(log)| <= |log|
  {
    if log != [] {
      ShortLogsFit(log[..|log| - 1]);
      FoldGrows(Coalesce(log[..|log| - 1]), log[|log| - 1]);
    }
  }

  // ---------- what the queue never holds twice ----------

  /** At most one of these two can be queued: one edit, one unsend, one reaction per emoji. */
  predicate Clash(o: Op, p: Op) {
    o.target == p.target && ((o.kind.Edit? && p.kind.Edit?) || (o.kind.Delete? && p.kind.Delete?) || SameReaction(o, p))
  }

  ghost predicate Canonical(q: seq<Op>) {
    forall i, j :: 0 <= i < j < |q| ==> !Clash(q[i], q[j])
  }

  lemma AddKeepsCanonical(q: seq<Op>, op: Op)
    requires Canonical(q) && forall o :: o in q ==> !Clash(o, op)
    ensures Canonical(q + [op])
  {
  }

  lemma {:induction false} RetainKeepsCanonical(q: seq<Op>, keep: Op -> bool)
    requires Canonical(q)
    ensures Canonical(Retain(q, keep))
  {
    if q != [] {
      var init := q[..|q| - 1];
      RetainKeepsCanonical(init, keep);
      RetainElements(init, keep);
      forall o | o in Retain(init, keep) ensures !Clash(o, q[|q| - 1]) {
        assert o in init;
      }
      AddKeepsCanonical(Retain(init, keep), q[|q| - 1]);
    }
  }

  lemma FoldKeepsCanonical(q: seq<Op>, op: Op)
    requires Canonical(q)
    ensures Canonical(Fold(q, op))
  {
    if !op.kind.React? {
      var keep := (o: Op) => !Supersedes(op, o);
      RetainKeepsCanonical(q, keep);
      RetainElements(q, keep);
      AddKeepsCanonical(Retain(q, keep), op);
    } else if FindReaction(q, op) == None {
      NoneFound(q, op);
    }
  }

  /** Whatever was enqueued, no target ever has two edits, two unsends or two of one reaction queued. */
  lemma {:induction false} QueueIsCanonical(log: seq<Op>)
    ensures Canonical(Coalesce(log)) && |Coalesce(log)| <= MAX_OPS
  {
    if log != [] {
      QueueIsCanonical(log[..|log| - 1]);
      FoldKeepsCanonical(Coalesce(log[..|log| - 1]), log[|log| - 1]);
    }
  }

  lemma Twice(q: seq<Op>, o: Op) returns (i: nat, j: nat)
    requires multiset(q)[o] >= 2
    ensures i < j < |q| && q[i] == o && q[j] == o
  {
    i :| 0 <= i < |q| && q[i] == o;
    assert q == q[..i] + [o] + q[i + 1..];
    assert o in multiset(q[..i]) + multiset(q[i + 1..]);
    if o in q[i + 1..] {
      j :| 0 <= j < |q| - i - 1 && q[i + 1..][j] == o;
      j := i + 1 + j;
    } else {
      var k :| 0 <= k < i && q[..i][k] == o;
      i, j := k, i;
    }
  }

  lemma ReorderingStaysCanonical(q: seq<Op>, r: seq<Op>)
    requires Canonical(q) && multiset(r) == multiset(q)
    ensures Canonical(r)
  {
    forall i, j | 0 <= i < j < |r| ensures !Clash(r[i], r[j]) {
      assert r[i] in multiset(q) && r[j] in multiset(q);
      if r[i] == r[j] {
        assert r == r[..i] + [r[i]] + r[i + 1..j] + [r[j]] + r[j + 1..];
        var a, b := Twice(q, r[i]);
      }
    }
  }

  // ---------- the queue as the program keeps it ----------

  /** `(a.ts, a.id) <= (b.ts, b.id)`. */
  predicate Before(a: Op, b: Op) {
    a.ts < b.ts || (a.ts == b.ts && IdLeq(a.id, b.id))
  }

  lemma BeforeIsOrder()
    ensures TotalOrder(Before)
  {
    forall a, b ensures Before(a, b) || Before(b, a) {
      IdTotal(a.id, b.id);
    }
    forall a, b, c | Before(a, b) && Before(b, c) ensures Before(a, c) {
      if IdLeq(a.id, b.id) && IdLeq(b.id, c.id) { IdTransitive(a.id, b.id, c.id); }
    }
  }

  lemma {:induction false} RetainAll(q: seq<Op>, keep: Op -> bool)
    ensures (forall o :: o in q ==> keep(o)) ==> Retain(q, keep) == q
  {
    if q != [] {
      RetainAll(q[..|q| - 1], keep);
      assert q == q[..|q| - 1] + [q[|q| - 1]];
    }
  }

  predicate Young(o: Op, now: U64) {
    SatSub(now, o.ts) < OP_MAX_AGE_MS
  }

  /** The queue file. */
  class OpQueue {
    var ops: seq<Op>

    constructor ()
      ensures ops == []
    {
      ops := [];
    }

    method EnqueueOp(op: Op)
      modifies this
      ensures ops == Enqueue(old(ops), op)
    {
      match op.kind {
        case Delete => ops := Retain(ops, (o: Op) => !Supersedes(op, o));
        case Edit(_, _) => ops := Retain(ops, (o: Op) => !Supersedes(op, o));
        case React(_, add) =>
          var pos := FindReaction(ops, op);
          if pos.Some? {
            var queued := ops[pos.value];
            ops := ops[..pos.value] + ops[pos.value + 1..];
            if queued.kind.add != add {
              return;
            }
          }
      }
      ops := ops + [op];
      if |ops| > MAX_OPS {
        ops := ops[|ops| - MAX_OPS..];
      }
    }

    /** Drop a delivered op. */
    method AckOp(id: string)
      modifies this
      ensures forall o :: o in ops <==> o in old(ops) && o.id != id
      ensures Canonical(old(ops)) ==> Canonical(ops)
    {
      RetainElements(ops, (o: Op) => o.id != id);
      if Canonical(ops) { RetainKeepsCanonical(ops, (o: Op) => o.id != id); }
      ops := Retain(ops, (o: Op) => o.id != id);
    }

    /** The ops to send, oldest first, once the aged ones are dropped. */
    method PendingOps(now: U64) returns (r: seq<Op>)
      modifies this
      ensures ops == Retain(old(ops), (o: Op) => Young(o, now))
      ensures forall o :: o in ops <==> o in old(ops) && now < o.ts + 604_800_000
      ensures (forall o :: o in old(ops) ==> Young(o, now)) ==> ops == old(ops)
      ensures multiset(r) == multiset(ops) && SortedBy(r, Before)
    {
      RetainAll(ops, (o: Op) => Young(o, now));
      RetainElements(ops, (o: Op) => Young(o, now));
      ops := Retain(ops, (o: Op) => Young(o, now));
      r := SortBy(ops, Before);
      BeforeIsOrder();
      SortByIsSorted(ops, Before);
      SortByElements(ops, Before);
    }
  }
}
