/** What one round of account sync sends across all conversations, within the budget. */
module Planning {
  import opened Messages
  import opened Threads
  import opened Slotting
  import opened Exchange

  /** Messages to send, by conversation. */
  type Batches = map<string, seq<Message>>

  // ---------- sizes ----------

  /** The size of everything sent, whichever way the conversations are walked. */
  ghost function SentSize(sent: Batches, size: Message -> nat): nat {
    if sent == map[] then 0
    else
      var eid :| eid in sent;
      TotalSize(sent[eid], size) + SentSize(sent - {eid}, size)
  }

  lemma {:induction false} SentSizeOf(sent: Batches, eid: string, size: Message -> nat)
    requires eid in sent
    ensures SentSize(sent, size) == TotalSize(sent[eid], size) + SentSize(sent - {eid}, size)
    decreases |sent|
  {
    var e :| e in sent && SentSize(sent, size) == TotalSize(sent[e], size) + SentSize(sent - {e}, size);
    if e != eid {
      SentSizeOf(sent - {e}, eid, size);
      SentSizeOf(sent - {eid}, e, size);
      assert sent - {e} - {eid} == sent - {eid} - {e};
    }
  }

  /** Sending for one more conversation. */
  lemma SentSizeGrows(sent: Batches, eid: string, kept: seq<Message>, size: Message -> nat)
    requires eid !in sent
    ensures SentSize(sent[eid := kept], size) == TotalSize(kept, size) + SentSize(sent, size)
  {
    SentSizeOf(sent[eid := kept], eid, size);
    assert sent[eid := kept] - {eid} == sent;
  }

  /** What part of a map of sends weighs. */
  lemma {:induction false} PartSize(part: Batches, sent: Batches, size: Message -> nat)
    requires forall eid :: eid in part ==> eid in sent && part[eid] == sent[eid]
    ensures SentSize(part, size) <= SentSize(sent, size)
    decreases |part|
  {
    if part != map[] {
      var eid :| eid in part;
      SentSizeOf(part, eid, size);
      SentSizeOf(sent, eid, size);
      PartSize(part - {eid}, sent - {eid}, size);
    }
  }

  // ---------- what is due ----------

  /** Messages the other device lacks or has differently, newest first. */
  function Due(t: Thread, theirs: Digest): seq<Message> {
    Reverse(Select(t, Differing(DigestOf(t), theirs)))
  }

  type Conversations = map<string, Thread>
  type Lists = map<string, Digest>

  function AllDue(threads: Conversations, lists: Lists): Batches {
    map eid | eid in lists && eid in threads && Due(threads[eid], lists[eid]) != [] :: Due(threads[eid], lists[eid])
  }

  function AllWanted(threads: Conversations, lists: Lists): map<string, set<SyncKey>> {
    map eid | eid in lists && eid in threads && Differing(lists[eid], DigestOf(threads[eid])) != {}
      :: Differing(lists[eid], DigestOf(threads[eid]))
  }

  lemma {:induction false} SelectNothing(t: Thread, keys: set<SyncKey>)
    ensures Select(t, keys) == [] <==> forall i :: 0 <= i < |t| ==> KeyOf(t[i]) !in keys
  {
    if t != [] {
      SelectNothing(t[1..], keys);
      assert forall i :: 1 <= i < |t| ==> t[i] == t[1..][i - 1];
    }
  }

  /** Something is due exactly when the digests differ on a key of ours. */
  lemma DueExactly(t: Thread, theirs: Digest)
    ensures Due(t, theirs) == [] <==> Differing(DigestOf(t), theirs) == {}
  {
    var keys := Differing(DigestOf(t), theirs);
    SelectNothing(t, keys);
    assert |Due(t, theirs)| == |Select(t, keys)|;
    if keys != {} {
      var k :| k in keys;
      var e :| e in DigestOf(t) && e.0 == k;
      var i :| 0 <= i < |DigestOf(t)| && DigestOf(t)[i] == e;
      var w := Newest(t, SYNC_WINDOW);
      assert KeyOf(w[i]) == k && w[i] in t;
      var j :| 0 <= j < |t| && t[j] == w[i];
    }
  }

  // ---------- the cut ----------

  /** Take messages while the budget lasts; the first that does not fit ends it. */
  method TakeFront(msgs: seq<Message>, size: Message -> nat, budget: nat) returns (kept: seq<Message>, left: nat)
    ensures (kept, left) == TakeWithin(msgs, size, budget)
  {
    kept, left := [], budget;
    assert msgs[0..] == msgs;
    for i := 0 to |msgs|
      invariant TakeWithin(msgs, size, budget).0 == kept + TakeWithin(msgs[i..], size, left).0
      invariant TakeWithin(msgs, size, budget).1 == TakeWithin(msgs[i..], size, left).1
    {
      var m := msgs[i];
      assert msgs[i..][0] == m && msgs[i..][1..] == msgs[i + 1..];
      if size(m) > left {
        assert TakeWithin(msgs[i..], size, left) == ([], 0);
        assert kept + [] == kept;
        left := 0;
        return;
      }
      left := left - size(m);
      kept := kept + [m];
    }
    assert msgs[|msgs|..] == [] && kept + [] == kept;
  }

  /** A cut list ends the budget; a whole one spends exactly its size. */
  lemma {:induction false} CutEndsBudget(s: seq<Message>, size: Message -> nat, budget: nat)
    ensures var r := TakeWithin(s, size, budget);
            if r.0 == s then TotalSize(s, size) + r.1 == budget else r.1 == 0 && TotalSize(s, size) > budget
  {
    if s != [] && size(s[0]) <= budget {
      CutEndsBudget(s[1..], size, budget - size(s[0]));
      assert s == [s[0]] + s[1..];
    }
  }

  /** The sends `sent` are newest-first cuts of what is due, one of them at most cut short. */
  ghost predicate NewestFirst(sent: Batches, due: Batches) {
    && (forall eid :: eid in sent ==> eid in due && sent[eid] <= due[eid])
    && (forall d, e :: d in sent && e in sent && sent[d] != due[d] && sent[e] != due[e] ==> d == e)
  }

  /** Every due message fits the budget on its own. */
  ghost predicate EachFits(due: Batches, size: Message -> nat) {
    forall eid, i :: eid in due && 0 <= i < |due[eid]| ==> size(due[eid][i]) <= MSG_BUDGET
  }

  ghost predicate MovesSomething(sent: Batches) {
    exists eid :: eid in sent && sent[eid] != []
  }

  /** Where a walk over the conversations in `done` stands. */
  ghost predicate Walked(sent: Batches, due: Batches, budget: nat, size: Message -> nat) {
    && NewestFirst(sent, due)
    && SentSize(sent, size) + budget <= MSG_BUDGET
    && (budget == 0 ==> SentSize(due, size) >= MSG_BUDGET)
    && (budget > 0 ==>
          SentSize(sent, size) + budget == MSG_BUDGET && forall eid :: eid in sent ==> sent[eid] == due[eid])
  }

  /** Where it stands with `todo` conversations to go. */
  ghost predicate Underway(sent: Batches, due: Batches, budget: nat, todo: set<string>, size: Message -> nat) {
    && Walked(sent, due, budget, size) && sent.Keys !! todo
    && (budget > 0 ==> sent.Keys == due.Keys - todo)
    && (EachFits(due, size) ==> MovesSomething(sent) || (budget == MSG_BUDGET && sent == map[]))
  }

  lemma WalkStep(sent: Batches, due: Batches, budget: nat, eid: string, size: Message -> nat)
    requires Walked(sent, due, budget, size) && eid in due && eid !in sent && budget > 0
    ensures var (kept, left) := TakeWithin(due[eid], size, budget); Walked(sent[eid := kept], due, left, size)
  {
    var (kept, left) := TakeWithin(due[eid], size, budget);
    TakenIsNewest(due[eid], size, budget);
    CutEndsBudget(due[eid], size, budget);
    SentSizeGrows(sent, eid, kept, size);
    SentSizeGrows(sent, eid, due[eid], size);
    PartSize(sent[eid := due[eid]], due, size);
  }

  lemma TakeStep(sent: Batches, due: Batches, budget: nat, todo: set<string>, eid: string, size: Message -> nat)
    requires Underway(sent, due, budget, todo, size) && eid in due && eid in todo && budget > 0 && due[eid] != []
    ensures var (kept, left) := TakeWithin(due[eid], size, budget);
            Underway(sent[eid := kept], due, left, todo - {eid}, size)
  {
    var (kept, left) := TakeWithin(due[eid], size, budget);
    WalkStep(sent, due, budget, eid, size);
    TakenIsNewest(due[eid], size, budget);
    var next := sent[eid := kept];
    if EachFits(due, size) {
      if MovesSomething(sent) {
        var e :| e in sent && sent[e] != [];
        assert e in next && next[e] != [];
      } else {
        assert eid in next && next[eid] != [];
      }
    }
  }

  lemma SkipStep(sent: Batches, due: Batches, budget: nat, todo: set<string>, eid: string, size: Message -> nat)
    requires Underway(sent, due, budget, todo, size) && (eid !in due || budget == 0)
    ensures Underway(sent, due, budget, todo - {eid}, size)
  {
  }

  lemma WalkDone(sent: Batches, due: Batches, budget: nat, size: Message -> nat)
    requires Underway(sent, due, budget, {}, size)
    ensures NewestFirst(sent, due) && SentSize(sent, size) <= MSG_BUDGET
    ensures due != map[] && EachFits(due, size) ==> MovesSomething(sent)
    ensures SentSize(due, size) < MSG_BUDGET ==> sent == due
  {
  }

  /** What is asked for, with `todo` conversations to go. */
  ghost predicate Asked(want: map<string, set<SyncKey>>, wanted: map<string, set<SyncKey>>, todo: set<string>) {
    && (forall eid :: eid in want <==> eid in wanted && eid !in todo)
    && (forall eid :: eid in want ==> want[eid] == wanted[eid])
  }

  lemma AskStep(want: map<string, set<SyncKey>>, wanted: map<string, set<SyncKey>>, todo: set<string>, eid: string)
    requires Asked(want, wanted, todo) && eid in todo
    ensures Asked(if eid in wanted then want[eid := wanted[eid]] else want, wanted, todo - {eid})
  {
  }

  /** What the walk finds for one conversation. */
  lemma LooksUp(threads: Conversations, lists: Lists, eid: string)
    requires eid in lists
    ensures eid !in threads ==> eid !in AllDue(threads, lists) && eid !in AllWanted(threads, lists)
    ensures eid in threads ==>
              var (mine, theirs) := (DigestOf(threads[eid]), lists[eid]);
              && (eid in AllDue(threads, lists) <==> Differing(mine, theirs) != {})
              && (eid in AllDue(threads, lists) ==> AllDue(threads, lists)[eid] == Due(threads[eid], theirs) != [])
              && (eid in AllWanted(threads, lists) <==> Differing(theirs, mine) != {})
              && (eid in AllWanted(threads, lists) ==> AllWanted(threads, lists)[eid] == Differing(theirs, mine))
  {
    if eid in threads { DueExactly(threads[eid], lists[eid]); }
  }

  // ---------- the two planners ----------

  /**
    The messages to send and the keys to ask for, given the other side's lists; the
    conversations come in any order.
  */
  method Plan(threads: Conversations, lists: Lists, size: Message -> nat)
    returns (send: Batches, want: map<string, set<SyncKey>>)
    ensures want == AllWanted(threads, lists)
    ensures NewestFirst(send, AllDue(threads, lists)) && SentSize(send, size) <= MSG_BUDGET
    ensures AllDue(threads, lists) != map[] && EachFits(AllDue(threads, lists), size) ==> MovesSomething(send)
    ensures SentSize(AllDue(threads, lists), size) < MSG_BUDGET ==> send == AllDue(threads, lists)
  {
    ghost var due := AllDue(threads, lists);
    send, want := map[], map[];
    var todo, budget := lists.Keys, MSG_BUDGET;
    assert SentSize(send, size) == 0;
    while todo != {}
      invariant todo <= lists.Keys
      invariant Asked(want, AllWanted(threads, lists), todo)
      invariant Underway(send, due, budget, todo, size)
    {
      var eid :| eid in todo;
      LooksUp(threads, lists, eid);
      AskStep(want, AllWanted(threads, lists), todo, eid);
      if eid !in threads {
        SkipStep(send, due, budget, todo, eid, size);
      } else {
        var inKeys := Differing(lists[eid], DigestOf(threads[eid]));
        if inKeys != {} {
          want := want[eid := inKeys];
        }
        var outKeys := Differing(DigestOf(threads[eid]), lists[eid]);
        if outKeys == {} || budget == 0 {
          SkipStep(send, due, budget, todo, eid, size);
        } else {
          var msgs := Reverse(Select(threads[eid], outKeys));
          TakeStep(send, due, budget, todo, eid, size);
          var kept;
          kept, budget := TakeFront(msgs, size, budget);
          send := send[eid := kept];
        }
      }
      todo := todo - {eid};
    }
    WalkDone(send, due, budget, size);
  }

  // ---------- answering a request ----------

  type Wants = map<string, set<SyncKey>>

  function AllAsked(threads: Conversations, wants: Wants): Batches {
    map eid | eid in wants && eid in threads :: Reverse(Select(threads[eid], wants[eid]))
  }

  /** Where an answer stands with `todo` requests to go: once the budget is out, lists stay cut. */
  ghost predicate Answered(sent: Batches, due: Batches, budget: nat, todo: set<string>, size: Message -> nat) {
    && sent.Keys == due.Keys - todo
    && (forall eid :: eid in sent ==> sent[eid] <= due[eid])
    && SentSize(sent, size) + budget <= MSG_BUDGET
    && (SentSize(due, size) <= MSG_BUDGET ==>
          SentSize(sent, size) + budget == MSG_BUDGET && forall eid :: eid in sent ==> sent[eid] == due[eid])
    && (EachFits(due, size) && !MovesSomething(sent) ==>
          budget == MSG_BUDGET && forall eid :: eid in sent ==> due[eid] == [])
  }

  lemma AnswerStep(sent: Batches, due: Batches, budget: nat, todo: set<string>, eid: string, size: Message -> nat)
    requires Answered(sent, due, budget, todo, size) && eid in due && eid in todo
    ensures var (kept, left) := TakeWithin(due[eid], size, budget);
            Answered(sent[eid := kept], due, left, todo - {eid}, size)
  {
    var (kept, left) := TakeWithin(due[eid], size, budget);
    TakenIsNewest(due[eid], size, budget);
    CutEndsBudget(due[eid], size, budget);
    SentSizeGrows(sent, eid, kept, size);
    SentSizeGrows(sent, eid, due[eid], size);
    if SentSize(due, size) <= MSG_BUDGET {
      PartSize(sent[eid := due[eid]], due, size);
    }
    if EachFits(due, size) { AnswerMoves(sent, due, budget, eid, size); }
  }

  lemma AnswerMoves(sent: Batches, due: Batches, budget: nat, eid: string, size: Message -> nat)
    requires eid in due && eid !in sent && EachFits(due, size)
    requires !MovesSomething(sent) ==> budget == MSG_BUDGET
    ensures var (kept, left) := TakeWithin(due[eid], size, budget);
            !MovesSomething(sent[eid := kept]) ==> !MovesSomething(sent) && due[eid] == [] && left == budget
  {
    var (kept, left) := TakeWithin(due[eid], size, budget);
    var next := sent[eid := kept];
    TakenIsNewest(due[eid], size, budget);
    if MovesSomething(sent) {
      var e :| e in sent && sent[e] != [];
      assert e in next && next[e] != [];
    } else if kept != [] {
      assert eid in next && next[eid] != [];
    }
  }

  /** The messages asked for, newest first, within the budget. */
  method WantedMessages(threads: Conversations, wants: Wants, size: Message -> nat) returns (send: Batches)
    ensures send.Keys == AllAsked(threads, wants).Keys && SentSize(send, size) <= MSG_BUDGET
    ensures forall eid :: eid in send ==> send[eid] <= AllAsked(threads, wants)[eid]
    ensures EachFits(AllAsked(threads, wants), size) && MovesSomething(AllAsked(threads, wants)) ==>
              MovesSomething(send)
    ensures SentSize(AllAsked(threads, wants), size) <= MSG_BUDGET ==> send == AllAsked(threads, wants)
  {
    ghost var due := AllAsked(threads, wants);
    send := map[];
    var todo, budget := wants.Keys, MSG_BUDGET;
    assert SentSize(send, size) == 0;
    while todo != {}
      invariant todo <= wants.Keys
      invariant Answered(send, due, budget, todo, size)
    {
      var eid :| eid in todo;
      if eid in threads {
        var msgs := Reverse(Select(threads[eid], wants[eid]));
        assert eid in due && due[eid] == msgs;
        AnswerStep(send, due, budget, todo, eid, size);
        var kept;
        kept, budget := TakeFront(msgs, size, budget);
        send := send[eid := kept];
      }
      todo := todo - {eid};
    }
    AnswerDone(send, due, budget, size);
  }

  lemma AnswerDone(sent: Batches, due: Batches, budget: nat, size: Message -> nat)
    requires Answered(sent, due, budget, {}, size)
    ensures sent.Keys == due.Keys && SentSize(sent, size) <= MSG_BUDGET
    ensures forall eid :: eid in sent ==> sent[eid] <= due[eid]
    ensures EachFits(due, size) && MovesSomething(due) ==> MovesSomething(sent)
    ensures SentSize(due, size) <= MSG_BUDGET ==> sent == due
  {
  }
}
