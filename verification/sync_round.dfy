/** One round of account sync between two own devices, over every conversation both know. */
module SyncRound {
  import opened Common
  import opened Messages
  import opened Threads
  import opened Slotting
  import opened Exchange
  import opened Window
  import opened OneExchange
  import opened Planning
  import opened ChatStore

  /** The thread of each known friend. */
  function Known(threads: map<string, Thread>, friends: set<string>): Conversations {
    map eid | eid in friends :: At(threads, eid)
  }

  /** Digests stand for their hashes, which are taken to be injective. */
  function Summaries(c: Conversations): Lists {
    map eid | eid in c && DigestOf(c[eid]) != [] :: DigestOf(c[eid])
  }

  function Lookup(l: Lists, eid: string): Option<Digest> {
    if eid in l then Some(l[eid]) else None
  }

  /** The lists of the conversations whose summary differs from theirs. */
  function Differs(mine: Conversations, theirs: Lists): Lists {
    map eid | eid in mine && Lookup(Summaries(mine), eid) != Lookup(theirs, eid) :: DigestOf(mine[eid])
  }

  method DifferingLists(mine: Conversations, theirs: Lists) returns (lists: Lists)
    ensures lists == Differs(mine, theirs)
  {
    var ours := Summaries(mine);
    lists := map[];
    ghost var all := ours.Keys + theirs.Keys;
    var todo := ours.Keys + theirs.Keys;
    while todo != {}
      invariant todo <= all
      invariant forall eid :: eid in lists <==> eid in Differs(mine, theirs) && eid !in todo
      invariant forall eid :: eid in lists ==> lists[eid] == DigestOf(mine[eid])
    {
      var eid :| eid in todo;
      todo := todo - {eid};
      if Lookup(ours, eid) != Lookup(theirs, eid) && eid in mine {
        lists := lists[eid := DigestOf(mine[eid])];
      }
    }
  }

  // ---------- what a round comes to ----------

  function Merged(c: Conversations, batches: map<string, seq<Message>>): Conversations {
    map eid | eid in c :: if eid in batches then MergeSynced(c[eid], batches[eid]) else c[eid]
  }

  function SentOut(a: Conversations, b: Conversations): map<string, seq<Message>> {
    AllDue(a, Differs(b, Summaries(a)))
  }

  function SentBack(a: Conversations, b: Conversations): map<string, seq<Message>> {
    AllAsked(Merged(b, SentOut(a, b)), AllWanted(a, Differs(b, Summaries(a))))
  }

  /** Both directions fit the budget. */
  ghost predicate Room(a: Conversations, b: Conversations, size: Message -> nat) {
    SentSize(SentOut(a, b), size) < MSG_BUDGET && SentSize(SentBack(a, b), size) <= MSG_BUDGET
  }

  /** Nothing to merge leaves a valid thread as it is. */
  lemma MergeNothing(t: Thread)
    requires ValidThread(t)
    ensures MergeSynced(t, []) == t
  {
    SortedIsFixed(t);
  }

  /** A round with room runs, conversation by conversation, the exchange of that conversation. */
  lemma RoundIsExchanges(a: Conversations, b: Conversations, eid: string)
    requires eid in a && eid in b && ValidThread(a[eid]) && ValidThread(b[eid])
    ensures (Merged(a, SentBack(a, b))[eid], Merged(b, SentOut(a, b))[eid]) == Exchanged(a[eid], b[eid])
  {
    var x, y := a[eid], b[eid];
    var lists := Differs(b, Summaries(a));
    assert eid in lists <==> DigestOf(x) != DigestOf(y);
    if eid in lists {
      assert lists[eid] == DigestOf(y);
      LooksUp(a, lists, eid);
      MergeNothing(x);
      MergeNothing(y);
      AskedBack(a, b, eid);
    }
  }

  lemma AskedBack(a: Conversations, b: Conversations, eid: string)
    requires eid in a && eid in b && eid in Differs(b, Summaries(a)) && ValidThread(b[eid])
    ensures var keys := Differing(DigestOf(b[eid]), DigestOf(a[eid]));
            && (eid in SentBack(a, b) <==> keys != {})
            && (eid in SentBack(a, b) ==>
                  SentBack(a, b)[eid] == Reverse(Select(Merged(b, SentOut(a, b))[eid], keys)))
            && (keys == {} ==> Reverse(Select(Merged(b, SentOut(a, b))[eid], keys)) == [])
  {
    var lists := Differs(b, Summaries(a));
    LooksUp(a, lists, eid);
    SelectNothing(Merged(b, SentOut(a, b))[eid], {});
  }

  /** So after a round with room the newest messages of every such conversation are the same on both. */
  lemma RoundConverges(a: Conversations, b: Conversations, eid: string, times: Timetable)
    requires eid in a && eid in b && Pair(a[eid], b[eid], times)
    ensures var (x, y) := (Merged(a, SentBack(a, b))[eid], Merged(b, SentOut(a, b))[eid]);
            ListedAlike(Newest(x, SYNC_WINDOW), Newest(y, SYNC_WINDOW))
  {
    RoundIsExchanges(a, b, eid);
    ExchangeConverges(a[eid], b[eid], times);
  }

  // ---------- the round itself ----------

  /** How the threads stand with the batches in `todo` still to merge. */
  ghost predicate Merging(threads: map<string, Thread>, was: map<string, Thread>, friends: set<string>,
                          batches: map<string, seq<Message>>, todo: set<string>) {
    forall eid :: At(threads, eid) ==
      if eid in friends && eid in batches && eid !in todo then MergeSynced(At(was, eid), batches[eid]) else At(was, eid)
  }

  lemma MergingStep(threads: map<string, Thread>, was: map<string, Thread>, friends: set<string>,
                    batches: map<string, seq<Message>>, todo: set<string>, eid: string)
    requires Merging(threads, was, friends, batches, todo) && eid in todo && eid in friends && eid in batches
    requires AllValid(was)
    ensures At(threads, eid) == At(was, eid) && ValidThread(At(threads, eid))
    ensures Merging(threads[eid := MergeSynced(At(was, eid), batches[eid])], was, friends, batches, todo - {eid})
  {
    EmptyIsValid();
  }

  lemma MergingDone(threads: map<string, Thread>, was: map<string, Thread>, friends: set<string>,
                    batches: map<string, seq<Message>>)
    requires Merging(threads, was, friends, batches, {})
    ensures Known(threads, friends) == Merged(Known(was, friends), batches)
  {
  }

  /** Merge the batches of the friends this device knows, in any order. */
  method ApplyMessages(store: Store, friends: set<string>, batches: map<string, seq<Message>>)
    requires AllValid(store.threads)
    modifies store
    ensures Merging(store.threads, old(store.threads), friends, batches, {})
    ensures Known(store.threads, friends) == Merged(old(Known(store.threads, friends)), batches)
  {
    ghost var was := store.threads;
    var todo := batches.Keys;
    while todo != {}
      invariant todo <= batches.Keys
      invariant Merging(store.threads, was, friends, batches, todo)
    {
      var eid :| eid in todo;
      if eid in friends {
        MergingStep(store.threads, was, friends, batches, todo, eid);
        var tally := store.MergeBatch(eid, batches[eid]);
      }
      todo := todo - {eid};
    }
    MergingDone(store.threads, was, friends, batches);
  }

  /**
    Summaries one way, lists back, messages and a request, and the answer. Nothing past the
    budget is sent either way; with room, everything that differs is exchanged.
  */
  method ExchangeChats(a: Store, b: Store, friendsA: set<string>, friendsB: set<string>, size: Message -> nat)
    requires a != b && AllValid(a.threads) && AllValid(b.threads)
    modifies a, b
    ensures var (x, y) := (old(Known(a.threads, friendsA)), old(Known(b.threads, friendsB)));
            Room(x, y, size) ==>
              && Known(a.threads, friendsA) == Merged(x, SentBack(x, y))
              && Known(b.threads, friendsB) == Merged(y, SentOut(x, y))
  {
    ghost var x, y := Known(a.threads, friendsA), Known(b.threads, friendsB);
    var lists := DifferingLists(Known(b.threads, friendsB), Summaries(Known(a.threads, friendsA)));
    var send, want := Plan(Known(a.threads, friendsA), lists, size);
    ApplyMessages(b, friendsB, send);
    var answer := WantedMessages(Known(b.threads, friendsB), want, size);
    ApplyMessages(a, friendsA, answer);
  }
}
