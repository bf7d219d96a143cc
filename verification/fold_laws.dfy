/** What folding one of this device's threads into another leaves, message by message. */
module FoldLaws {
  import opened Common
  import opened Messages
  import opened Threads
  import opened Slotting

  /** A moved message as it was, with a number of this thread. */
  ghost predicate MovedAs(m: Message, p: Message) {
    p == m.(order := p.order)
  }

  ghost predicate FromEither(t: Thread, moving: seq<Message>, p: Message) {
    p in t || exists m :: m in moving && !Holds(t, KeyOf(m)) && MovedAs(m, p)
  }

  /** A full thread that all sorts after `p`. */
  ghost predicate PushedOut(r: Thread, p: Message) {
    |r| == MAX_PER_PEER && forall y :: y in r ==> KeyLeq(p, y)
  }

  /** Nothing of either thread is lost but what a full thread has no place for, and nothing else is there. */
  ghost predicate FoldedWell(t: Thread, moving: seq<Message>, r: Thread) {
    && (forall p :: p in r ==> FromEither(t, moving, p))
    && (forall x :: x in t ==> x in r || PushedOut(r, x))
    && (forall m :: m in moving && !Holds(t, KeyOf(m)) ==> ArrivesIn(r, m))
  }

  ghost predicate ArrivesIn(r: Thread, m: Message) {
    exists p: Message :: MovedAs(m, p) && (p in r || PushedOut(r, p))
  }

  lemma FoldOneHas(t: Thread, m: Message)
    ensures forall x :: x in t ==> x in FoldOne(t, m)
    ensures forall p :: p in FoldOne(t, m) ==> p in t || (!Holds(t, KeyOf(m)) && MovedAs(m, p))
    ensures Holds(t, KeyOf(m)) || exists p :: p in FoldOne(t, m) && MovedAs(m, p)
    ensures |FoldOne(t, m)| == if Holds(t, KeyOf(m)) then |t| else |t| + 1
  {
    if !Holds(t, KeyOf(m)) {
      var p := FoldOne(t, m)[|t|];
      assert p in FoldOne(t, m) && MovedAs(m, p);
    }
  }

  lemma HeldAfter(t: Thread, m: Message, k: SyncKey)
    ensures Holds(FoldOne(t, m), k) <==> Holds(t, k) || KeyOf(m) == k
  {
    FoldOneHas(t, m);
    if Holds(t, k) {
      var x :| x in t && KeyOf(x) == k;
      assert x in FoldOne(t, m);
    }
  }

  lemma KeysOfMore(moving: seq<Message>)
    requires moving != []
    ensures var init, last := moving[..|moving| - 1], moving[|moving| - 1];
            moving == init + [last] && KeySet(moving) == KeySet(init) + {KeyOf(last)}
  {
    var init, last := moving[..|moving| - 1], moving[|moving| - 1];
    assert moving == init + [last];
  }

  lemma HoldsIsKey(t: Thread, k: SyncKey)
    ensures Holds(t, k) <==> k in KeySet(t)
  {
  }

  lemma KeysAfter(t: Thread, m: Message)
    ensures KeySet(FoldOne(t, m)) == KeySet(t) + {KeyOf(m)}
  {
    forall k ensures k in KeySet(FoldOne(t, m)) <==> k in KeySet(t) + {KeyOf(m)} {
      HeldAfter(t, m, k);
      HoldsIsKey(t, k);
      HoldsIsKey(FoldOne(t, m), k);
    }
  }

  lemma {:induction false} FoldAllKeys(t: Thread, moving: seq<Message>)
    ensures KeySet(FoldAll(t, moving)) == KeySet(t) + KeySet(moving)
  {
    if moving != [] {
      FoldAllKeys(t, moving[..|moving| - 1]);
      KeysOfMore(moving);
      KeysAfter(FoldAll(t, moving[..|moving| - 1]), moving[|moving| - 1]);
    }
  }

  lemma OneMoreKey(mine: set<SyncKey>, theirs: set<SyncKey>, k: SyncKey)
    ensures |(theirs + {k}) - mine| == if k in mine + theirs then |theirs - mine| else |theirs - mine| + 1
  {
    assert (theirs + {k}) - mine == if k in mine + theirs then theirs - mine else (theirs - mine) + {k};
  }

  /** As many messages come as the source has alone. */
  lemma {:induction false} FoldAllSize(t: Thread, moving: seq<Message>)
    ensures |FoldAll(t, moving)| == |t| + |KeySet(moving) - KeySet(t)|
  {
    if moving == [] {
      assert KeySet(moving) - KeySet(t) == {};
    } else {
      var init, m := moving[..|moving| - 1], moving[|moving| - 1];
      FoldAllSize(t, init);
      FoldAllKeys(t, init);
      KeysOfMore(moving);
      FoldOneHas(FoldAll(t, init), m);
      HoldsIsKey(FoldAll(t, init), KeyOf(m));
      OneMoreKey(KeySet(t), KeySet(init), KeyOf(m));
    }
  }

  /** The messages both have stay this thread's. */
  lemma {:induction false} FoldAllHas(t: Thread, moving: seq<Message>)
    ensures var r := FoldAll(t, moving);
            (forall x :: x in t ==> x in r) && (forall p :: p in r ==> FromEither(t, moving, p))
  {
    if moving != [] {
      var init, m := moving[..|moving| - 1], moving[|moving| - 1];
      var r := FoldAll(t, init);
      FoldAllHas(t, init);
      FoldOneHas(r, m);
      assert moving == init + [m];
      forall p | p in FoldOne(r, m) ensures FromEither(t, moving, p) {
        if p in r {
          FromMore(t, init, m, p);
        } else {
          StillAbsent(t, r, m);
        }
      }
    }
  }

  lemma StillAbsent(t: Thread, r: Thread, m: Message)
    requires (forall x :: x in t ==> x in r) && !Holds(r, KeyOf(m))
    ensures !Holds(t, KeyOf(m))
  {
  }

  lemma FromMore(t: Thread, init: seq<Message>, m: Message, p: Message)
    requires FromEither(t, init, p)
    ensures FromEither(t, init + [m], p)
  {
    if p !in t {
      var x :| x in init && !Holds(t, KeyOf(x)) && MovedAs(x, p);
      assert x in init + [m];
    }
  }

  /** What the bound cuts off sorts before all that is kept. */
  lemma CutSortsFirst(r: Thread, x: Message)
    requires x in r
    ensures x in Trim(Sort(r)) || PushedOut(Trim(Sort(r)), x)
  {
    var s, kept := Sort(r), Trim(Sort(r));
    SortIsSorted(r);
    SortKeepsElements(r);
    var i :| 0 <= i < |s| && s[i] == x;
    if |s| > MAX_PER_PEER && i < |s| - MAX_PER_PEER {
      forall y | y in kept ensures KeyLeq(x, y) {
        var j :| 0 <= j < |kept| && kept[j] == y;
        assert s[|s| - MAX_PER_PEER + j] == y;
      }
    } else if |s| > MAX_PER_PEER {
      assert kept[i - (|s| - MAX_PER_PEER)] == x;
    }
  }

  lemma ArrivedInAll(t: Thread, moving: seq<Message>, m: Message) returns (p: Message)
    requires UniqueKeys(moving) && m in moving && !Holds(t, KeyOf(m))
    ensures p in FoldAll(t, moving) && MovedAs(m, p)
  {
    FoldAllHas(t, moving);
    FoldAllKeys(t, moving);
    assert KeyOf(m) in KeySet(FoldAll(t, moving));
    p :| p in FoldAll(t, moving) && KeyOf(p) == KeyOf(m);
    assert FromEither(t, moving, p);
    assert p !in t;
    var x :| x in moving && !Holds(t, KeyOf(x)) && MovedAs(x, p);
    assert KeyOf(x) == KeyOf(m);
  }

  /** The folded thread holds both, whatever else a full thread cannot. */
  lemma FoldIsWell(t: Thread, moving: seq<Message>)
    requires UniqueKeys(moving)
    ensures FoldedWell(t, moving, FoldInto(t, moving))
  {
    var all, r := FoldAll(t, moving), FoldInto(t, moving);
    FoldAllHas(t, moving);
    SortKeepsElements(all);
    assert forall p :: p in r ==> p in all;
    forall x | x in t ensures x in r || PushedOut(r, x) {
      CutSortsFirst(all, x);
    }
    forall m | m in moving && !Holds(t, KeyOf(m)) ensures ArrivesIn(r, m) {
      var p := ArrivedInAll(t, moving, m);
      CutSortsFirst(all, p);
    }
  }
}
