/**
  Link and removal times travel between devices and merge by maximum. A decision
  stamped past everything its author had seen decides the state wherever it arrives.
 */
module Decisions {
  import opened Common
  import opened Vouchers
  import opened Ledger
  import opened MergeProofs
  import opened BookOps

  /** One accepted voucher or removal, with the receiver's clock when it came. */
  datatype News =
    | LinkNews(now: U64, e: Entry)
    | RemovalNews(now: U64, d: Device, s: Stamp)

  function Receive(b: BookState, n: News): BookState {
    match n
    case LinkNews(now, e) => Accept(b, now, e)
    case RemovalNews(now, d, s) => AcceptRemoval(b, now, d, s)
  }

  function ReceiveAll(b: BookState, news: seq<News>): BookState {
    if news == [] then b
    else Receive(ReceiveAll(b, news[..|news| - 1]), news[|news| - 1])
  }

  predicate LinksAt(n: News, d: Device, t: U64) {
    n.LinkNews? && n.e.eid == d && Clamp(n.now, n.e.stamp.at) == t
  }

  predicate RemovesAt(n: News, d: Device, t: U64) {
    n.RemovalNews? && n.d == d && Clamp(n.now, n.s.at) == t
  }

  /** No link of `d` known to `b` or carried by `news` is past `t`. */
  ghost predicate LinksUpTo(b: BookState, news: seq<News>, d: Device, t: nat) {
    && TimeOf(b.linked, d) <= t
    && forall i :: 0 <= i < |news| && news[i].LinkNews? && news[i].e.eid == d ==>
         Clamp(news[i].now, news[i].e.stamp.at) <= t
  }

  /** Every removal of `d` known to `b` or carried by `news` is before `t`. */
  ghost predicate RemovalsBefore(b: BookState, news: seq<News>, d: Device, t: nat) {
    && (d in b.removedDevices ==> b.removedDevices[d] < t)
    && forall i :: 0 <= i < |news| && news[i].RemovalNews? && news[i].d == d ==>
         Clamp(news[i].now, news[i].s.at) < t
  }

  /** One piece of news moves the two times of `d` by maximum, and only one of them. */
  lemma ReceivedTimes(b: BookState, n: News, d: Device)
    ensures var r := Receive(b, n);
            && TimeOf(r.linked, d) == (if n.LinkNews? && n.e.eid == d
                 then Max(TimeOf(b.linked, d), Clamp(n.now, n.e.stamp.at)) else TimeOf(b.linked, d))
            && (d in r.removedDevices <==> d in b.removedDevices || (n.RemovalNews? && n.d == d))
            && TimeOf(r.removedDevices, d) == (if n.RemovalNews? && n.d == d
                 then Max(TimeOf(b.removedDevices, d), Clamp(n.now, n.s.at)) else TimeOf(b.removedDevices, d))
  {
    if n.LinkNews? { AcceptLists(b, n.now, n.e); }
  }

  lemma {:induction false} LatestLinkKept(b: BookState, news: seq<News>, d: Device, t: U64, i: nat)
    requires i < |news| && LinksAt(news[i], d, t)
    ensures TimeOf(ReceiveAll(b, news).linked, d) >= t
  {
    ReceivedTimes(ReceiveAll(b, news[..|news| - 1]), news[|news| - 1], d);
    if i < |news| - 1 {
      LatestLinkKept(b, news[..|news| - 1], d, t, i);
    }
  }

  lemma {:induction false} LatestRemovalKept(b: BookState, news: seq<News>, d: Device, t: U64, i: nat)
    requires i < |news| && RemovesAt(news[i], d, t)
    ensures d in ReceiveAll(b, news).removedDevices && ReceiveAll(b, news).removedDevices[d] >= t
  {
    ReceivedTimes(ReceiveAll(b, news[..|news| - 1]), news[|news| - 1], d);
    if i < |news| - 1 {
      LatestRemovalKept(b, news[..|news| - 1], d, t, i);
    }
  }

  lemma {:induction false} LinksStayUpTo(b: BookState, news: seq<News>, d: Device, t: nat)
    requires LinksUpTo(b, news, d, t)
    ensures TimeOf(ReceiveAll(b, news).linked, d) <= t
  {
    if news != [] {
      ReceivedTimes(ReceiveAll(b, news[..|news| - 1]), news[|news| - 1], d);
      LinksStayUpTo(b, news[..|news| - 1], d, t);
    }
  }

  lemma {:induction false} RemovalsStayBefore(b: BookState, news: seq<News>, d: Device, t: nat)
    requires RemovalsBefore(b, news, d, t)
    ensures d in ReceiveAll(b, news).removedDevices ==> ReceiveAll(b, news).removedDevices[d] < t
  {
    if news != [] {
      ReceivedTimes(ReceiveAll(b, news[..|news| - 1]), news[|news| - 1], d);
      RemovalsStayBefore(b, news[..|news| - 1], d, t);
    }
  }

  ghost predicate RemovalHeard(b: BookState, news: seq<News>, d: Device, t: U64) {
    (d in b.removedDevices && b.removedDevices[d] == t) || exists i :: 0 <= i < |news| && RemovesAt(news[i], d, t)
  }

  ghost predicate LinkHeard(b: BookState, news: seq<News>, d: Device, t: U64) {
    (d in b.linked && b.linked[d] == t) || exists i :: 0 <= i < |news| && LinksAt(news[i], d, t)
  }

  /** The removal kept for `d` is the latest known or heard, as the clamp lets it in. */
  ghost predicate KeepsRemoval(b: BookState, news: seq<News>, d: Device, r: BookState) {
    && (forall t: U64 :: RemovalHeard(b, news, d, t) ==> d in r.removedDevices && t <= r.removedDevices[d])
    && (d in r.removedDevices ==> RemovalHeard(b, news, d, r.removedDevices[d]))
  }

  /** So is the link. */
  ghost predicate KeepsLink(b: BookState, news: seq<News>, d: Device, r: BookState) {
    && (forall t: U64 :: LinkHeard(b, news, d, t) ==> t <= TimeOf(r.linked, d))
    && (TimeOf(r.linked, d) > 0 ==> LinkHeard(b, news, d, TimeOf(r.linked, d)))
  }

  lemma HeardMore(b: BookState, news: seq<News>, n: News, d: Device, t: U64)
    ensures RemovalHeard(b, news + [n], d, t) <==> RemovalHeard(b, news, d, t) || RemovesAt(n, d, t)
    ensures LinkHeard(b, news + [n], d, t) <==> LinkHeard(b, news, d, t) || LinksAt(n, d, t)
  {
    var all := news + [n];
    assert all[|news|] == n;
    if i :| 0 <= i < |news| && RemovesAt(news[i], d, t) { assert RemovesAt(all[i], d, t); }
    if i :| 0 <= i < |news| && LinksAt(news[i], d, t) { assert LinksAt(all[i], d, t); }
  }

  lemma HeardStep(b: BookState, news: seq<News>, d: Device)
    requires news != []
    ensures var init, n := news[..|news| - 1], news[|news| - 1];
            && (forall t: U64 :: RemovalHeard(b, news, d, t) <==> RemovalHeard(b, init, d, t) || RemovesAt(n, d, t))
            && (forall t: U64 :: LinkHeard(b, news, d, t) <==> LinkHeard(b, init, d, t) || LinksAt(n, d, t))
  {
    var init, n := news[..|news| - 1], news[|news| - 1];
    assert news == init + [n];
    forall t: U64 ensures RemovalHeard(b, news, d, t) <==> RemovalHeard(b, init, d, t) || RemovesAt(n, d, t)
      ensures LinkHeard(b, news, d, t) <==> LinkHeard(b, init, d, t) || LinksAt(n, d, t)
    {
      HeardMore(b, init, n, d, t);
    }
  }

  lemma KeepsRemovalStep(b: BookState, news: seq<News>, d: Device, r: BookState)
    requires news != [] && KeepsRemoval(b, news[..|news| - 1], d, r)
    ensures KeepsRemoval(b, news, d, Receive(r, news[|news| - 1]))
  {
    HeardStep(b, news, d);
    ReceivedTimes(r, news[|news| - 1], d);
  }

  lemma KeepsLinkStep(b: BookState, news: seq<News>, d: Device, r: BookState)
    requires news != [] && KeepsLink(b, news[..|news| - 1], d, r)
    ensures KeepsLink(b, news, d, Receive(r, news[|news| - 1]))
  {
    var n := news[|news| - 1];
    var was, later := TimeOf(r.linked, d), TimeOf(Receive(r, n).linked, d);
    HeardStep(b, news, d);
    ReceivedTimes(r, n, d);
    forall t: U64 | LinkHeard(b, news, d, t) ensures t <= later {
      if LinksAt(n, d, t) { assert later == Max(was, t); }
    }
    if later > 0 && later != was { assert LinksAt(n, d, later); }
  }

  lemma {:induction false} LatestAreKept(b: BookState, news: seq<News>, d: Device)
    ensures KeepsRemoval(b, news, d, ReceiveAll(b, news)) && KeepsLink(b, news, d, ReceiveAll(b, news))
  {
    if news != [] {
      var r := ReceiveAll(b, news[..|news| - 1]);
      LatestAreKept(b, news[..|news| - 1], d);
      KeepsRemovalStep(b, news, d, r);
      KeepsLinkStep(b, news, d, r);
    }
  }

  /**
    Whatever arrives in whatever order and whatever the clocks read, a device is out exactly
    when some removal known or heard is no older than every link known or heard, each time
    taken as the receiver's clamp lets it in.
   */
  lemma DecidedByLatest(b: BookState, news: seq<News>, d: Device)
    ensures IsRemoved(ReceiveAll(b, news), d) <==>
              exists t: U64 :: RemovalHeard(b, news, d, t) && forall u: U64 :: LinkHeard(b, news, d, u) ==> u <= t
  {
    LatestAreKept(b, news, d);
    var r := ReceiveAll(b, news);
    if IsRemoved(r, d) {
      assert RemovalHeard(b, news, d, r.removedDevices[d]);
    }
  }

  /** Only absurd times are cut: whatever is at most ten years ahead of the receiver's clock comes in as it is. */
  lemma OnlyAbsurdTimesAreCut(now: U64, t: U64)
    ensures Clamp(now, t) == t <==> t <= now + 315_360_000_000
    ensures Clamp(now, t) <= t && Clamp(now, t) <= now + 315_360_000_000
  {
  }

  /** A receiver whose clock reads 0 stores a removal and the relink made after it at one time: the device stays out. */
  lemma RelinkCutExample()
    ensures
      var d := "d";
      var removal := RemovalNews(0, d, SignRemoval("m", "a", d, 2 * SKEW_MS));
      var relink := LinkNews(0, Entry(d, SignStamp("m", "a", d, 2 * SKEW_MS + 1)));
      IsRemoved(ReceiveAll(EMPTY_BOOK, [removal, relink]), d)
  {
    var d := "d";
    var removal := RemovalNews(0, d, SignRemoval("m", "a", d, 2 * SKEW_MS));
    var relink := LinkNews(0, Entry(d, SignStamp("m", "a", d, 2 * SKEW_MS + 1)));
    var news := [removal, relink];
    DecidedByLatest(EMPTY_BOOK, news, d);
    assert RemovesAt(news[0], d, SKEW_MS);
    assert RemovalHeard(EMPTY_BOOK, news, d, SKEW_MS);
    forall u: U64 | LinkHeard(EMPTY_BOOK, news, d, u) ensures u <= SKEW_MS {
      var i :| 0 <= i < |news| && LinksAt(news[i], d, u);
      assert i == 1;
    }
  }

  /**
    Device A links `d` again after seeing every removal the other device knows or hears
    of. Once A's link arrives there uncut by the clamp, in any order among the rest, `d` is
    back in. The one exception is a removal pinned at the largest 64-bit time, which no
    stamp can pass.
   */
  lemma RelinkWins(a: BookState, nowA: U64, b: BookState, news: seq<News>, d: Device, i: nat)
    requires TimeOf(a.removedDevices, d) < U64_MAX
    requires i < |news| && LinksAt(news[i], d, MarkLinked(a, d, nowA).linked[d])
    requires RemovalsBefore(b, news, d, PastRemoval(a, d))
    ensures !IsRemoved(ReceiveAll(b, news), d)
  {
    LatestLinkKept(b, news, d, MarkLinked(a, d, nowA).linked[d], i);
    RemovalsStayBefore(b, news, d, PastRemoval(a, d));
  }

  /** Relinking takes the device back in on the spot exactly when its removal is not pinned. */
  lemma RelinkIsSeenHere(a: BookState, d: Device, now: U64)
    ensures IsRemoved(MarkLinked(a, d, now), d) <==> d in a.removedDevices && a.removedDevices[d] == U64_MAX
  {
  }

  /**
    Device A removes `d` after seeing every link the other device knows or hears of.
    Once the removal arrives there, in any order among the rest, `d` is out.
   */
  lemma RemovalWins(a: BookState, nowA: U64, b: BookState, news: seq<News>, d: Device, i: nat)
    requires i < |news| && RemovesAt(news[i], d, RemovalTime(a, d, nowA))
    requires LinksUpTo(b, news, d, TimeOf(a.linked, d))
    ensures IsRemoved(ReceiveAll(b, news), d)
  {
    LatestRemovalKept(b, news, d, RemovalTime(a, d, nowA), i);
    LinksStayUpTo(b, news, d, TimeOf(a.linked, d));
  }

  /** Here too: the removed device is out, and the members left are those reached without it. */
  lemma RemovalIsSeenHere(a: BookState, account: string, d: Device, now: U64, signer: Option<Device>, x: Device)
    ensures var r := RemoveDevice(a, account, d, now, signer);
            && IsRemoved(r, d) && d !in r.pending
            && (Reachable(r, x) <==> ReachedAround(a, d, x))
  {
    RemovalLeavesChainsAround(a, RemoveDevice(a, account, d, now, signer), d, x);
  }

  /** A voucher newer than all others is never the one cut off. */
  lemma NewestIsKept(v: seq<Stamp>, s: Stamp)
    requires OnePerSigner(v) && forall c :: c in v ==> c.at < s.at
    ensures s in AddTo(v, s)
  {
    AddToKeepsShape(v, s);
    var c := AddTo(v, s)[0];
    assert c in AddTo(v, s);
    if s !in AddTo(v, s) {
      AddToKeepsNewest(v, s, s);
    }
  }

  lemma ApprovalVouches(b: BookState, account: string, d: Device, now: U64)
    requires d in b.pending && OnePerSigner(VouchersOf(b, d)) && TimeOf(b.linked, d) < U64_MAX
    requires forall c :: c in VouchersOf(b, d) ==> c.at <= TimeOf(b.linked, d)
    ensures SignedBy(VouchersOf(ApproveDevice(b, account, d, now, b.me).value, d), b.me)
  {
    var s := SignStamp(b.me, account, d, ApprovalTime(b, d, now));
    NewestIsKept(VouchersOf(b, d), s);
    assert s.signer == b.me;
  }

  lemma VouchedByMe(r: BookState, d: Device)
    requires r.me != "" && r.proofsV != 0 && !IsRemoved(r, r.me) && SignedBy(VouchersOf(r, d), r.me)
    ensures IsMember(r, d) <==> !IsRemoved(r, d)
  {
    RootReachable(r);
    if !IsRemoved(r, d) {
      ReachableStep(r, r.me, d);
    }
  }

  lemma ApprovalRelinks(b: BookState, account: string, d: Device, now: U64, self: Device)
    requires d in b.pending
    ensures var r := ApproveDevice(b, account, d, now, self).value;
            && (IsRemoved(r, d) <==> d in b.removedDevices && b.removedDevices[d] == U64_MAX)
            && r.me == b.me && r.proofsV == b.proofsV
            && forall x :: x != d ==> (IsRemoved(r, x) <==> IsRemoved(b, x))
  {
  }

  /** An approved device is a member at once, unless its removal is pinned. */
  lemma ApprovalAdmits(b: BookState, account: string, d: Device, now: U64)
    requires d in b.pending && OnePerSigner(VouchersOf(b, d)) && TimeOf(b.linked, d) < U64_MAX
    requires forall c :: c in VouchersOf(b, d) ==> c.at <= TimeOf(b.linked, d)
    requires b.me != "" && b.proofsV != 0 && d != b.me && !IsRemoved(b, b.me)
    ensures IsMember(ApproveDevice(b, account, d, now, b.me).value, d) <==>
            !(d in b.removedDevices && b.removedDevices[d] == U64_MAX)
  {
    ApprovalVouches(b, account, d, now);
    ApprovalRelinks(b, account, d, now, b.me);
    VouchedByMe(ApproveDevice(b, account, d, now, b.me).value, d);
  }
}
