/** The block list: one record per endpoint, the newest decision wins and a tie keeps the block. */
module BlockList {
  import opened Common
  import opened Sorting
  import opened Threads
  import opened MergeProofs

  datatype Rec = Rec(name: string, account: Option<string>, blocked: bool, at: U64)

  type Records = map<string, Rec>

  const MAX_EID_BYTES: nat := 128
  const MAX_NAME: nat := 200

  /** The length of a string in UTF-8. */
  function Bytes(s: string): nat {
    if s == [] then 0
    else
      var c := s[0];
      (if c < '\U{80}' then 1 else if c < '\U{800}' then 2 else if c < '\U{10000}' then 3 else 4) + Bytes(s[1..])
  }

  predicate TakesId(eid: string) {
    eid != [] && Bytes(eid) <= MAX_EID_BYTES
  }

  /** One past the newest decision seen, or the clock. */
  function StampAt(recs: Records, eid: string, now: U64): U64 {
    Max(now, if eid in recs then SatAdd(recs[eid].at, 1) else 0)
  }

  // ---------- local decisions ----------

  function Block(recs: Records, eids: set<string>, name: string, account: Option<string>, now: U64): Records {
    map eid | eid in recs.Keys + eids ::
      if eid in eids then Rec(name, account, true, StampAt(recs, eid, now)) else recs[eid]
  }

  /** The records of the person listed under `id`: its own, and those of the same account. */
  predicate SamePerson(recs: Records, id: string, eid: string) {
    eid == id || (id in recs && eid in recs && recs[id].account.Some? && recs[eid].account == recs[id].account)
  }

  function Unblock(recs: Records, id: string, now: U64): Records {
    map eid | eid in recs ::
      if recs[eid].blocked && SamePerson(recs, id, eid)
      then recs[eid].(blocked := false, at := StampAt(recs, eid, now)) else recs[eid]
  }

  // ---------- merging another own device's list ----------

  function Cut(r: Rec, now: U64): Rec {
    r.(at := Clamp(now, r.at), name := if |r.name| > MAX_NAME then r.name[..MAX_NAME] else r.name)
  }

  predicate Wins(recs: Records, eid: string, r: Rec) {
    eid !in recs || r.at > recs[eid].at || (r.at == recs[eid].at && r.blocked && !recs[eid].blocked)
  }

  predicate Takes(recs: Records, theirs: Records, now: U64, eid: string) {
    eid in theirs && TakesId(eid) && Wins(recs, eid, Cut(theirs[eid], now))
  }

  function Merge(recs: Records, theirs: Records, now: U64): Records {
    map eid | eid in recs.Keys + theirs.Keys && (eid in recs || Takes(recs, theirs, now, eid)) ::
      if Takes(recs, theirs, now, eid) then Cut(theirs[eid], now) else recs[eid]
  }

  // ---------- the merge is a join ----------

  datatype Decision = Nothing | Decided(at: U64, blocked: bool)

  function DecisionOf(recs: Records, eid: string): Decision {
    if eid in recs then Decided(recs[eid].at, recs[eid].blocked) else Nothing
  }

  /** What a list offers about `eid` to a device whose clock reads `now`. */
  function Offer(theirs: Records, now: U64, eid: string): Decision {
    if eid in theirs && TakesId(eid) then Decided(Clamp(now, theirs[eid].at), theirs[eid].blocked) else Nothing
  }

  /** Ordered by time, then blocked over not. */
  predicate Under(d: Decision, e: Decision) {
    d.Nothing? || (e.Decided? && (d.at < e.at || (d.at == e.at && (d.blocked ==> e.blocked))))
  }

  function Later(d: Decision, e: Decision): Decision {
    if Under(d, e) then e else d
  }

  lemma UnderIsOrder(d: Decision, e: Decision, f: Decision)
    ensures Under(d, d) && (Under(d, e) || Under(e, d))
    ensures Under(d, e) && Under(e, d) ==> d == e
    ensures Under(d, e) && Under(e, f) ==> Under(d, f)
  {
  }

  lemma LaterIsLeast(d: Decision, e: Decision, f: Decision)
    ensures Under(d, Later(d, e)) && Under(e, Later(d, e))
    ensures Under(d, f) && Under(e, f) ==> Under(Later(d, e), f)
  {
  }

  /** Merging moves every decision up to the least one over both, and takes its record whole. */
  lemma MergeIsJoin(recs: Records, theirs: Records, now: U64, eid: string)
    ensures eid in Merge(recs, theirs, now) ==>
              var r := Merge(recs, theirs, now)[eid];
              (eid in recs && r == recs[eid]) || (eid in theirs && r == Cut(theirs[eid], now) && |r.name| <= MAX_NAME)
    ensures DecisionOf(Merge(recs, theirs, now), eid) == Later(DecisionOf(recs, eid), Offer(theirs, now, eid))
  {
  }

  /** A list and the clock it is merged at. */
  datatype Heard = Heard(now: U64, list: Records)

  function MergeEvery(recs: Records, heard: seq<Heard>): Records {
    if heard == [] then recs
    else Merge(MergeEvery(recs, heard[..|heard| - 1]), heard[|heard| - 1].list, heard[|heard| - 1].now)
  }

  ghost predicate Bounds(recs: Records, heard: seq<Heard>, eid: string, d: Decision) {
    Under(DecisionOf(recs, eid), d) && forall h :: h in heard ==> Under(Offer(h.list, h.now, eid), d)
  }

  /** The decision after any run of merges is the least that bounds everything heard. */
  lemma {:induction false} MergesReachBound(recs: Records, heard: seq<Heard>, eid: string, d: Decision)
    ensures var r := DecisionOf(MergeEvery(recs, heard), eid);
            Bounds(recs, heard, eid, r) && (Bounds(recs, heard, eid, d) ==> Under(r, d))
  {
    if heard != [] {
      var init, h := heard[..|heard| - 1], heard[|heard| - 1];
      MergesReachBound(recs, init, eid, d);
      BoundStep(recs, heard, eid, DecisionOf(MergeEvery(recs, init), eid), d);
      MergeIsJoin(MergeEvery(recs, init), h.list, h.now, eid);
    }
  }

  lemma BoundStep(recs: Records, heard: seq<Heard>, eid: string, r: Decision, d: Decision)
    requires heard != [] && Bounds(recs, heard[..|heard| - 1], eid, r)
    requires Bounds(recs, heard[..|heard| - 1], eid, d) ==> Under(r, d)
    ensures var h := heard[|heard| - 1]; var next := Later(r, Offer(h.list, h.now, eid));
            Bounds(recs, heard, eid, next) && (Bounds(recs, heard, eid, d) ==> Under(next, d))
  {
    var init, h := heard[..|heard| - 1], heard[|heard| - 1];
    var o := Offer(h.list, h.now, eid);
    assert heard == init + [h];
    LaterIsLeast(r, o, d);
    UnderIsOrder(DecisionOf(recs, eid), r, Later(r, o));
    forall x | x in heard ensures Under(Offer(x.list, x.now, eid), Later(r, o)) {
      if x in init { UnderIsOrder(Offer(x.list, x.now, eid), r, Later(r, o)); }
    }
    if Bounds(recs, heard, eid, d) {
      assert h in heard;
      assert forall x :: x in init ==> x in heard;
    }
  }

  /** Devices that heard the same lists decide the same, in any order and however often. */
  lemma HeardSameDecideSame(recs: Records, heard: seq<Heard>, other: seq<Heard>, eid: string)
    requires forall h :: h in heard <==> h in other
    ensures DecisionOf(MergeEvery(recs, heard), eid) == DecisionOf(MergeEvery(recs, other), eid)
  {
    var d, e := DecisionOf(MergeEvery(recs, heard), eid), DecisionOf(MergeEvery(recs, other), eid);
    MergesReachBound(recs, heard, eid, e);
    MergesReachBound(recs, other, eid, d);
    UnderIsOrder(d, e, d);
  }

  /** A list whose ids and times the receiver takes as they are. */
  ghost predicate Acceptable(list: Records, now: U64) {
    forall eid :: eid in list ==> TakesId(eid) && list[eid].at <= ClampBound(now)
  }

  /** One sync in both directions leaves both devices with the same decisions. */
  lemma SyncedListsAgree(a: Records, b: Records, nowA: U64, nowB: U64, eid: string)
    requires Acceptable(a, nowB) && Acceptable(b, nowA)
    ensures DecisionOf(Merge(a, b, nowA), eid) == DecisionOf(Merge(b, a, nowB), eid)
  {
    MergeIsJoin(a, b, nowA, eid);
    MergeIsJoin(b, a, nowB, eid);
    UnderIsOrder(DecisionOf(a, eid), DecisionOf(b, eid), DecisionOf(a, eid));
  }

  /** The merge takes no id that is empty or longer than 128 bytes, and any other it is offered. */
  lemma IdsStayShort(recs: Records, theirs: Records, now: U64, eid: string)
    requires eid !in recs
    ensures eid in Merge(recs, theirs, now) <==> eid in theirs && |eid| > 0 && Bytes(eid) <= 128
  {
  }

  /** A character takes one to four bytes, and an ASCII one takes one. */
  lemma {:induction false} BytesBound(s: string)
    ensures |s| <= Bytes(s) <= 4 * |s|
    ensures (Bytes(s) == |s|) <==> (forall i :: 0 <= i < |s| ==> s[i] < '\U{80}')
  {
    if s != [] {
      BytesBound(s[1..]);
      assert forall i :: 0 <= i < |s| - 1 ==> s[1..][i] == s[i + 1];
      if s[0] < '\U{80}' && forall i :: 0 <= i < |s| - 1 ==> s[1..][i] < '\U{80}' {
        forall i | 0 <= i < |s| ensures s[i] < '\U{80}' {
          if i > 0 { assert s[i] == s[1..][i - 1]; }
        }
      }
    }
  }

  // ---------- a decision made after seeing another wins ----------

  /** A decision made on `recs` about `eid`, whichever it is. */
  predicate DecidesOn(recs: Records, after: Records, eid: string, now: U64) {
    eid in after && after[eid].at == StampAt(recs, eid, now)
  }

  lemma LocalDecisions(recs: Records, eids: set<string>, name: string, account: Option<string>, id: string,
                       eid: string, now: U64)
    ensures eid in eids ==>
              var r := Block(recs, eids, name, account, now);
              DecidesOn(recs, r, eid, now) && r[eid] == Rec(name, account, true, r[eid].at)
    ensures eid !in eids ==> DecisionOf(Block(recs, eids, name, account, now), eid) == DecisionOf(recs, eid)
    ensures eid in recs && recs[eid].blocked && SamePerson(recs, id, eid) ==>
              DecidesOn(recs, Unblock(recs, id, now), eid, now) && !Unblock(recs, id, now)[eid].blocked
    ensures !(eid in recs && recs[eid].blocked && SamePerson(recs, id, eid)) ==>
              DecisionOf(Unblock(recs, id, now), eid) == DecisionOf(recs, eid)
  {
  }

  /**
    Blocking a person with an account blocks every device of that account, known or met later,
    and unblocking any one of the endpoints blocked together frees them all.
   */
  lemma BlockCoversPerson(recs: Records, eids: set<string>, name: string, account: string, now: U64, later: U64,
                          accounts: map<string, string>, eid: string, id: string)
    requires id in eids
    ensures var r := Block(recs, eids, name, Some(account), now);
            && (eid != [] && (eid in eids || (eid in accounts && accounts[eid] == account)) ==>
                  IsBlocked(r, accounts, eid))
            && (eid in eids ==> !Unblock(r, id, later)[eid].blocked)
            && !AccountBlocked(Unblock(r, id, later), account)
  {
    var r := Block(recs, eids, name, Some(account), now);
    LocalDecisions(recs, eids, name, Some(account), id, id, now);
    assert id in r && r[id].blocked && r[id].account == Some(account);
    UnblockClearsPerson(r, id, later);
  }

  /** Nothing about `eid` held in `there` or heard besides the i-th list is newer than `known`. */
  ghost predicate NothingNewer(there: Records, heard: seq<Heard>, i: nat, eid: string, known: Decision) {
    && Under(DecisionOf(there, eid), known)
    && forall j :: 0 <= j < |heard| && j != i ==> Under(Offer(heard[j].list, heard[j].now, eid), known)
  }

  /**
    A device decides about `eid` knowing `recs`; elsewhere nothing newer than what it knew is
    held or heard. Once its list arrives there, in any order among the rest, its decision
    stands, unless it was an unblock of a block at the last 64-bit time.
   */
  lemma LaterDecisionStands(recs: Records, after: Records, now: U64, there: Records, heard: seq<Heard>, i: nat,
                            eid: string)
    requires DecidesOn(recs, after, eid, now) && TakesId(eid)
    requires i < |heard| && heard[i].list == after && after[eid].at <= ClampBound(heard[i].now)
    requires NothingNewer(there, heard, i, eid, DecisionOf(recs, eid))
    requires eid in recs && recs[eid].at == U64_MAX ==> after[eid].blocked
    ensures DecisionOf(MergeEvery(there, heard), eid) == DecisionOf(after, eid)
  {
    var d, was := DecisionOf(after, eid), DecisionOf(recs, eid);
    assert Under(was, d);
    forall h | h in heard ensures Under(Offer(h.list, h.now, eid), d) {
      var j :| 0 <= j < |heard| && heard[j] == h;
      if j != i { UnderIsOrder(Offer(h.list, h.now, eid), was, d); }
    }
    UnderIsOrder(DecisionOf(there, eid), was, d);
    MergesReachBound(there, heard, eid, d);
    assert heard[i] in heard && Offer(after, heard[i].now, eid) == d;
    UnderIsOrder(d, DecisionOf(MergeEvery(there, heard), eid), d);
  }

  /** A block made knowing everything the other device holds or hears blocks there too. */
  lemma BlockStands(recs: Records, eids: set<string>, name: string, account: Option<string>, now: U64,
                    there: Records, heard: seq<Heard>, i: nat, eid: string)
    requires eid in eids && TakesId(eid) && i < |heard| && heard[i].list == Block(recs, eids, name, account, now)
    requires heard[i].list[eid].at <= ClampBound(heard[i].now)
    requires NothingNewer(there, heard, i, eid, DecisionOf(recs, eid))
    ensures eid in MergeEvery(there, heard) && MergeEvery(there, heard)[eid].blocked
  {
    LocalDecisions(recs, eids, name, account, "", eid, now);
    LaterDecisionStands(recs, heard[i].list, now, there, heard, i, eid);
  }

  /** So does an unblock free every endpoint of the person, if the block was before the last 64-bit time. */
  lemma UnblockStands(recs: Records, id: string, now: U64, there: Records, heard: seq<Heard>, i: nat, eid: string)
    requires eid in recs && recs[eid].blocked && recs[eid].at < U64_MAX && SamePerson(recs, id, eid) && TakesId(eid)
    requires i < |heard| && heard[i].list == Unblock(recs, id, now)
    requires heard[i].list[eid].at <= ClampBound(heard[i].now)
    requires NothingNewer(there, heard, i, eid, DecisionOf(recs, eid))
    ensures eid in MergeEvery(there, heard) && !MergeEvery(there, heard)[eid].blocked
  {
    LocalDecisions(recs, {}, "", None, id, eid, now);
    LaterDecisionStands(recs, heard[i].list, now, there, heard, i, eid);
  }

  /** An unblock made at the last 64-bit time of a block there is lost, even on a device that knew nothing newer. */
  lemma LastUnblockIsLost(eid: string, later: U64)
    requires TakesId(eid) && ClampBound(later) == U64_MAX
    ensures
      var recs := map[eid := Rec("", None, true, U64_MAX)];
      Merge(recs, Unblock(recs, eid, 0), later)[eid].blocked
  {
  }

  /** On a device that already shares the earlier decision, exactly an unblock at the last 64-bit time loses. */
  lemma DecisionStandsExactly(recs: Records, after: Records, now: U64, there: Records, later: U64, eid: string)
    requires DecidesOn(recs, after, eid, now) && TakesId(eid) && after[eid].at <= ClampBound(later)
    requires DecisionOf(there, eid) == DecisionOf(recs, eid)
    ensures DecisionOf(Merge(there, after, later), eid) == DecisionOf(after, eid) <==>
              !(eid in recs && recs[eid] == recs[eid].(at := U64_MAX, blocked := true) && !after[eid].blocked)
  {
    MergeIsJoin(there, after, later, eid);
  }

  // ---------- who is blocked ----------

  predicate AccountBlocked(recs: Records, account: string) {
    exists e :: e in recs && recs[e].blocked && recs[e].account == Some(account)
  }

  /** Blocked directly, or as a known device (`accounts`: the verified account of each friend) of a blocked account. */
  predicate IsBlocked(recs: Records, accounts: map<string, string>, eid: string) {
    eid != [] && ((eid in recs && recs[eid].blocked) || (eid in accounts && AccountBlocked(recs, accounts[eid])))
  }

  /** Everyone with a blocked record under the person `id`. */
  ghost function Row(recs: Records, id: string): set<string> {
    set e | e in recs && recs[e].blocked && SamePerson(recs, id, e)
  }

  /** Unblocking a person clears exactly that person: all their devices and their account, nobody else. */
  lemma UnblockClearsPerson(recs: Records, id: string, now: U64)
    ensures var r := Unblock(recs, id, now);
            && r.Keys == recs.Keys
            && (set e | e in r && r[e].blocked) == (set e | e in recs && recs[e].blocked) - Row(recs, id)
            && forall a :: AccountBlocked(r, a) <==>
                 AccountBlocked(recs, a) && !(id in recs && recs[id].account == Some(a))
  {
    var r := Unblock(recs, id, now);
    forall a | AccountBlocked(recs, a) && !(id in recs && recs[id].account == Some(a)) ensures AccountBlocked(r, a) {
      var e :| e in recs && recs[e].blocked && recs[e].account == Some(a);
      assert r[e] == recs[e];
    }
  }

  /** Afterwards exactly those are blocked who were for another reason: no device of the person is. */
  lemma UnblockedIsStranger(recs: Records, id: string, now: U64, accounts: map<string, string>, eid: string)
    ensures IsBlocked(Unblock(recs, id, now), accounts, eid) <==>
              eid != [] && (
                || (eid in recs && recs[eid].blocked && !SamePerson(recs, id, eid))
                || (eid in accounts && AccountBlocked(recs, accounts[eid])
                    && !(id in recs && recs[id].account == Some(accounts[eid]))))
  {
    UnblockClearsPerson(recs, id, now);
  }

  // ---------- the Blocked list ----------

  /** A record's person: its account, or the endpoint itself. */
  function PersonOf(recs: Records, eid: string): string
    requires eid in recs
  {
    if recs[eid].account.Some? then recs[eid].account.value else eid
  }

  function Members(recs: Records, person: string): set<string> {
    set e | e in recs && recs[e].blocked && PersonOf(recs, e) == person
  }

  datatype Person = Person(id: string, name: string, at: U64, endpointIds: seq<string>)

  predicate Space(c: char) {
    || '\t' <= c <= '\r' || c == ' ' || c == '\U{85}' || c == '\U{A0}' || c == '\U{1680}'
    || '\U{2000}' <= c <= '\U{200A}'
    || c == '\U{2028}' || c == '\U{2029}' || c == '\U{202F}' || c == '\U{205F}' || c == '\U{3000}'
  }

  /** The white space of Unicode: 25 characters. */
  lemma SpaceIsWhiteSpace(c: char)
    ensures Space(c) <==>
              c as int in [9, 10, 11, 12, 13, 32, 133, 160, 5760, 8192, 8193, 8194, 8195, 8196, 8197, 8198, 8199, 8200,
                           8201, 8202, 8232, 8233, 8239, 8287, 12288]
  {
  }

  lemma BlankIs(s: string, c: char)
    ensures Blank("") && (Blank(s + [c]) <==> Blank(s) && Space(c))
  {
    assert forall x :: x in s ==> x in s + [c];
    assert c in s + [c];
  }

  /** Nothing but white space. */
  predicate Blank(s: string) {
    forall c :: c in s ==> Space(c)
  }

  /** Exactly the endpoints `ids`, in order, each once. */
  ghost predicate IdsFor(list: seq<string>, ids: set<string>) {
    list != [] && SortedBy(list, IdLeq) && Apart(list) && (set e | e in list) == ids
  }

  /** The newest time of the records, and a name of one of them that is blank only when all are. */
  ghost predicate ValuesFor(recs: Records, at: U64, name: string, ids: set<string>) {
    && (forall e :: e in ids ==> e in recs && recs[e].at <= at)
    && (exists e :: e in ids && recs[e].at == at)
    && (exists e :: e in ids && recs[e].name == name)
    && (Blank(name) ==> forall e :: e in ids ==> Blank(recs[e].name))
  }

  /** `p` is the row of everyone in `ids`. */
  ghost predicate RowFor(recs: Records, p: Person, ids: set<string>) {
    IdsFor(p.endpointIds, ids) && p.id == p.endpointIds[0] && ValuesFor(recs, p.at, p.name, ids)
  }

  lemma IdsAreOrdered()
    ensures TotalOrder(IdLeq)
  {
    forall a, b ensures IdLeq(a, b) || IdLeq(b, a) {
      IdTotal(a, b);
    }
    forall a, b, c | IdLeq(a, b) && IdLeq(b, c) ensures IdLeq(a, c) {
      IdTransitive(a, b, c);
    }
  }

  /** One more record of the person. */
  function Joined(p: Person, e: string, r: Rec): Person {
    var ids := Place(p.endpointIds, e, IdLeq);
    Person(if ids == [] then p.id else ids[0], if Blank(p.name) then r.name else p.name, Max(p.at, r.at), ids)
  }

  lemma PlacedId(list: seq<string>, ids: set<string>, e: string)
    requires IdsFor(list, ids) && e !in ids
    ensures IdsFor(Place(list, e, IdLeq), ids + {e})
  {
    assert e !in list;
    IdsAreOrdered();
    PlaceKeepsSorted(list, e, IdLeq);
    PlaceKeepsApart(list, e, IdLeq);
    PlacedIn(list, e, IdLeq);
  }

  lemma JoinedValues(recs: Records, at: U64, name: string, ids: set<string>, e: string)
    requires ValuesFor(recs, at, name, ids) && e in recs
    ensures ValuesFor(recs, Max(at, recs[e].at), if Blank(name) then recs[e].name else name, ids + {e})
  {
    var a :| a in ids && recs[a].at == at;
    var n :| n in ids && recs[n].name == name;
    var all := ids + {e};
    assert a in all && n in all && e in all;
  }

  lemma JoinedRow(recs: Records, p: Person, ids: set<string>, e: string)
    requires RowFor(recs, p, ids) && e in recs && e !in ids
    ensures RowFor(recs, Joined(p, e, recs[e]), ids + {e})
  {
    PlacedId(p.endpointIds, ids, e);
    JoinedValues(recs, p.at, p.name, ids, e);
  }
}
