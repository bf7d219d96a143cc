/** The block list as the program keeps it: a file read, changed in memory and written back. */
module BlockFile {
  import opened Common
  import opened Sorting
  import opened Threads
  import opened BlockList

  /**
    The records on disk. `written` says whether a write succeeds; a failed write keeps the
    old file.
  */
  class Blocks {
    var recs: Records

    constructor ()
      ensures recs == map[]
    {
      recs := map[];
    }

    /** Block every endpoint of a person; false when the write failed. */
    method BlockEndpoints(eids: set<string>, name: string, account: Option<string>, now: U64, written: bool)
      returns (ok: bool)
      modifies this
      ensures recs == if ok then Block(old(recs), eids, name, account, now) else old(recs)
      ensures ok <==> written || Block(old(recs), eids, name, account, now) == old(recs)
    {
      var all, todo := recs, eids;
      while todo != {}
        invariant todo <= eids
        invariant all == Block(recs, eids - todo, name, account, now)
      {
        var e :| e in todo;
        assert e in all <==> e in recs;
        all := all[e := Rec(name, account, true, StampAt(all, e, now))];
        todo := todo - {e};
      }
      ok := all == recs || written;
      if ok { recs := all; }
    }

    /** Unblock the person listed under `id`. */
    method UnblockPerson(id: string, now: U64, written: bool) returns (ok: bool)
      modifies this
      ensures recs == if ok then Unblock(old(recs), id, now) else old(recs)
      ensures ok <==> written || Unblock(old(recs), id, now) == old(recs)
    {
      var all := recs;
      var todo := set e | e in recs && recs[e].blocked && SamePerson(recs, id, e);
      ghost var keys := todo;
      while todo != {}
        invariant todo <= keys && all.Keys == recs.Keys
        invariant forall e :: e in recs ==> all[e] == if e in keys - todo then Unblock(recs, id, now)[e] else recs[e]
      {
        var e :| e in todo;
        all := all[e := all[e].(blocked := false, at := StampAt(all, e, now))];
        todo := todo - {e};
      }
      assert all == Unblock(recs, id, now);
      ok := all == recs || written;
      if ok { recs := all; }
    }

    /** Merge another own device's list, walked in any order; says whether anything changed here. */
    method MergeList(theirs: Records, now: U64, written: bool) returns (changed: bool)
      modifies this
      ensures recs == if changed then Merge(old(recs), theirs, now) else old(recs)
      ensures changed <==> written && Merge(old(recs), theirs, now) != old(recs)
    {
      var all := recs;
      var todo := theirs.Keys;
      changed := false;
      while todo != {}
        invariant todo <= theirs.Keys
        invariant forall e :: e in all <==> e in recs || (e !in todo && Takes(recs, theirs, now, e))
        invariant forall e :: e in all ==>
                    all[e] == if e !in todo && Takes(recs, theirs, now, e) then Cut(theirs[e], now) else recs[e]
        invariant changed <==> exists e :: e in theirs && e !in todo && Takes(recs, theirs, now, e)
      {
        var e :| e in todo;
        todo := todo - {e};
        if TakesId(e) {
          var r := Cut(theirs[e], now);
          assert e in all <==> e in recs;
          if Wins(all, e, r) && (e !in all || all[e] != r) {
            all := all[e := r];
            changed := true;
          }
        }
      }
      assert all == Merge(recs, theirs, now);
      if changed {
        var e :| e in theirs && Takes(recs, theirs, now, e);
        assert all != recs by { assert all[e] == Cut(theirs[e], now); }
      }
      changed := changed && written;
      if changed { recs := all; }
    }

    /** One row per blocked person, newest first. */
    method ListPeople() returns (rows: seq<Person>)
      ensures IsListing(recs, rows)
    {
      var people := FoldPeople();
      rows := [];
      var todo := people.Keys;
      assert people.Keys - todo == {};
      while todo != {}
        invariant todo <= people.Keys
        invariant SortedBy(rows, NewerRow) && RowsOf(rows, people, people.Keys - todo)
      {
        var k :| k in todo;
        RowsStep(recs, rows, people, people.Keys - todo, k);
        assert people.Keys - (todo - {k}) == people.Keys - todo + {k};
        rows := Place(rows, Titled(people[k]), NewerRow);
        todo := todo - {k};
      }
      assert people.Keys - todo == people.Keys;
      RowsList(recs, rows, people);
    }

    /** Fold the blocked records together by person, in any order. */
    method FoldPeople() returns (people: map<string, Person>)
      ensures Folded(recs, people, set e | e in recs && recs[e].blocked)
    {
      people := map[];
      var blocked := set e | e in recs && recs[e].blocked;
      var todo := blocked;
      assert blocked - todo == {};
      assert forall k :: FoldedAt(recs, people, {}, k);
      while todo != {}
        invariant todo <= blocked
        invariant Folded(recs, people, blocked - todo)
      {
        var e :| e in todo;
        var k := PersonOf(recs, e);
        FoldedStep(recs, people, blocked - todo, e);
        var p := if k in people then Joined(people[k], e, recs[e]) else Person(e, recs[e].name, recs[e].at, [e]);
        people := people[k := p];
        assert blocked - (todo - {e}) == blocked - todo + {e};
        todo := todo - {e};
      }
      assert blocked - todo == blocked;
    }
  }

  /** Those of `done` who are the person `k`. */
  ghost function Of(recs: Records, done: set<string>, k: string): set<string> {
    set e | e in done && e in recs && PersonOf(recs, e) == k
  }

  ghost predicate Folded(recs: Records, people: map<string, Person>, done: set<string>) {
    forall k :: FoldedAt(recs, people, done, k)
  }

  ghost predicate FoldedAt(recs: Records, people: map<string, Person>, done: set<string>, k: string) {
    if k in people then Of(recs, done, k) != {} && RowFor(recs, people[k], Of(recs, done, k))
    else Of(recs, done, k) == {}
  }

  lemma FoldedStep(recs: Records, people: map<string, Person>, done: set<string>, e: string)
    requires Folded(recs, people, done) && e in recs && e !in done
    ensures var k := PersonOf(recs, e);
            var p := if k in people then Joined(people[k], e, recs[e]) else Person(e, recs[e].name, recs[e].at, [e]);
            Folded(recs, people[k := p], done + {e})
  {
    var k := PersonOf(recs, e);
    assert Of(recs, done + {e}, k) == Of(recs, done, k) + {e};
    assert FoldedAt(recs, people, done, k);
    if k in people {
      JoinedRow(recs, people[k], Of(recs, done, k), e);
    } else {
      var p := Person(e, recs[e].name, recs[e].at, [e]);
      assert e in {e} && Of(recs, done + {e}, k) == {e};
      assert RowFor(recs, p, {e});
    }
    assert e in Of(recs, done + {e}, k);
    var p := if k in people then Joined(people[k], e, recs[e]) else Person(e, recs[e].name, recs[e].at, [e]);
    var next, all := people[k := p], done + {e};
    forall j ensures FoldedAt(recs, next, all, j) {
      if j != k {
        assert FoldedAt(recs, people, done, j);
        assert Of(recs, done + {e}, j) == Of(recs, done, j);
      }
    }
  }

  // ---------- the rows ----------

  /** A row without a name is listed as unknown. */
  function Titled(p: Person): Person {
    p.(name := if Blank(p.name) then "Unknown" else p.name)
  }

  /** Newest first, then by id. */
  predicate NewerRow(a: Person, b: Person) {
    a.at > b.at || (a.at == b.at && IdLeq(a.id, b.id))
  }

  lemma NewerRowIsOrder()
    ensures TotalOrder(NewerRow)
  {
    forall a, b ensures NewerRow(a, b) || NewerRow(b, a) {
      IdTotal(a.id, b.id);
    }
    forall a, b, c | NewerRow(a, b) && NewerRow(b, c) ensures NewerRow(a, c) {
      if IdLeq(a.id, b.id) && IdLeq(b.id, c.id) { IdTransitive(a.id, b.id, c.id); }
    }
  }

  /** `row` is the listed row of the person `k`. */
  ghost predicate Lists(recs: Records, row: Person, k: string) {
    Members(recs, k) != {} && exists p :: RowFor(recs, p, Members(recs, k)) && row == Titled(p)
  }

  ghost predicate IsListed(recs: Records, row: Person) {
    exists k :: Lists(recs, row, k)
  }

  /** Newest first, a row for each blocked person and no other, nobody in two rows. */
  ghost predicate IsListing(recs: Records, rows: seq<Person>) {
    && SortedBy(rows, NewerRow)
    && (forall row :: row in rows ==> IsListed(recs, row))
    && (forall e :: e in recs && recs[e].blocked ==> HasRow(recs, rows, PersonOf(recs, e)))
    && (forall i, j :: 0 <= i < j < |rows| ==> NobodyInBoth(rows[i], rows[j]))
  }

  ghost predicate HasRow(recs: Records, rows: seq<Person>, k: string) {
    exists row :: row in rows && Lists(recs, row, k)
  }

  ghost predicate NobodyInBoth(a: Person, b: Person) {
    Ids(a) !! Ids(b)
  }

  ghost function Ids(row: Person): set<string> {
    set e | e in row.endpointIds
  }

  ghost predicate TitledIn(row: Person, people: map<string, Person>, done: set<string>) {
    exists k :: k in done && k in people && row == Titled(people[k])
  }

  /** `rows` are the titled rows of the keys in `done`, each once. */
  ghost predicate RowsOf(rows: seq<Person>, people: map<string, Person>, done: set<string>) {
    && (forall row :: row in rows ==> TitledIn(row, people, done))
    && (forall k :: k in done && k in people ==> Titled(people[k]) in rows)
    && Apart(rows)
  }

  ghost function Blocked(recs: Records): set<string> {
    set e | e in recs && recs[e].blocked
  }

  lemma FoldedIds(recs: Records, people: map<string, Person>, k: string)
    requires Folded(recs, people, Blocked(recs)) && k in people
    ensures Ids(people[k]) == Ids(Titled(people[k])) == Members(recs, k) != {}
    ensures Lists(recs, Titled(people[k]), k)
  {
    assert FoldedAt(recs, people, Blocked(recs), k);
    assert Of(recs, Blocked(recs), k) == Members(recs, k);
    assert RowFor(recs, people[k], Members(recs, k));
  }

  lemma RowsApart(recs: Records, people: map<string, Person>, j: string, k: string)
    requires Folded(recs, people, Blocked(recs)) && j in people && k in people && j != k
    ensures Ids(Titled(people[j])) !! Ids(Titled(people[k])) && Titled(people[j]) != Titled(people[k])
  {
    FoldedIds(recs, people, j);
    FoldedIds(recs, people, k);
  }

  lemma RowsStep(recs: Records, rows: seq<Person>, people: map<string, Person>, done: set<string>, k: string)
    requires Folded(recs, people, Blocked(recs)) && k in people && k !in done
    requires SortedBy(rows, NewerRow) && RowsOf(rows, people, done)
    ensures SortedBy(Place(rows, Titled(people[k]), NewerRow), NewerRow)
    ensures RowsOf(Place(rows, Titled(people[k]), NewerRow), people, done + {k})
  {
    var row := Titled(people[k]);
    NewerRowIsOrder();
    PlaceKeepsSorted(rows, row, NewerRow);
    PlacedIn(rows, row, NewerRow);
    forall j | j in done && j in people ensures Titled(people[j]) != row {
      RowsApart(recs, people, j, k);
    }
    PlaceKeepsApart(rows, row, NewerRow);
    forall r | r in Place(rows, row, NewerRow) ensures TitledIn(r, people, done + {k}) {
      if r == row {
        assert k in done + {k};
      } else {
        var j :| j in done && j in people && r == Titled(people[j]);
        assert j in done + {k};
      }
    }
  }

  lemma RowsList(recs: Records, rows: seq<Person>, people: map<string, Person>)
    requires Folded(recs, people, Blocked(recs)) && RowsOf(rows, people, people.Keys) && SortedBy(rows, NewerRow)
    ensures IsListing(recs, rows)
  {
    forall row | row in rows ensures IsListed(recs, row) {
      RowIsListed(recs, row, people);
    }
    EveryoneListed(recs, rows, people);
    RowsDisjoint(recs, rows, people);
  }

  /** A name of one of the person's records, as long as one is not blank. */
  ghost predicate NamedAfter(recs: Records, row: Person) {
    exists e :: e in row.endpointIds && e in recs && recs[e].name == row.name && !Blank(row.name)
  }

  /**
    Read down the list: newer people come first, those of one time by id, and every row has a
    name, a record's if any of its records has one that is not blank.
   */
  lemma ListingReads(recs: Records, rows: seq<Person>, i: nat, j: nat)
    requires IsListing(recs, rows) && i < |rows|
    ensures i < j < |rows| ==>
              rows[i].at > rows[j].at || (rows[i].at == rows[j].at && IdLeq(rows[i].id, rows[j].id))
    ensures if exists e :: e in rows[i].endpointIds && e in recs && !Blank(recs[e].name)
            then NamedAfter(recs, rows[i]) else rows[i].name == "Unknown"
  {
    assert rows[i] in rows;
    var k :| Lists(recs, rows[i], k);
    var p :| RowFor(recs, p, Members(recs, k)) && rows[i] == Titled(p);
    assert IdsFor(p.endpointIds, Members(recs, k)) && ValuesFor(recs, p.at, p.name, Members(recs, k));
    forall e | e in p.endpointIds ensures e in Members(recs, k) {
    }
    var n :| n in Members(recs, k) && recs[n].name == p.name;
    assert n in p.endpointIds;
  }

  lemma EveryoneListed(recs: Records, rows: seq<Person>, people: map<string, Person>)
    requires Folded(recs, people, Blocked(recs)) && forall k :: k in people ==> Titled(people[k]) in rows
    ensures forall e :: e in recs && recs[e].blocked ==> HasRow(recs, rows, PersonOf(recs, e))
  {
    forall e | e in recs && recs[e].blocked ensures HasRow(recs, rows, PersonOf(recs, e)) {
      PersonIsListed(recs, people, e);
      var row := Titled(people[PersonOf(recs, e)]);
      assert row in rows && Lists(recs, row, PersonOf(recs, e));
    }
  }

  lemma RowsDisjoint(recs: Records, rows: seq<Person>, people: map<string, Person>)
    requires Folded(recs, people, Blocked(recs)) && Apart(rows)
    requires forall row :: row in rows ==> TitledIn(row, people, people.Keys)
    ensures forall i, j :: 0 <= i < j < |rows| ==> NobodyInBoth(rows[i], rows[j])
  {
    forall i, j | 0 <= i < j < |rows| ensures NobodyInBoth(rows[i], rows[j]) {
      assert rows[i] in rows && rows[j] in rows;
      TwoRowsApart(recs, rows[i], rows[j], people);
    }
  }

  lemma RowIsListed(recs: Records, row: Person, people: map<string, Person>)
    requires Folded(recs, people, Blocked(recs)) && TitledIn(row, people, people.Keys)
    ensures IsListed(recs, row)
  {
    var k :| k in people && row == Titled(people[k]);
    FoldedIds(recs, people, k);
  }

  lemma PersonIsListed(recs: Records, people: map<string, Person>, e: string)
    requires Folded(recs, people, Blocked(recs)) && e in recs && recs[e].blocked
    ensures var k := PersonOf(recs, e); k in people && Lists(recs, Titled(people[k]), k)
  {
    assert FoldedAt(recs, people, Blocked(recs), PersonOf(recs, e));
    assert e in Of(recs, Blocked(recs), PersonOf(recs, e));
    FoldedIds(recs, people, PersonOf(recs, e));
  }

  lemma TwoRowsApart(recs: Records, row: Person, other: Person, people: map<string, Person>)
    requires Folded(recs, people, Blocked(recs)) && row != other
    requires TitledIn(row, people, people.Keys) && TitledIn(other, people, people.Keys)
    ensures Ids(row) !! Ids(other)
  {
    var h :| h in people && row == Titled(people[h]);
    var k :| k in people && other == Titled(people[k]);
    RowsApart(recs, people, h, k);
  }

  /**
    Unblocking by a listed row's id clears exactly that row, unless the key of some account is
    also the endpoint id of someone without one.
  */
  lemma UnblockClearsRow(recs: Records, row: Person, k: string, now: U64)
    requires Lists(recs, row, k)
    ensures Blocked(Unblock(recs, row.id, now)) == Blocked(recs) - Members(recs, k) <==>
              forall e, f :: e in Members(recs, k) && f in Members(recs, k) ==> recs[e].account == recs[f].account
  {
    var p :| RowFor(recs, p, Members(recs, k)) && row == Titled(p);
    var ids := set x | x in p.endpointIds;
    assert row.id in ids;
    assert row.id in Members(recs, k);
    UnblockClearsPerson(recs, row.id, now);
    assert Blocked(Unblock(recs, row.id, now)) == Blocked(recs) - Row(recs, row.id);
    RowIsMembers(recs, row.id, k);
    assert Row(recs, row.id) <= Blocked(recs) && Members(recs, k) <= Blocked(recs);
    if Blocked(recs) - Row(recs, row.id) == Blocked(recs) - Members(recs, k) {
      forall e ensures e in Row(recs, row.id) <==> e in Members(recs, k) {
        assert e in Blocked(recs) - Row(recs, row.id) <==> e in Blocked(recs) - Members(recs, k);
      }
    }
  }

  lemma RowIsMembers(recs: Records, id: string, k: string)
    requires id in Members(recs, k)
    ensures Row(recs, id) == Members(recs, k) <==>
              forall e, f :: e in Members(recs, k) && f in Members(recs, k) ==> recs[e].account == recs[f].account
  {
    if Row(recs, id) == Members(recs, k) {
      forall e, f | e in Members(recs, k) && f in Members(recs, k) ensures recs[e].account == recs[f].account {
        assert e in Row(recs, id) && f in Row(recs, id);
      }
    }
    if forall e, f :: e in Members(recs, k) && f in Members(recs, k) ==> recs[e].account == recs[f].account {
      forall e ensures e in Row(recs, id) <==> e in Members(recs, k) {
        if e in Members(recs, k) {
          assert recs[e].account == recs[id].account;
        }
      }
    }
  }
}
