/** Signed stamps and the bounded voucher list kept for each device. */
module Vouchers {
  import opened Common
  import opened Sorting

  /** A device's endpoint id. */
  type Device = string

  /**
    Ideal signatures: a signature is exactly the fact that its signer made it over
    one message. `Forged` stands for every byte string nobody produced by signing.
   */
  datatype Signature =
    | LinkSignature(signer: Device, account: string, eid: Device, at: U64)
    | RemovalSignature(signer: Device, account: string, eid: Device, at: U64)
    | Forged

  datatype Stamp = Stamp(at: U64, signer: Device, sig: Signature)

  const MAX_VOUCHERS: nat := 8

  function SignStamp(signer: Device, account: string, eid: Device, at: U64): Stamp {
    Stamp(at, signer, LinkSignature(signer, account, eid, at))
  }

  function SignRemoval(signer: Device, account: string, eid: Device, at: U64): Stamp {
    Stamp(at, signer, RemovalSignature(signer, account, eid, at))
  }

  /** A voucher for `eid` really signed by some other device. */
  predicate StampValid(account: string, eid: Device, s: Stamp) {
    s.signer != eid && s.sig == LinkSignature(s.signer, account, eid, s.at)
  }

  /** A removal of `eid` really signed by its named signer. */
  predicate RemovalValid(account: string, eid: Device, s: Stamp) {
    s.sig == RemovalSignature(s.signer, account, eid, s.at)
  }

  // ---------- the list kept for one device ----------

  ghost predicate OnePerSigner(v: seq<Stamp>) {
    forall i, j :: 0 <= i < j < |v| ==> v[i].signer != v[j].signer
  }

  /** The order of the list: newest first. */
  predicate Newer(a: Stamp, b: Stamp) {
    a.at >= b.at
  }

  ghost predicate NewestFirst(v: seq<Stamp>) {
    SortedBy(v, Newer)
  }

  ghost predicate SignedBy(v: seq<Stamp>, who: Device) {
    exists c :: c in v && c.signer == who
  }

  ghost function Signers(v: seq<Stamp>): set<Device> {
    set c | c in v :: c.signer
  }

  /** The list without `who`'s voucher (`retain`). */
  function Without(v: seq<Stamp>, who: Device): (r: seq<Stamp>)
    ensures |r| <= |v|
  {
    if v == [] then []
    else
      var init, last := v[..|v| - 1], v[|v| - 1];
      if last.signer == who then Without(init, who) else Without(init, who) + [last]
  }

  lemma {:induction false} WithoutElements(v: seq<Stamp>, who: Device)
    ensures forall c :: c in Without(v, who) <==> c in v && c.signer != who
    ensures OnePerSigner(v) ==> OnePerSigner(Without(v, who))
  {
    if v != [] {
      assert v == v[..|v| - 1] + [v[|v| - 1]];
      WithoutElements(v[..|v| - 1], who);
    }
  }

  lemma {:induction false} WithoutStranger(v: seq<Stamp>, who: Device)
    requires forall c :: c in v ==> c.signer != who
    ensures Without(v, who) == v
  {
    if v != [] {
      var init, last := v[..|v| - 1], v[|v| - 1];
      assert v == init + [last] && last in v;
      WithoutStranger(init, who);
    }
  }

  lemma SortedElements(v: seq<Stamp>)
    ensures forall c :: c in SortBy(v, Newer) <==> c in v
  {
    SortByElements(v, Newer);
    forall c ensures c in SortBy(v, Newer) <==> c in v {
      assert c in SortBy(v, Newer) <==> c in multiset(SortBy(v, Newer));
    }
  }

  lemma {:induction false} PlaceKeepsSigners(v: seq<Stamp>, s: Stamp)
    requires OnePerSigner(v) && forall c :: c in v ==> c.signer != s.signer
    ensures OnePerSigner(Place(v, s, Newer))
  {
    if v != [] && !Newer(v[|v| - 1], s) {
      var init, last := v[..|v| - 1], v[|v| - 1];
      PlaceKeepsSigners(init, s);
      PlacedIn(init, s, Newer);
      var r := Place(init, s, Newer);
      forall i | 0 <= i < |r| ensures r[i].signer != last.signer {
        assert r[i] in r;
      }
    }
  }

  lemma {:induction false} SortKeepsSigners(v: seq<Stamp>)
    requires OnePerSigner(v)
    ensures OnePerSigner(SortBy(v, Newer))
  {
    if v != [] {
      var init, last := v[..|v| - 1], v[|v| - 1];
      SortKeepsSigners(init);
      SortedElements(init);
      PlaceKeepsSigners(SortBy(init, Newer), last);
    }
  }

  /** The list taken in, newest first by a stable sort, before it is bounded. */
  function TakenIn(v: seq<Stamp>, s: Stamp): (r: seq<Stamp>)
    ensures |r| <= |v| + 1
  {
    SortBy(Without(v, s.signer) + [s], Newer)
  }

  lemma TakenInShape(v: seq<Stamp>, s: Stamp)
    ensures NewestFirst(TakenIn(v, s)) && (OnePerSigner(v) ==> OnePerSigner(TakenIn(v, s)))
    ensures forall c :: c in TakenIn(v, s) <==> c == s || (c in v && c.signer != s.signer)
  {
    var raw := Without(v, s.signer) + [s];
    WithoutElements(v, s.signer);
    SortedElements(raw);
    SortByIsSorted(raw, Newer);
    if OnePerSigner(v) {
      assert OnePerSigner(raw);
      SortKeepsSigners(raw);
    }
  }

  /** Replace the signer's voucher, newest first, and keep the newest few. */
  function AddTo(v: seq<Stamp>, s: Stamp): seq<Stamp> {
    Bounded(TakenIn(v, s))
  }

  function Bounded(v: seq<Stamp>): seq<Stamp> {
    if |v| > MAX_VOUCHERS then v[..MAX_VOUCHERS] else v
  }

  /** What adding a voucher does to any list. */
  lemma AddToKeepsShape(v: seq<Stamp>, s: Stamp)
    requires OnePerSigner(v)
    ensures var r := AddTo(v, s);
            && 0 < |r| <= MAX_VOUCHERS
            && OnePerSigner(r) && NewestFirst(r)
            && forall c :: c in r ==> c == s || (c in v && c.signer != s.signer)
  {
    TakenInShape(v, s);
    assert s in TakenIn(v, s);
    BoundedShape(TakenIn(v, s));
  }

  lemma BoundedShape(all: seq<Stamp>)
    requires OnePerSigner(all) && NewestFirst(all) && all != []
    ensures var r := Bounded(all); 0 < |r| <= MAX_VOUCHERS && OnePerSigner(r) && NewestFirst(r)
    ensures forall c :: c in Bounded(all) ==> c in all
  {
  }

  lemma {:induction false} SignersSize(v: seq<Stamp>)
    requires OnePerSigner(v)
    ensures |Signers(v)| == |v|
  {
    if v != [] {
      var init, last := v[..|v| - 1], v[|v| - 1];
      assert v == init + [last];
      SignersSize(init);
      assert last.signer !in Signers(init);
      assert Signers(v) == Signers(init) + {last.signer};
    }
  }

  lemma OneVoucher(v: seq<Stamp>, c: Stamp, d: Stamp)
    requires OnePerSigner(v) && c in v && d in v && c.signer == d.signer
    ensures c == d
  {
  }

  /** With room for one more signer nothing is cut off: the new voucher joins the others. */
  lemma AddToWithRoom(v: seq<Stamp>, s: Stamp)
    requires OnePerSigner(v) && |Signers(v) + {s.signer}| <= MAX_VOUCHERS
    ensures var r := AddTo(v, s);
            && OnePerSigner(r)
            && (forall c :: c in r <==> c == s || (c in v && c.signer != s.signer))
            && Signers(r) == Signers(v) + {s.signer}
  {
    TakenInShape(v, s);
    var all := TakenIn(v, s);
    SignersSize(all);
    forall x ensures x in Signers(all) <==> x in Signers(v) + {s.signer} {
      if x in Signers(v) && x != s.signer {
        var c :| c in v && c.signer == x;
        assert c in all;
      }
      assert s in all;
    }
    assert Signers(all) == Signers(v) + {s.signer};
    assert AddTo(v, s) == all;
  }

  /** Only a full list drops vouchers, and none it drops is newer than one it keeps. */
  lemma AddToKeepsNewest(v: seq<Stamp>, s: Stamp, c: Stamp)
    requires c == s || (c in v && c.signer != s.signer)
    requires c !in AddTo(v, s)
    ensures |AddTo(v, s)| == MAX_VOUCHERS
    ensures forall d :: d in AddTo(v, s) ==> d.at >= c.at
  {
    TakenInShape(v, s);
    CutOffIsOlder(TakenIn(v, s), c);
  }

  lemma CutOffIsOlder(all: seq<Stamp>, c: Stamp)
    requires NewestFirst(all) && c in all && c !in Bounded(all)
    ensures |Bounded(all)| == MAX_VOUCHERS && forall d :: d in Bounded(all) ==> d.at >= c.at
  {
    var r := Bounded(all);
    var i :| 0 <= i < |all| && all[i] == c;
    forall h | 0 <= h < |r| ensures r[h] != c {
      assert r[h] in r;
    }
    forall d | d in r ensures d.at >= c.at {
      var j :| 0 <= j < |r| && r[j] == d;
      assert all[j] == d && Newer(all[j], all[i]);
    }
  }

  /** `r` is the list `v` once it took in `s`: bounded, newest first, one voucher per signer. */
  ghost predicate TakesIn(v: seq<Stamp>, s: Stamp, r: seq<Stamp>) {
    && 0 < |r| <= MAX_VOUCHERS && OnePerSigner(r) && NewestFirst(r)
    && (forall c :: c in r ==> c == s || (c in v && c.signer != s.signer))
    && (forall c :: c == s || (c in v && c.signer != s.signer) ==>
          c in r || (|r| == MAX_VOUCHERS && forall d :: d in r ==> d.at >= c.at))
  }

  /** Whatever is added, the list takes it in: only a full list drops anything, and its oldest. */
  lemma AddToTakesIn(v: seq<Stamp>, s: Stamp)
    requires OnePerSigner(v)
    ensures TakesIn(v, s, AddTo(v, s))
  {
    AddToKeepsShape(v, s);
    forall c | (c == s || (c in v && c.signer != s.signer)) && c !in AddTo(v, s)
      ensures |AddTo(v, s)| == MAX_VOUCHERS && forall d :: d in AddTo(v, s) ==> d.at >= c.at
    {
      AddToKeepsNewest(v, s, c);
    }
  }
}
