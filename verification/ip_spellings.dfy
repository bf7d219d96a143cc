/** What the rate-limit key tells apart, and which headers are read as an address at all. */
module IpSpellings {
  import opened Common
  import opened Text
  import opened IpKeys

  ghost predicate Address(h: seq<nat>) {
    |h| == 8 && forall i :: 0 <= i < 8 ==> h[i] < 0x1_0000
  }

  // ---------- different /64s, different keys ----------

  function Prefix(h: seq<nat>): seq<string>
    requires |h| == 8
  {
    [Hex(h[0]), Hex(h[1]), Hex(h[2]), Hex(h[3])]
  }

  lemma HexHasNoColon(n: nat)
    ensures Without(Hex(n), ':')
  {
    assert HexString(Hex(n));
  }

  lemma PrefixReadsBack(h: seq<nat>, k: seq<nat>)
    requires |h| == 8 && |k| == 8
    ensures Join(Prefix(h), ':') == Join(Prefix(k), ':') ==> h[..4] == k[..4]
  {
    forall i | 0 <= i < 4 ensures Without(Prefix(h)[i], ':') && Without(Prefix(k)[i], ':') {
      HexHasNoColon(h[i]);
      HexHasNoColon(k[i]);
    }
    SplitJoin(Prefix(h), ':');
    SplitJoin(Prefix(k), ':');
    if Join(Prefix(h), ':') == Join(Prefix(k), ':') {
      forall i | 0 <= i < 4 ensures h[i] == k[i] {
        assert Hex(h[i]) == Prefix(h)[i] == Prefix(k)[i] == Hex(k[i]);
        HexRoundTrip(h[i]);
        HexRoundTrip(k[i]);
      }
    }
  }

  /** Two addresses outside the IPv4-mapped range share a key exactly when they share their /64. */
  lemma KeyIsTheNetwork(h: seq<nat>, k: seq<nat>)
    requires Address(h) && Address(k) && !Mapped(h) && !Mapped(k)
    ensures KeyOf(h) == KeyOf(k) <==> h[..4] == k[..4]
  {
    PrefixReadsBack(h, k);
    var a, b := Join(Prefix(h), ':'), Join(Prefix(k), ':');
    assert KeyOf(h) == "6:" + a + "::/64" && KeyOf(k) == "6:" + b + "::/64";
    if KeyOf(h) == KeyOf(k) {
      assert |a| == |b|;
      assert KeyOf(h)[2..2 + |a|] == a && KeyOf(k)[2..2 + |b|] == b;
    }
    if h[..4] == k[..4] {
      forall i | 0 <= i < 4 ensures h[i] == k[i] {
        assert h[i] == h[..4][i] && k[i] == k[..4][i];
      }
    }
  }

  /** So any spellings of two such addresses are limited together exactly when the networks agree. */
  lemma SpellingsShareKeyExactly(s: string, t: string, h: seq<nat>, k: seq<nat>)
    requires Spells(s, h) && Spells(t, k) && Address(h) && Address(k) && !Mapped(h) && !Mapped(k)
    ensures CoreKey(s) == CoreKey(t) <==> h[..4] == k[..4]
  {
    SpellingKey(s, h);
    SpellingKey(t, k);
    KeyIsTheNetwork(h, k);
  }

  // ---------- IPv4-mapped addresses ----------

  /** Four bytes written without leading zeros. */
  predicate Shortest(d: string)
    requires Dotted(d)
  {
    var p := Split(d, '.');
    forall i :: 0 <= i < 4 ==> NoLeadingZero(p[i])
  }

  lemma QuadOfBytes(d: string)
    requires Dotted(d)
    ensures Quad(Bytes(d)[0], Bytes(d)[1], Bytes(d)[2], Bytes(d)[3]) == d <==> Shortest(d)
  {
    var p, b := Split(d, '.'), Bytes(d);
    var q := [Dec(b[0]), Dec(b[1]), Dec(b[2]), Dec(b[3])];
    JoinSplit(d, '.');
    forall i | 0 <= i < 4 ensures q[i] == p[i] <==> NoLeadingZero(p[i]) {
      DecIsShortest(p[i]);
      assert b[i] == DecValue(p[i]) && q[i] == Dec(b[i]);
    }
    forall i | 0 <= i < 4 ensures Without(q[i], '.') {
      assert DecString(q[i]);
    }
    SplitJoin(q, '.');
    if Shortest(d) {
      assert q == p;
    }
  }

  /**
    An IPv4-mapped address, however spelled, is limited together with its plain dotted form
    exactly when that is written without leading zeros.
  */
  lemma MappedMeetsPlainExactly(s: string, h: seq<nat>, d: string)
    requires Spells(s, h) && Address(h) && Mapped(h) && Dotted(d) && ValidV4(d)
    requires Bytes(d) == [h[6] / 256, h[6] % 256, h[7] / 256, h[7] % 256]
    ensures CoreKey(s) == CoreKey(d) <==> Shortest(d)
  {
    SpellingKey(s, h);
    QuadOfBytes(d);
    assert CoreKey(d) == "4:" + d;
    var q := Quad(h[6] / 256, h[6] % 256, h[7] / 256, h[7] % 256);
    assert ("4:" + d)[2..] == d && ("4:" + q)[2..] == q;
  }

  /** Every dotted address is the tail of an IPv4-mapped one. */
  lemma MappedSpelling(h: seq<nat>, d: string)
    requires Address(h) && Mapped(h) && Dotted(d) && ValidV4(d)
    requires Bytes(d) == [h[6] / 256, h[6] % 256, h[7] / 256, h[7] % 256]
    ensures Spells("::ffff:" + d, h)
  {
    var tail := ["ffff", Hex(h[6]), Hex(h[7])];
    HexLength(h[6]);
    HexLength(h[7]);
    HexRoundTrip(h[6]);
    HexRoundTrip(h[7]);
    FourFs();
    assert Writes(tail, h[5..]);
    assert Join([Hex(h[6]), Hex(h[7])], ':') == Hex(h[6]) + ":" + Hex(h[7]);
    var s := "::ffff:" + Hex(h[6]) + ":" + Hex(h[7]);
    MappedShortForm(s, h, tail);
    assert DottedForm("::ffff:" + d, h, "::ffff:", d);
  }

  lemma MappedShortForm(s: string, h: seq<nat>, tail: seq<string>)
    requires |h| == 8 && Mapped(h) && |tail| == 3 && tail[0] == "ffff" && Writes(tail, h[5..])
    requires Join(tail[1..], ':') == tail[1] + ":" + tail[2] && s == "::ffff:" + tail[1] + ":" + tail[2]
    ensures HexForm(s, h)
  {
    assert Join(tail, ':') == "ffff" + [':'] + (tail[1] + ":" + tail[2]);
    assert s == [] + "::" + Join(tail, ':');
    assert Writes([], h[..0]);
    assert ShortForm(s, h, [], tail);
  }

  lemma FourFs()
    ensures HexGroup("ffff") && HexValue("ffff") == 0xffff
  {
    assert "ffff"[..3] == "fff" && "fff"[..2] == "ff" && "ff"[..1] == "f" && "f"[..0] == [];
    assert HexValue("f") == 15;
    assert HexValue("ff") == 255;
    assert HexValue("fff") == 4095;
  }

  /** Four numbers joined by dots are read back as they were written. */
  lemma DottedParts(p: seq<string>)
    requires |p| == 4 && forall i :: 0 <= i < 4 ==> 1 <= |p[i]| <= 3 && DecString(p[i])
    ensures Dotted(Join(p, '.')) && Split(Join(p, '.'), '.') == p
  {
    SplitJoin(p, '.');
  }

  lemma ExampleParts(last: string)
    requires last == "4" || last == "004"
    ensures var d := Join(["1", "2", "3", last], '.');
            Dotted(d) && ValidV4(d) && Bytes(d) == [1, 2, 3, 4] && (Shortest(d) <==> last == "4")
  {
    var p := ["1", "2", "3", last];
    SmallNumbers();
    DottedParts(p);
    assert Bytes(Join(p, '.')) == [1, 2, 3, 4];
    assert !NoLeadingZero("004") && NoLeadingZero("4") && p[3] == last;
    if last == "4" {
      forall i | 0 <= i < 4 ensures NoLeadingZero(p[i]) {
      }
    }
  }

  /** `1.2.3.004` has another key than `1.2.3.4`, which shares its key with the mapped address. */
  lemma LeadingZeroExample()
    ensures var plain, zeros := Join(["1", "2", "3", "4"], '.'), Join(["1", "2", "3", "004"], '.');
            CoreKey("::ffff:" + plain) == CoreKey(plain) != CoreKey(zeros)
  {
    ExampleParts("4");
    ExampleParts("004");
    LeadingZeros(Join(["1", "2", "3", "4"], '.'), Join(["1", "2", "3", "004"], '.'));
  }

  lemma LeadingZeros(plain: string, zeros: string)
    requires Dotted(plain) && ValidV4(plain) && Bytes(plain) == [1, 2, 3, 4] && Shortest(plain)
    requires Dotted(zeros) && ValidV4(zeros) && Bytes(zeros) == [1, 2, 3, 4] && !Shortest(zeros)
    ensures CoreKey("::ffff:" + plain) == CoreKey(plain) != CoreKey(zeros)
  {
    var h := [0, 0, 0, 0, 0, 0xffff, 0x102, 0x304];
    MappedSpelling(h, plain);
    MappedMeetsPlainExactly("::ffff:" + plain, h, plain);
    MappedMeetsPlainExactly("::ffff:" + plain, h, zeros);
  }

  lemma SmallNumbers()
    ensures DecString("1") && DecString("2") && DecString("3") && DecString("4") && DecString("004")
    ensures DecValue("1") == 1 && DecValue("2") == 2 && DecValue("3") == 3 && DecValue("4") == 4 && DecValue("004") == 4
  {
    assert "1"[..0] == [] && "2"[..0] == [] && "3"[..0] == [] && "4"[..0] == [] && "0"[..0] == [];
    assert "004"[..2] == "00" && "00"[..1] == "0";
    assert DecValue("0") == 0;
    assert DecValue("00") == 0;
  }

  // ---------- only spellings are read ----------

  lemma {:induction false} HalvesJoin(s: string)
    ensures |Halves(s)| == 1 ==> Halves(s)[0] == s
    ensures |Halves(s)| == 2 ==> s == Halves(s)[0] + "::" + Halves(s)[1]
  {
    if |s| >= 2 {
      if s[0] == ':' && s[1] == ':' {
        HalvesJoin(s[2..]);
        assert s == "::" + s[2..];
        if |Halves(s[2..])| == 1 { assert Halves(s) == [[], s[2..]]; }
      } else {
        HalvesJoin(s[1..]);
        assert s == [s[0]] + s[1..];
        var r := Halves(s[1..]);
        if |r| == 2 { OneMore(s[0], r[0], r[1]); }
      }
    }
  }

  lemma OneMore(c: char, a: string, b: string)
    ensures [c] + (a + "::" + b) == ([c] + a) + "::" + b
  {
  }

  lemma JoinPart(x: string)
    ensures Join(Part(x), ':') == x
  {
    if x != [] { JoinSplit(x, ':'); }
  }

  lemma ReadIsHexForm(s: string, h: seq<nat>)
    requires ReadHextets(s) == Some(h)
    ensures HexForm(s, h) && |h| == 8
  {
    var halves, gs := Halves(s), GroupsOf(s).value;
    HalvesJoin(s);
    assert |gs| == 8 && |h| == 8;
    assert Writes(gs, h);
    if |halves| == 2 {
      var head, tail := Part(halves[0]), Part(halves[1]);
      JoinPart(halves[0]);
      JoinPart(halves[1]);
      PaddedReads(h, head, tail);
      assert ShortForm(s, h, head, tail);
    } else {
      JoinPart(s);
      assert FullForm(s, h, gs);
    }
  }

  lemma PaddedReads(h: seq<nat>, head: seq<string>, tail: seq<string>)
    requires |h| == 8 && |head| + |tail| <= 7 && Writes(head + ZeroGroups(8 - |head| - |tail|) + tail, h)
    ensures Writes(head, h[..|head|]) && Writes(tail, h[8 - |tail|..])
    ensures forall i :: |head| <= i < 8 - |tail| ==> h[i] == 0
  {
    var n := 8 - |head| - |tail|;
    var gs := head + ZeroGroups(n) + tail;
    ZeroIsZero();
    forall i | 0 <= i < |head| ensures HexGroup(head[i]) && HexValue(head[i]) == h[..|head|][i] {
      assert gs[i] == head[i];
    }
    forall i | 0 <= i < |tail| ensures HexGroup(tail[i]) && HexValue(tail[i]) == h[8 - |tail|..][i] {
      assert gs[8 - |tail| + i] == tail[i];
    }
    forall i | |head| <= i < 8 - |tail| ensures h[i] == 0 {
      assert gs[i] == "0";
    }
  }

  /** Every address has a spelling's hextets within sixteen bits. */
  lemma {:induction false} HexBound(g: string)
    requires HexString(g) && |g| <= 4
    ensures HexValue(g) < 0x1_0000
    ensures |g| <= 3 ==> HexValue(g) < 0x1000
    ensures |g| <= 2 ==> HexValue(g) < 0x100
    ensures |g| <= 1 ==> HexValue(g) < 0x10
  {
    if g != [] { HexBound(g[..|g| - 1]); }
  }

  lemma {:induction false} HexFormIsAddress(s: string, h: seq<nat>)
    requires HexForm(s, h)
    ensures Address(h)
  {
    HexFormReads(s, h);
    var gs := GroupsOf(s).value;
    forall i | 0 <= i < 8 ensures h[i] < 0x1_0000 {
      assert h[i] == HexValue(gs[i]);
      HexBound(gs[i]);
    }
  }

  /** A header is limited as an IPv6 address exactly when it spells one. */
  lemma ReadExactlySpellings(s: string)
    requires !Dotted(s)
    ensures CoreKey(s) != UNKNOWN <==> exists h :: Spells(s, h) && Address(h)
  {
    if h :| Spells(s, h) && Address(h) {
      SpellingKey(s, h);
      assert KeyOf(h)[0] != 'u';
    }
    if CoreKey(s) != UNKNOWN {
      var t := Expand(s).value;
      var h := ReadHextets(t).value;
      ReadIsHexForm(t, h);
      HexFormIsAddress(t, h);
      ExpandedSpells(s, t, h);
    }
  }

  lemma ExpandedSpells(s: string, t: string, h: seq<nat>)
    requires Expand(s) == Some(t) && HexForm(t, h) && Address(h)
    ensures Spells(s, h)
  {
    var k := AfterLastColon(s);
    if k > 0 && Dotted(s[k..]) {
      var p, d := s[..k], s[k..];
      var o := Bytes(d);
      assert s == p + d;
      TailHextets(p, 256 * o[0] + o[1], 256 * o[2] + o[3], h);
      assert DottedForm(s, h, p, d);
    }
  }

  /** Where the last two parts of a shortened address come from. */
  lemma ShortFormEnds(head: seq<string>, tail: seq<string>)
    requires Groups(head) && Groups(tail)
    ensures var w := Split(Join(head, ':') + "::" + Join(tail, ':'), ':');
            && |w| >= 2
            && (|tail| == 0 ==> w[|w| - 1] == [])
            && (|tail| == 1 ==> w[|w| - 2] == [])
            && (|tail| >= 2 ==> w[|w| - 2] == tail[|tail| - 2] && w[|w| - 1] == tail[|tail| - 1])
  {
    SplitDouble(Join(head, ':'), Join(tail, ':'));
    if tail != [] { SplitJoin(tail, ':'); }
  }

  lemma SplitDouble(a: string, b: string)
    ensures Split(a + "::" + b, ':') == Split(a, ':') + [[]] + Split(b, ':')
  {
    assert a + "::" + b == (a + ":") + [':'] + b;
    assert a + ":" == a + [':'] + [];
    SplitAppend(a + ":", ':', b);
    SplitAppend(a, ':', []);
  }

  lemma LastTwoParts(p: string, x: string, y: string)
    requires p != [] && p[|p| - 1] == ':' && Without(x, ':') && Without(y, ':')
    ensures var w := Split(p + x + ":" + y, ':'); |w| >= 2 && w[|w| - 2] == x && w[|w| - 1] == y
  {
    var q := p[..|p| - 1];
    assert p + x + ":" + y == (q + [':'] + x) + [':'] + y;
    SplitAppend(q + [':'] + x, ':', y);
    SplitAppend(q, ':', x);
    SplitWhole(x, ':');
    SplitWhole(y, ':');
  }

  lemma FullFormEnds(s: string, h: seq<nat>, gs: seq<string>, x: string, y: string)
    requires FullForm(s, h, gs)
    requires var w := Split(s, ':'); |w| >= 2 && w[|w| - 2] == x && w[|w| - 1] == y
    ensures HexString(x) && HexString(y) && h[6] == HexValue(x) && h[7] == HexValue(y)
  {
    SplitJoin(gs, ':');
  }

  lemma ShortFormTail(s: string, h: seq<nat>, head: seq<string>, tail: seq<string>, x: string, y: string)
    requires ShortForm(s, h, head, tail) && x != [] && y != []
    requires var w := Split(s, ':'); |w| >= 2 && w[|w| - 2] == x && w[|w| - 1] == y
    ensures HexString(x) && HexString(y) && h[6] == HexValue(x) && h[7] == HexValue(y)
  {
    ShortFormEnds(head, tail);
    var t := h[8 - |tail|..];
    assert |tail| >= 2 && tail[|tail| - 2] == x && tail[|tail| - 1] == y;
    assert t[|tail| - 2] == h[6] && t[|tail| - 1] == h[7];
  }

  /** The last two groups of an expanded address are its last two hextets. */
  lemma TailHextets(p: string, a: nat, b: nat, h: seq<nat>)
    requires HexForm(p + Hex(a) + ":" + Hex(b), h) && p != [] && p[|p| - 1] == ':'
    ensures |h| == 8 && h[6] == a && h[7] == b
  {
    var s := p + Hex(a) + ":" + Hex(b);
    HexHasNoColon(a);
    HexHasNoColon(b);
    LastTwoParts(p, Hex(a), Hex(b));
    HexRoundTrip(a);
    HexRoundTrip(b);
    if gs :| FullForm(s, h, gs) {
      FullFormEnds(s, h, gs, Hex(a), Hex(b));
    } else {
      var head, tail :| ShortForm(s, h, head, tail);
      ShortFormTail(s, h, head, tail, Hex(a), Hex(b));
    }
  }

  // ---------- the header around the address ----------

  /** What may stand around a spelling: space, brackets, upper case, and a zone id. */
  datatype Dress = Dress(before: string, bracketed: bool, text: string, zone: string, after: string)

  function Body(d: Dress): string {
    (if d.bracketed then "[" else "") + d.text + d.zone + (if d.bracketed then "]" else "")
  }

  function Header(d: Dress): string {
    d.before + Body(d) + d.after
  }

  predicate AllSpace(s: string) {
    forall i :: 0 <= i < |s| ==> Space(s[i])
  }

  /** A zone id starts with a percent sign; outside brackets the space after it is not part of it. */
  predicate WellDressed(d: Dress, s: string) {
    && AllSpace(d.before) && AllSpace(d.after) && s != [] && Lower(d.text) == s && Allowed(s)
    && (d.zone != [] ==> d.zone[0] == '%' && (!d.bracketed ==> !Space(d.zone[|d.zone| - 1])))
  }

  lemma {:induction false} TrimmedStart(a: string, s: string)
    requires AllSpace(a) && s != [] && !Space(s[0])
    ensures TrimStart(a + s) == s
  {
    if a == [] {
      assert a + s == s;
    } else {
      TrimmedStart(a[1..], s);
      assert (a + s)[1..] == a[1..] + s;
    }
  }

  lemma {:induction false} TrimmedEnd(s: string, b: string)
    requires AllSpace(b) && s != [] && !Space(s[|s| - 1])
    ensures TrimEnd(s + b) == s
  {
    if b == [] {
      assert s + b == s;
    } else {
      TrimmedEnd(s, b[..|b| - 1]);
      assert (s + b)[..|s + b| - 1] == s + b[..|b| - 1];
    }
  }

  lemma {:induction false} ZoneIsCut(s: string, zone: string)
    requires Allowed(s) && (zone != [] ==> zone[0] == '%')
    ensures CutZone(s + zone) == s
  {
    if s == [] {
      assert s + zone == zone;
    } else {
      ZoneIsCut(s[1..], zone);
      assert (s + zone)[1..] == s[1..] + zone;
      assert [s[0]] + s[1..] == s;
    }
  }

  lemma BodyIsTight(d: Dress, s: string)
    requires WellDressed(d, s)
    ensures var b := Body(d); b != [] && !Space(b[0]) && !Space(b[|b| - 1])
  {
    var b := Body(d);
    assert |d.text| == |s|;
    assert LowerChar(d.text[0]) == s[0] && LowerChar(d.text[|s| - 1]) == s[|s| - 1];
    if d.bracketed {
      assert b[0] == '[' && b[|b| - 1] == ']';
    } else {
      assert b == d.text + d.zone;
    }
  }

  lemma LowerAppend(a: string, b: string)
    ensures Lower(a + b) == Lower(a) + Lower(b)
  {
  }

  lemma LowerBody(d: Dress, s: string)
    requires WellDressed(d, s)
    ensures Unbracket(Lower(Body(d))) == s + Lower(d.zone)
  {
    var inner := s + Lower(d.zone);
    LowerAppend(d.text, d.zone);
    if d.bracketed {
      assert Body(d) == "[" + (d.text + d.zone) + "]";
      LowerAppend("[" + (d.text + d.zone), "]");
      LowerAppend("[", d.text + d.zone);
      assert Lower("[") == "[" && Lower("]") == "]";
      assert ("[" + inner + "]")[1..|inner| + 1] == inner;
    } else {
      assert Body(d) == d.text + d.zone;
      assert inner[0] == s[0];
    }
  }

  /** Space, brackets, upper case and a zone id around an address are all taken off. */
  lemma DressIsTakenOff(d: Dress, s: string)
    requires WellDressed(d, s)
    ensures Core(Header(d)) == s
  {
    BodyIsTight(d, s);
    assert Header(d) == d.before + (Body(d) + d.after);
    TrimmedStart(d.before, Body(d) + d.after);
    TrimmedEnd(Body(d), d.after);
    LowerBody(d, s);
    ZoneIsCut(s, Lower(d.zone));
  }

  lemma SpellsAllowed(s: string, h: seq<nat>)
    requires Spells(s, h)
    ensures Allowed(s) && s != []
  {
    if HexForm(s, h) {
      HexFormReads(s, h);
    } else {
      var p, d :| DottedForm(s, h, p, d);
      HexFormReads(p + Hex(h[6]) + ":" + Hex(h[7]), h);
      DottedAllowed(s, p, d, p + Hex(h[6]) + ":" + Hex(h[7]));
    }
  }

  /** Every header that spells an address, in any dress, is limited by the key of the address. */
  lemma HeaderKey(d: Dress, s: string, h: seq<nat>)
    requires Spells(s, h) && Lower(d.text) == s && AllSpace(d.before) && AllSpace(d.after)
    requires d.zone != [] ==> d.zone[0] == '%' && (!d.bracketed ==> !Space(d.zone[|d.zone| - 1]))
    ensures |h| == 8 && IpKey(Header(d)) == KeyOf(h)
  {
    SpellsAllowed(s, h);
    DressIsTakenOff(d, s);
    SpellingKey(s, h);
  }
}
