/** The rate-limit key of a client address, and the spellings of an IPv6 address it reads. */
module IpKeys {
  import opened Common
  import opened Text

  // ---------- tidying the header ----------

  predicate Space(c: char) {
    || '\t' <= c <= '\r' || c == ' ' || c == '\U{A0}' || c == '\U{1680}' || '\U{2000}' <= c <= '\U{200A}'
    || c == '\U{2028}' || c == '\U{2029}' || c == '\U{202F}' || c == '\U{205F}' || c == '\U{3000}' || c == '\U{FEFF}'
  }

  /** The white space and line ends a script trims. */
  lemma SpaceIsTrimmed(c: char)
    ensures Space(c) <==>
              c as int in [9, 10, 11, 12, 13, 32, 160, 5760, 8192, 8193, 8194, 8195, 8196, 8197, 8198, 8199, 8200, 8201,
                           8202, 8232, 8233, 8239, 8287, 12288, 65279]
  {
  }

  function TrimStart(s: string): string {
    if s != [] && Space(s[0]) then TrimStart(s[1..]) else s
  }

  function TrimEnd(s: string): string {
    if s != [] && Space(s[|s| - 1]) then TrimEnd(s[..|s| - 1]) else s
  }

  function Lower(s: string): (r: string)
    ensures |r| == |s|
  {
    seq(|s|, i requires 0 <= i < |s| => LowerChar(s[i]))
  }

  function LowerChar(c: char): char {
    if 'A' <= c <= 'Z' then 'a' + (c - 'A') else c
  }

  /** The 26 capitals of ASCII, each 32 before its small letter. */
  lemma LowerIsAscii(c: char)
    ensures LowerChar(c) as int == if 65 <= c as int <= 90 then c as int + 32 else c as int
  {
  }

  function Unbracket(s: string): string {
    if |s| >= 2 && s[0] == '[' && s[|s| - 1] == ']' then s[1..|s| - 1] else s
  }

  /** Drop a zone id. */
  function CutZone(s: string): string {
    if s == [] || s[0] == '%' then [] else [s[0]] + CutZone(s[1..])
  }

  function Core(raw: string): string {
    CutZone(Unbracket(Lower(TrimEnd(TrimStart(raw)))))
  }

  // ---------- dotted IPv4 ----------

  predicate Dotted(s: string) {
    var p := Split(s, '.');
    |p| == 4 && forall i :: 0 <= i < 4 ==> 1 <= |p[i]| <= 3 && DecString(p[i])
  }

  function Bytes(s: string): (r: seq<nat>)
    requires Dotted(s)
    ensures |r| == 4
  {
    var p := Split(s, '.');
    [DecValue(p[0]), DecValue(p[1]), DecValue(p[2]), DecValue(p[3])]
  }

  predicate ValidV4(s: string)
    requires Dotted(s)
  {
    forall i :: 0 <= i < 4 ==> Bytes(s)[i] <= 255
  }

  lemma UnbracketIs(s: string)
    ensures Unbracket("[" + s + "]") == s
  {
    var t := "[" + s + "]";
    assert t[1..|t| - 1] == s;
  }

  /** Four numbers are an address if none is past 255. */
  lemma ValidV4Is(s: string)
    requires Dotted(s)
    ensures ValidV4(s) <==> var p := Split(s, '.');
              DecValue(p[0]) < 256 && DecValue(p[1]) < 256 && DecValue(p[2]) < 256 && DecValue(p[3]) < 256
  {
    if ValidV4(s) { assert Bytes(s)[0] <= 255 && Bytes(s)[1] <= 255 && Bytes(s)[2] <= 255 && Bytes(s)[3] <= 255; }
  }

  // ---------- IPv6 ----------

  predicate Allowed(s: string) {
    forall i :: 0 <= i < |s| ==> HexDigit(s[i]) || s[i] == ':' || s[i] == '.'
  }

  function AfterLastColon(s: string): (k: nat)
    ensures k <= |s|
    ensures k > 0 ==> s[k - 1] == ':'
  {
    if s == [] then 0 else if s[|s| - 1] == ':' then |s| else AfterLastColon(s[..|s| - 1])
  }

  /** Write a dotted tail as two hextets; `None` when its numbers are no bytes. */
  function Expand(s: string): Option<string> {
    var k := AfterLastColon(s);
    if k > 0 && Dotted(s[k..]) then
      if !ValidV4(s[k..]) then None
      else
        var o := Bytes(s[k..]);
        Some(s[..k] + Hex(256 * o[0] + o[1]) + ":" + Hex(256 * o[2] + o[3]))
    else Some(s)
  }

  /** Split at each `::`, from the left. */
  function Halves(s: string): (r: seq<string>)
    ensures |r| >= 1
  {
    if |s| < 2 then [s]
    else if s[0] == ':' && s[1] == ':' then [[]] + Halves(s[2..])
    else
      var r := Halves(s[1..]);
      [[s[0]] + r[0]] + r[1..]
  }

  function Part(x: string): seq<string> {
    if x == [] then [] else Split(x, ':')
  }

  function ZeroGroups(n: nat): (r: seq<string>)
    ensures |r| == n
  {
    seq(n, i => "0")
  }

  predicate HexGroup(g: string) {
    1 <= |g| <= 4 && HexString(g)
  }

  /** The eight groups, or `None` when there are not eight of them. */
  function GroupsOf(s: string): Option<seq<string>> {
    var h := Halves(s);
    if |h| > 2 then None
    else if |h| == 2 then
      var (head, tail) := (Part(h[0]), Part(h[1]));
      if |head| + |tail| > 7 then None else Some(head + ZeroGroups(8 - |head| - |tail|) + tail)
    else if |Part(h[0])| == 8 then Some(Part(h[0])) else None
  }

  function ReadHextets(s: string): Option<seq<nat>> {
    match GroupsOf(s)
    case None => None
    case Some(gs) =>
      if forall i :: 0 <= i < |gs| ==> HexGroup(gs[i])
      then Some(seq(|gs|, i requires 0 <= i < |gs| => HexValue(gs[i]))) else None
  }

  predicate Mapped(h: seq<nat>)
    requires |h| == 8
  {
    h[0] == h[1] == h[2] == h[3] == h[4] == 0 && h[5] == 0xffff
  }

  function Quad(a: nat, b: nat, c: nat, d: nat): string {
    Join([Dec(a), Dec(b), Dec(c), Dec(d)], '.')
  }

  function KeyOf(h: seq<nat>): string
    requires |h| == 8
  {
    if Mapped(h) then "4:" + Quad(h[6] / 256, h[6] % 256, h[7] / 256, h[7] % 256)
    else "6:" + Join([Hex(h[0]), Hex(h[1]), Hex(h[2]), Hex(h[3])], ':') + "::/64"
  }

  const UNKNOWN: string := "unknown"

  function CoreKey(s: string): string {
    if Dotted(s) then (if ValidV4(s) then "4:" + s else UNKNOWN)
    else if Without(s, ':') || !Allowed(s) then UNKNOWN
    else
      match Expand(s)
      case None => UNKNOWN
      case Some(t) =>
        match ReadHextets(t)
        case None => UNKNOWN
        case Some(h) => if |h| == 8 then KeyOf(h) else UNKNOWN
  }

  /** Four numbers with dots have a key of their own if none is past 255, and else the shared one. */
  lemma PlainKeyExactly(s: string)
    requires Dotted(s)
    ensures CoreKey(s) == "4:" + s <==> var p := Split(s, '.');
              DecValue(p[0]) < 256 && DecValue(p[1]) < 256 && DecValue(p[2]) < 256 && DecValue(p[3]) < 256
    ensures CoreKey(s) == "4:" + s || CoreKey(s) == "unknown"
  {
    ValidV4Is(s);
    assert UNKNOWN[0] != ("4:" + s)[0];
  }

  function IpKey(raw: string): string {
    CoreKey(Core(raw))
  }

  // ---------- the spellings of an address ----------

  /** Each group writes one hextet in one to four hexadecimal digits. */
  ghost predicate Writes(gs: seq<string>, hs: seq<nat>) {
    |gs| == |hs| && forall i :: 0 <= i < |gs| ==> HexGroup(gs[i]) && HexValue(gs[i]) == hs[i]
  }

  ghost predicate FullForm(s: string, h: seq<nat>, gs: seq<string>) {
    |h| == 8 && Writes(gs, h) && s == Join(gs, ':')
  }

  /** One `::` stands for at least one group of zeros. */
  ghost predicate ShortForm(s: string, h: seq<nat>, head: seq<string>, tail: seq<string>) {
    && |h| == 8 && |head| + |tail| <= 7
    && s == Join(head, ':') + "::" + Join(tail, ':')
    && Writes(head, h[..|head|]) && Writes(tail, h[8 - |tail|..])
    && forall i :: |head| <= i < 8 - |tail| ==> h[i] == 0
  }

  ghost predicate HexForm(s: string, h: seq<nat>) {
    (exists gs :: FullForm(s, h, gs)) || (exists head, tail :: ShortForm(s, h, head, tail))
  }

  /** The last two hextets written as a dotted IPv4 address after a colon. */
  ghost predicate DottedForm(s: string, h: seq<nat>, p: string, d: string) {
    && |h| == 8 && p != [] && p[|p| - 1] == ':' && s == p + d && Dotted(d) && ValidV4(d)
    && 256 * Bytes(d)[0] + Bytes(d)[1] == h[6] && 256 * Bytes(d)[2] + Bytes(d)[3] == h[7]
    && HexForm(p + Hex(h[6]) + ":" + Hex(h[7]), h)
  }

  /** `s` spells the address `h` in lower case: section 2.2 of RFC 4291. */
  ghost predicate Spells(s: string, h: seq<nat>) {
    HexForm(s, h) || exists p, d :: DottedForm(s, h, p, d)
  }

  // ---------- reading the forms ----------

  ghost predicate NoDouble(s: string) {
    forall i :: 0 <= i < |s| - 1 ==> !(s[i] == ':' && s[i + 1] == ':')
  }

  ghost predicate Groups(gs: seq<string>) {
    forall i :: 0 <= i < |gs| ==> HexGroup(gs[i])
  }

  /** Joined groups hold single colons, and neither start nor end with one. */
  lemma {:induction false} JoinedGroups(gs: seq<string>)
    requires Groups(gs)
    ensures var s := Join(gs, ':');
            && NoDouble(s) && (gs != [] <==> s != [])
            && (s != [] ==> s[0] != ':' && s[|s| - 1] != ':')
            && forall i :: 0 <= i < |s| ==> s[i] == ':' || HexDigit(s[i])
  {
    if |gs| > 1 {
      JoinedGroups(gs[1..]);
      var t := Join(gs[1..], ':');
      var s := Join(gs, ':');
      assert s == gs[0] + [':'] + t;
      var n := |gs[0]|;
      forall i | 0 <= i < |s| ensures s[i] == if i < n then gs[0][i] else if i == n then ':' else t[i - n - 1] {}
    }
  }

  lemma {:induction false} HalvesWhole(s: string)
    requires NoDouble(s)
    ensures Halves(s) == [s]
  {
    if |s| >= 2 {
      HalvesWhole(s[1..]);
      assert [s[0]] + s[1..] == s;
    }
  }

  lemma {:induction false} HalvesFirst(a: string, b: string)
    requires NoDouble(a) && (a != [] ==> a[|a| - 1] != ':')
    ensures Halves(a + "::" + b) == [a] + Halves(b)
  {
    var s := a + "::" + b;
    if a == [] {
      assert s[2..] == b;
    } else {
      HalvesFirst(a[1..], b);
      assert s[1..] == a[1..] + "::" + b;
      assert [a[0]] + a[1..] == a;
      assert s[0] == a[0] && (|a| > 1 ==> s[1] == a[1]);
    }
  }

  lemma PartJoin(gs: seq<string>)
    requires Groups(gs)
    ensures Part(Join(gs, ':')) == gs
  {
    JoinedGroups(gs);
    if gs != [] { SplitJoin(gs, ':'); }
  }

  lemma FullFormReads(s: string, h: seq<nat>, gs: seq<string>)
    requires FullForm(s, h, gs)
    ensures ReadHextets(s) == Some(h)
  {
    JoinedGroups(gs);
    HalvesWhole(s);
    PartJoin(gs);
    WrittenReads(s, h, gs);
  }

  lemma ShortFormGroups(s: string, h: seq<nat>, head: seq<string>, tail: seq<string>)
    requires ShortForm(s, h, head, tail)
    ensures GroupsOf(s) == Some(head + ZeroGroups(8 - |head| - |tail|) + tail)
  {
    var a, b := Join(head, ':'), Join(tail, ':');
    ShortHalves(head, tail);
    PartJoin(head);
    PartJoin(tail);
    assert Halves(s)[0] == a && Halves(s)[1] == b;
  }

  lemma ShortHalves(head: seq<string>, tail: seq<string>)
    requires Groups(head) && Groups(tail)
    ensures Halves(Join(head, ':') + "::" + Join(tail, ':')) == [Join(head, ':'), Join(tail, ':')]
  {
    JoinedGroups(head);
    JoinedGroups(tail);
    HalvesFirst(Join(head, ':'), Join(tail, ':'));
    HalvesWhole(Join(tail, ':'));
  }

  lemma PaddedWrites(h: seq<nat>, head: seq<string>, tail: seq<string>)
    requires |h| == 8 && |head| + |tail| <= 7
    requires Writes(head, h[..|head|]) && Writes(tail, h[8 - |tail|..])
    requires forall i :: |head| <= i < 8 - |tail| ==> h[i] == 0
    ensures Writes(head + ZeroGroups(8 - |head| - |tail|) + tail, h)
  {
    var n := 8 - |head| - |tail|;
    var gs := head + ZeroGroups(n) + tail;
    ZeroIsZero();
    forall i | 0 <= i < 8 ensures HexGroup(gs[i]) && HexValue(gs[i]) == h[i] {
      if i < |head| {
        assert gs[i] == head[i] && h[..|head|][i] == h[i];
      } else if i < |head| + n {
        assert gs[i] == "0";
      } else {
        assert gs[i] == tail[i - |head| - n] && h[8 - |tail|..][i - |head| - n] == h[i];
      }
    }
  }

  lemma WrittenReads(s: string, h: seq<nat>, gs: seq<string>)
    requires GroupsOf(s) == Some(gs) && Writes(gs, h)
    ensures ReadHextets(s) == Some(h)
  {
    assert seq(|gs|, i requires 0 <= i < |gs| => HexValue(gs[i])) == h;
  }

  lemma ShortFormReads(s: string, h: seq<nat>, head: seq<string>, tail: seq<string>)
    requires ShortForm(s, h, head, tail)
    ensures ReadHextets(s) == Some(h)
  {
    ShortFormGroups(s, h, head, tail);
    PaddedWrites(h, head, tail);
    WrittenReads(s, h, head + ZeroGroups(8 - |head| - |tail|) + tail);
  }

  lemma ZeroIsZero()
    ensures HexString("0") && HexValue("0") == 0
  {
    assert HexValue("0"[..0]) == 0;
  }

  /** Hexadecimal digits and colons, with a colon among them. */
  ghost predicate HexAndColons(s: string) {
    !Without(s, ':') && forall i :: 0 <= i < |s| ==> s[i] == ':' || HexDigit(s[i])
  }

  lemma FullFormChars(s: string, h: seq<nat>, gs: seq<string>)
    requires FullForm(s, h, gs)
    ensures HexAndColons(s)
  {
    JoinedGroups(gs);
    assert s == gs[0] + [':'] + Join(gs[1..], ':');
    assert s[|gs[0]|] == ':';
  }

  lemma ShortFormChars(s: string, h: seq<nat>, head: seq<string>, tail: seq<string>)
    requires ShortForm(s, h, head, tail)
    ensures HexAndColons(s)
  {
    JoinedGroups(head);
    JoinedGroups(tail);
    var a, b := Join(head, ':'), Join(tail, ':');
    assert s[|a|] == ':';
    forall i | 0 <= i < |s| ensures s[i] == ':' || HexDigit(s[i]) {
      assert s[i] == if i < |a| then a[i] else if i < |a| + 2 then ':' else b[i - |a| - 2];
    }
  }

  /** What is read of a spelling, and the characters it holds. */
  lemma HexFormReads(s: string, h: seq<nat>)
    requires HexForm(s, h)
    ensures ReadHextets(s) == Some(h) && |h| == 8 && HexAndColons(s)
  {
    if gs :| FullForm(s, h, gs) {
      FullFormReads(s, h, gs);
      FullFormChars(s, h, gs);
    } else {
      var head, tail :| ShortForm(s, h, head, tail);
      ShortFormReads(s, h, head, tail);
      ShortFormChars(s, h, head, tail);
    }
  }

  // ---------- a dotted tail ----------

  /** A dotted address is digits and dots, with a dot in it. */
  lemma DottedChars(d: string)
    requires Dotted(d)
    ensures !Without(d, '.')
    ensures forall i :: 0 <= i < |d| ==> d[i] == '.' || Digit(d[i])
  {
    var p := Split(d, '.');
    JoinSplit(d, '.');
    if Without(d, '.') { SplitWhole(d, '.'); }
    forall i | 0 <= i < |d| ensures d[i] == '.' || Digit(d[i]) {
      JoinChars(p, '.', i);
      if d[i] != '.' {
        var j :| 0 <= j < |p| && d[i] in p[j];
      }
    }
  }

  lemma {:induction false} ColonThen(p: string, d: string)
    requires p != [] && p[|p| - 1] == ':' && Without(d, ':')
    ensures AfterLastColon(p + d) == |p|
  {
    if d == [] {
      assert p + d == p;
    } else {
      ColonThen(p, d[..|d| - 1]);
      assert (p + d)[..|p + d| - 1] == p + d[..|d| - 1];
    }
  }

  /** A string with a colon, or one without a dot, is no dotted address. */
  lemma NotDotted(s: string)
    requires !Without(s, ':') || Without(s, '.')
    ensures !Dotted(s)
  {
    if Dotted(s) { DottedChars(s); }
  }

  lemma ReadKey(s: string, h: seq<nat>)
    requires ReadHextets(s) == Some(h) && |h| == 8 && HexAndColons(s)
    ensures CoreKey(s) == KeyOf(h)
  {
    NotDotted(s);
    var k := AfterLastColon(s);
    NotDotted(s[k..]);
  }

  lemma DottedExpands(s: string, h: seq<nat>, p: string, d: string)
    requires DottedForm(s, h, p, d)
    ensures Expand(s) == Some(p + Hex(h[6]) + ":" + Hex(h[7])) && s[|p| - 1] == ':'
  {
    DottedChars(d);
    ColonThen(p, d);
    assert s[..|p|] == p && s[|p|..] == d;
  }

  lemma DottedAllowed(s: string, p: string, d: string, t: string)
    requires s == p + d && p <= t && HexAndColons(t) && Dotted(d)
    ensures Allowed(s)
  {
    DottedChars(d);
    forall i | 0 <= i < |s| ensures HexDigit(s[i]) || s[i] == ':' || s[i] == '.' {
      if i < |p| { assert s[i] == t[i]; } else { assert s[i] == d[i - |p|]; }
    }
  }

  lemma DottedFormKey(s: string, h: seq<nat>, p: string, d: string)
    requires DottedForm(s, h, p, d)
    ensures CoreKey(s) == KeyOf(h)
  {
    var t := p + Hex(h[6]) + ":" + Hex(h[7]);
    HexFormReads(t, h);
    DottedExpands(s, h, p, d);
    DottedAllowed(s, p, d, t);
    NotDotted(s);
  }

  /** Every spelling of an address gives the one key of the address. */
  lemma SpellingKey(s: string, h: seq<nat>)
    requires Spells(s, h)
    ensures |h| == 8 && CoreKey(s) == KeyOf(h)
  {
    if HexForm(s, h) {
      HexFormReads(s, h);
      ReadKey(s, h);
    } else {
      var p, d :| DottedForm(s, h, p, d);
      DottedFormKey(s, h, p, d);
    }
  }
}
