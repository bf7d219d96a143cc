/** Splitting and joining strings, and numbers written in hexadecimal and decimal. */
module Text {

  // ---------- split and join ----------

  function Split(s: string, c: char): (r: seq<string>)
    ensures |r| >= 1
  {
    if s == [] then [[]] else Prepend(s[0], Split(s[1..], c), c)
  }

  /** One more character in front of the parts. */
  function Prepend(x: char, parts: seq<string>, c: char): (r: seq<string>)
    requires |parts| >= 1
    ensures |r| >= 1
  {
    if x == c then [[]] + parts else [[x] + parts[0]] + parts[1..]
  }

  lemma PrependAppend(x: char, a: seq<string>, b: seq<string>, c: char)
    requires |a| >= 1
    ensures Prepend(x, a + b, c) == Prepend(x, a, c) + b
  {
    assert (a + b)[1..] == a[1..] + b;
  }

  function Join(parts: seq<string>, c: char): string {
    if parts == [] then []
    else if |parts| == 1 then parts[0]
    else parts[0] + [c] + Join(parts[1..], c)
  }

  predicate Without(s: string, c: char) {
    forall i :: 0 <= i < |s| ==> s[i] != c
  }

  lemma {:induction false} SplitWhole(s: string, c: char)
    requires Without(s, c)
    ensures Split(s, c) == [s]
  {
    if s != [] {
      SplitWhole(s[1..], c);
      assert [s[0]] + s[1..] == s;
    }
  }

  lemma {:induction false} SplitFirst(a: string, c: char, b: string)
    requires Without(a, c)
    ensures Split(a + [c] + b, c) == [a] + Split(b, c)
  {
    if a == [] {
      assert (a + [c] + b)[1..] == b;
    } else {
      SplitFirst(a[1..], c, b);
      assert (a + [c] + b)[1..] == a[1..] + [c] + b;
      assert [a[0]] + a[1..] == a;
    }
  }

  lemma {:induction false} SplitAppend(a: string, c: char, b: string)
    ensures Split(a + [c] + b, c) == Split(a, c) + Split(b, c)
  {
    var s := a + [c] + b;
    if a == [] {
      assert s[1..] == b;
    } else {
      SplitAppend(a[1..], c, b);
      assert s[1..] == a[1..] + [c] + b && s[0] == a[0];
      PrependAppend(a[0], Split(a[1..], c), Split(b, c), c);
    }
  }

  /** Splitting undoes joining when no part holds the separator. */
  lemma {:induction false} SplitJoin(parts: seq<string>, c: char)
    requires parts != [] && forall i :: 0 <= i < |parts| ==> Without(parts[i], c)
    ensures Split(Join(parts, c), c) == parts
  {
    if |parts| == 1 {
      SplitWhole(parts[0], c);
    } else {
      SplitJoin(parts[1..], c);
      SplitFirst(parts[0], c, Join(parts[1..], c));
    }
  }

  /** Joining undoes splitting, and no part holds the separator. */
  lemma {:induction false} JoinSplit(s: string, c: char)
    ensures Join(Split(s, c), c) == s
    ensures forall i :: 0 <= i < |Split(s, c)| ==> Without(Split(s, c)[i], c)
  {
    if s != [] {
      var r := Split(s[1..], c);
      JoinSplit(s[1..], c);
      if s[0] == c {
        assert ([[]] + r)[1..] == r;
        assert [] + [c] + s[1..] == s;
      } else {
        var t := [[s[0]] + r[0]] + r[1..];
        assert t[1..] == r[1..];
        assert Join(t, c) == [s[0]] + Join(r, c);
        assert [s[0]] + s[1..] == s;
      }
    }
  }

  /** Every character of a joined string is the separator or one of a part. */
  lemma {:induction false} JoinChars(parts: seq<string>, c: char, i: nat)
    requires i < |Join(parts, c)|
    ensures Join(parts, c)[i] == c || exists j :: 0 <= j < |parts| && Join(parts, c)[i] in parts[j]
  {
    if |parts| > 1 && i > |parts[0]| {
      JoinChars(parts[1..], c, i - |parts[0]| - 1);
      var x := Join(parts, c)[i];
      assert x == Join(parts[1..], c)[i - |parts[0]| - 1];
      if x != c {
        var j :| 0 <= j < |parts| - 1 && x in parts[1..][j];
        assert x in parts[j + 1];
      }
    } else if |parts| > 1 && i < |parts[0]| {
      assert Join(parts, c)[i] == parts[0][i];
    }
  }

  // ---------- hexadecimal ----------

  predicate HexDigit(c: char) {
    '0' <= c <= '9' || 'a' <= c <= 'f'
  }

  function HexDigitValue(c: char): (n: nat)
    requires HexDigit(c)
    ensures n < 16
  {
    if c <= '9' then (c - '0') as int else (c - 'a') as int + 10
  }

  function HexChar(n: nat): (c: char)
    requires n < 16
    ensures HexDigit(c) && HexDigitValue(c) == n
  {
    if n < 10 then '0' + n as char else 'a' + (n - 10) as char
  }

  predicate HexString(s: string) {
    forall i :: 0 <= i < |s| ==> HexDigit(s[i])
  }

  function HexValue(s: string): nat
    requires HexString(s)
  {
    if s == [] then 0 else 16 * HexValue(s[..|s| - 1]) + HexDigitValue(s[|s| - 1])
  }

  function Hex(n: nat): (s: string)
    ensures s != [] && HexString(s)
  {
    if n < 16 then [HexChar(n)] else Hex(n / 16) + [HexChar(n % 16)]
  }

  lemma {:induction false} HexRoundTrip(n: nat)
    ensures HexValue(Hex(n)) == n
  {
    if n >= 16 { HexRoundTrip(n / 16); }
  }

  /** At most four digits for a hextet. */
  lemma HexLength(n: nat)
    requires n < 0x1_0000
    ensures |Hex(n)| <= 4
  {
    var a := n / 16;
    var b := a / 16;
    assert b < 256 && b / 16 < 16;
    assert |Hex(b / 16)| == 1;
    assert |Hex(b)| <= 2;
    assert |Hex(a)| <= 3;
  }

  // ---------- decimal ----------

  predicate Digit(c: char) {
    '0' <= c <= '9'
  }

  predicate DecString(s: string) {
    forall i :: 0 <= i < |s| ==> Digit(s[i])
  }

  function DecValue(s: string): nat
    requires DecString(s)
  {
    if s == [] then 0 else 10 * DecValue(s[..|s| - 1]) + (s[|s| - 1] - '0') as int
  }

  function Dec(n: nat): (s: string)
    ensures s != [] && DecString(s)
  {
    if n < 10 then ['0' + n as char] else Dec(n / 10) + ['0' + (n % 10) as char]
  }

  /** Numbers are written without leading zeros, and only so. */
  predicate NoLeadingZero(s: string) {
    s != [] && (|s| > 1 ==> s[0] != '0')
  }

  lemma {:induction false} DecIsShortest(s: string)
    requires s != [] && DecString(s)
    ensures Dec(DecValue(s)) == s <==> NoLeadingZero(s)
    ensures NoLeadingZero(s) && |s| > 1 ==> DecValue(s) >= 10
  {
    if |s| == 1 {
      assert DecValue(s[..0]) == 0;
      assert DecValue(s) == (s[0] - '0') as int;
    } else {
      var init, d := s[..|s| - 1], (s[|s| - 1] - '0') as int;
      DecIsShortest(init);
      assert s == init + [s[|s| - 1]];
      assert init[0] == s[0];
      var v := DecValue(init);
      assert DecValue(s) == 10 * v + d && DecValue(s) / 10 == v && DecValue(s) % 10 == d;
      if v == 0 {
        assert Dec(DecValue(s)) == [s[|s| - 1]];
        if s[0] != '0' { FirstDigitCounts(init); }
      } else {
        assert Dec(DecValue(s)) == Dec(v) + [s[|s| - 1]];
        if Dec(DecValue(s)) == s {
          assert Dec(v) == init by { assert Dec(DecValue(s))[..|s| - 1] == Dec(v); }
        }
      }
    }
  }

  lemma {:induction false} FirstDigitCounts(s: string)
    requires s != [] && DecString(s) && s[0] != '0'
    ensures DecValue(s) > 0
  {
    if |s| > 1 { FirstDigitCounts(s[..|s| - 1]); }
  }
}
