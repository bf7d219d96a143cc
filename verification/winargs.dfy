/** Arguments quoted for a Windows command line, and the rules that read such a line back. */
module WinArgs {

  function Repeat(c: char, n: nat): (r: string)
    ensures |r| == n
  {
    seq(n, i => c)
  }

  // ---------- quoting ----------

  /** Only a nonempty argument without blanks or quotes goes as it is. */
  predicate Plain(s: string) {
    s != [] && forall i :: 0 <= i < |s| ==> s[i] != ' ' && s[i] != '\t' && s[i] != '"'
  }

  /** The rest of a quoted argument with `slashes` backslashes held back, to the closing quote. */
  function Body(s: string, slashes: nat): string {
    if s == [] then Repeat('\\', 2 * slashes) + "\""
    else if s[0] == '\\' then Body(s[1..], slashes + 1)
    else if s[0] == '"' then Repeat('\\', 2 * slashes + 1) + "\"" + Body(s[1..], 0)
    else Repeat('\\', slashes) + [s[0]] + Body(s[1..], 0)
  }

  function Quote(s: string): string {
    if Plain(s) then s else "\"" + Body(s, 0)
  }

  method WinArg(s: string) returns (out: string)
    ensures out == Quote(s)
  {
    if Plain(s) {
      return s;
    }
    out := "\"";
    var slashes := 0;
    for i := 0 to |s|
      invariant Quote(s) == out + Body(s[i..], slashes)
    {
      var c := s[i];
      assert s[i..][0] == c && s[i..][1..] == s[i + 1..];
      if c == '\\' {
        slashes := slashes + 1;
      } else if c == '"' {
        assert Body(s[i..], slashes) == Repeat('\\', slashes * 2 + 1) + "\"" + Body(s[i + 1..], 0);
        out := out + Repeat('\\', slashes * 2 + 1);
        out := out + "\"";
        slashes := 0;
      } else {
        assert Body(s[i..], slashes) == Repeat('\\', slashes) + [c] + Body(s[i + 1..], 0);
        out := out + Repeat('\\', slashes);
        out := out + [c];
        slashes := 0;
      }
    }
    assert s[|s|..] == [];
    out := out + Repeat('\\', slashes * 2);
    out := out + "\"";
  }

  // ---------- reading a line back ----------

  /** The backslashes a string starts with. */
  function Slashes(s: string): (n: nat)
    ensures n <= |s|
  {
    if s == [] || s[0] != '\\' then 0 else 1 + Slashes(s[1..])
  }

  /** The arguments of the line `s` after `args`, with `cur` read of the next one; `any`: there is a next one. */
  function Parse(s: string, cur: string, quoted: bool, any: bool, args: seq<string>): seq<string>
    decreases |s|
  {
    if s == [] then (if any then args + [cur] else args)
    else if s[0] == '\\' then
      var n := Slashes(s);
      if n < |s| && s[n] == '"' then
        if n % 2 == 1 then Parse(s[n + 1..], cur + Repeat('\\', n / 2) + "\"", quoted, true, args)
        else Parse(s[n..], cur + Repeat('\\', n / 2), quoted, true, args)
      else Parse(s[n..], cur + Repeat('\\', n), quoted, true, args)
    else if s[0] == '"' then Parse(s[1..], cur, !quoted, true, args)
    else if (s[0] == ' ' || s[0] == '\t') && !quoted then
      (if any then Parse(s[1..], [], quoted, false, args + [cur]) else Parse(s[1..], cur, quoted, false, args))
    else Parse(s[1..], cur + [s[0]], quoted, true, args)
  }

  function ParseLine(s: string): seq<string> {
    Parse(s, [], false, false, [])
  }

  method ParseWinArgs(cmd: string) returns (args: seq<string>)
    ensures args == ParseLine(cmd)
  {
    args := [];
    var cur, quoted, any, i := "", false, false, 0;
    assert cmd[0..] == cmd;
    while i < |cmd|
      invariant 0 <= i <= |cmd|
      invariant ParseLine(cmd) == Parse(cmd[i..], cur, quoted, any, args)
    {
      var c := cmd[i];
      if c == '\\' {
        var start := i;
        while i < |cmd| && cmd[i] == '\\'
          invariant start <= i <= |cmd|
          invariant Slashes(cmd[start..]) == (i - start) + Slashes(cmd[i..])
        {
          assert cmd[i..][1..] == cmd[i + 1..];
          i := i + 1;
        }
        var n := i - start;
        assert Slashes(cmd[start..]) == n && cmd[start..][n..] == cmd[i..];
        if i < |cmd| && cmd[i] == '"' {
          assert cmd[start..][n] == '"';
          cur := cur + Repeat('\\', n / 2);
          if n % 2 == 1 {
            assert cmd[start..][n + 1..] == cmd[i + 1..];
            cur := cur + "\"";
            i := i + 1;
          }
        } else {
          cur := cur + Repeat('\\', n);
        }
        any := true;
        continue;
      }
      assert cmd[i..][1..] == cmd[i + 1..];
      if c == '"' {
        quoted := !quoted;
        any := true;
      } else if (c == ' ' || c == '\t') && !quoted {
        if any {
          args := args + [cur];
          cur, any := "", false;
        }
      } else {
        cur := cur + [c];
        any := true;
      }
      i := i + 1;
    }
    assert cmd[|cmd|..] == [];
    if any { args := args + [cur]; }
  }

  // ---------- the round trip ----------

  lemma {:induction false} SlashesThen(n: nat, t: string)
    requires t == [] || t[0] != '\\'
    ensures Slashes(Repeat('\\', n) + t) == n && (Repeat('\\', n) + t)[n..] == t
  {
    if n > 0 {
      SlashesThen(n - 1, t);
      assert (Repeat('\\', n) + t)[1..] == Repeat('\\', n - 1) + t;
    }
  }

  /** Some backslashes and then a quote: half of them are kept, an odd one escapes the quote. */
  lemma ParseSlashesQuote(n: nat, t: string, cur: string, quoted: bool, any: bool, args: seq<string>)
    ensures Parse(Repeat('\\', n) + "\"" + t, cur, quoted, any, args) ==
              if n % 2 == 1 then Parse(t, cur + Repeat('\\', n / 2) + "\"", quoted, true, args)
              else Parse(t, cur + Repeat('\\', n / 2), !quoted, true, args)
  {
    var s := Repeat('\\', n) + ("\"" + t);
    assert Repeat('\\', n) + "\"" + t == s;
    SlashesThen(n, "\"" + t);
    assert s[n] == '"' && s[n + 1..] == t;
    if n == 0 {
      assert cur + Repeat('\\', 0) == cur;
    } else {
      assert s[n..] == "\"" + t && (s[n..])[1..] == t;
    }
  }

  lemma ParseEscapedQuote(n: nat, t: string, cur: string, quoted: bool, any: bool, args: seq<string>)
    ensures Parse(Repeat('\\', 2 * n + 1) + "\"" + t, cur, quoted, any, args)
         == Parse(t, cur + Repeat('\\', n) + "\"", quoted, true, args)
  {
    ParseSlashesQuote(2 * n + 1, t, cur, quoted, any, args);
  }

  /** Some backslashes and then no quote: all of them are kept. */
  lemma ParseSlashes(n: nat, t: string, cur: string, quoted: bool, args: seq<string>)
    requires t == [] || (t[0] != '\\' && t[0] != '"')
    ensures n > 0 ==>
              forall any :: Parse(Repeat('\\', n) + t, cur, quoted, any, args)
                         == Parse(t, cur + Repeat('\\', n), quoted, true, args)
  {
    SlashesThen(n, t);
  }

  /** The rest of a quoted argument is read as itself, with the backslashes held back before it. */
  ghost predicate BodyReads(s: string, slashes: nat, t: string, cur: string, any: bool, args: seq<string>) {
    Parse(Body(s, slashes) + t, cur, true, any, args) == Parse(t, cur + Repeat('\\', slashes) + s, false, true, args)
  }

  lemma BodyEnds(slashes: nat, t: string, cur: string, any: bool, args: seq<string>)
    ensures BodyReads([], slashes, t, cur, any, args)
  {
    assert Body([], slashes) + t == Repeat('\\', 2 * slashes) + "\"" + t;
    ParseSlashesQuote(2 * slashes, t, cur, true, any, args);
    assert cur + Repeat('\\', slashes) + [] == cur + Repeat('\\', slashes);
  }

  lemma BodySlash(s: string, slashes: nat, t: string, cur: string, any: bool, args: seq<string>)
    requires s != [] && s[0] == '\\' && BodyReads(s[1..], slashes + 1, t, cur, any, args)
    ensures BodyReads(s, slashes, t, cur, any, args)
  {
    assert cur + Repeat('\\', slashes + 1) + s[1..] == cur + Repeat('\\', slashes) + s;
  }

  lemma BodyQuote(s: string, slashes: nat, t: string, cur: string, any: bool, args: seq<string>)
    requires s != [] && s[0] == '"' && BodyReads(s[1..], 0, t, cur + Repeat('\\', slashes) + "\"", true, args)
    ensures BodyReads(s, slashes, t, cur, any, args)
  {
    var u := Body(s[1..], 0) + t;
    assert Body(s, slashes) + t == Repeat('\\', 2 * slashes + 1) + "\"" + u;
    ParseEscapedQuote(slashes, u, cur, true, any, args);
    assert cur + Repeat('\\', slashes) + "\"" + Repeat('\\', 0) + s[1..] == cur + Repeat('\\', slashes) + s;
  }

  lemma BodyChar(s: string, slashes: nat, t: string, cur: string, any: bool, args: seq<string>)
    requires s != [] && s[0] != '\\' && s[0] != '"'
    requires BodyReads(s[1..], 0, t, cur + Repeat('\\', slashes) + [s[0]], true, args)
    ensures BodyReads(s, slashes, t, cur, any, args)
  {
    var u := [s[0]] + (Body(s[1..], 0) + t);
    assert Body(s, slashes) + t == Repeat('\\', slashes) + u;
    ParseSlashes(slashes, u, cur, true, args);
    if slashes == 0 {
      assert Repeat('\\', 0) + u == u && cur + Repeat('\\', 0) == cur;
    }
    assert u[1..] == Body(s[1..], 0) + t;
    assert cur + Repeat('\\', slashes) + [s[0]] + Repeat('\\', 0) + s[1..] == cur + Repeat('\\', slashes) + s;
  }

  lemma {:induction false} ParseBody(s: string, slashes: nat, t: string, cur: string, any: bool, args: seq<string>)
    ensures BodyReads(s, slashes, t, cur, any, args)
  {
    if s == [] {
      BodyEnds(slashes, t, cur, any, args);
    } else if s[0] == '\\' {
      ParseBody(s[1..], slashes + 1, t, cur, any, args);
      BodySlash(s, slashes, t, cur, any, args);
    } else if s[0] == '"' {
      ParseBody(s[1..], 0, t, cur + Repeat('\\', slashes) + "\"", true, args);
      BodyQuote(s, slashes, t, cur, any, args);
    } else {
      ParseBody(s[1..], 0, t, cur + Repeat('\\', slashes) + [s[0]], true, args);
      BodyChar(s, slashes, t, cur, any, args);
    }
  }

  /** An argument that needs no quotes is read as itself. */
  lemma {:induction false} ParsePlain(s: string, t: string, cur: string, any: bool, args: seq<string>)
    requires Plain(s) && (t == [] || t[0] == ' ')
    ensures Parse(s + t, cur, false, any, args) == Parse(t, cur + s, false, true, args)
    decreases |s|
  {
    var n := Slashes(s);
    var k := if n == 0 then 1 else n;
    var next := cur + s[..k];
    PlainStep(s, k, t, cur, any, args);
    if k == |s| {
      assert s[k..] + t == t && next == cur + s;
    } else {
      ParsePlain(s[k..], t, next, true, args);
      assert next + s[k..] == cur + s;
    }
  }

  lemma PlainStep(s: string, k: nat, t: string, cur: string, any: bool, args: seq<string>)
    requires Plain(s) && (t == [] || t[0] == ' ')
    requires k == if Slashes(s) == 0 then 1 else Slashes(s)
    ensures Parse(s + t, cur, false, any, args) == Parse(s[k..] + t, cur + s[..k], false, true, args)
  {
    var n, u := Slashes(s), s[k..] + t;
    SlashesSplit(s);
    if n > 0 {
      assert s + t == Repeat('\\', n) + u;
      ParseSlashes(n, u, cur, false, args);
    } else {
      assert (s + t)[1..] == u;
      assert s[..1] == [s[0]];
    }
  }

  lemma {:induction false} SlashesSplit(s: string)
    ensures var n := Slashes(s); s[..n] == Repeat('\\', n) && (n < |s| ==> s[n] != '\\')
  {
    if s != [] && s[0] == '\\' {
      SlashesSplit(s[1..]);
      assert s == [s[0]] + s[1..];
    }
  }

  /** One quoted argument at the end of the line or before a blank is read as itself. */
  lemma ParseQuoted(s: string, t: string, args: seq<string>)
    requires t == [] || t[0] == ' '
    ensures Parse(Quote(s) + t, [], false, false, args) == Parse(t, s, false, true, args)
  {
    if Plain(s) {
      ParsePlain(s, t, [], false, args);
      assert [] + s == s;
    } else {
      var u := Body(s, 0) + t;
      assert Quote(s) + t == "\"" + u && ("\"" + u)[1..] == u;
      ParseBody(s, 0, t, [], true, args);
      assert [] + Repeat('\\', 0) + s == s;
    }
  }

  /** The arguments quoted and joined by single blanks. */
  function CommandLine(args: seq<string>): string {
    if args == [] then []
    else if |args| == 1 then Quote(args[0])
    else Quote(args[0]) + " " + CommandLine(args[1..])
  }

  lemma LastArgument(s: string, before: seq<string>)
    ensures Parse(Quote(s), [], false, false, before) == before + [s]
  {
    assert Quote(s) + [] == Quote(s);
    ParseQuoted(s, [], before);
  }

  lemma CommandLineGoesOn(args: seq<string>, before: seq<string>)
    requires |args| > 1
    ensures Parse(CommandLine(args), [], false, false, before)
         == Parse(CommandLine(args[1..]), [], false, false, before + [args[0]])
  {
    var t := " " + CommandLine(args[1..]);
    assert CommandLine(args) == Quote(args[0]) + t;
    ParseQuoted(args[0], t, before);
    assert t[1..] == CommandLine(args[1..]);
  }

  /** The line is read as its arguments, after those already read. */
  ghost predicate LineReads(args: seq<string>, before: seq<string>) {
    Parse(CommandLine(args), [], false, false, before) == before + args
  }

  lemma ShortLineReads(args: seq<string>, before: seq<string>)
    requires |args| <= 1
    ensures LineReads(args, before)
  {
    if args == [] {
      assert before + [] == before;
    } else {
      LastArgument(args[0], before);
      assert args == [args[0]];
    }
  }

  lemma LongLineReads(args: seq<string>, before: seq<string>)
    requires |args| > 1 && LineReads(args[1..], before + [args[0]])
    ensures LineReads(args, before)
  {
    CommandLineGoesOn(args, before);
    assert before + [args[0]] + args[1..] == before + args;
  }

  lemma {:induction false} ParseCommandLine(args: seq<string>, before: seq<string>)
    ensures LineReads(args, before)
  {
    if |args| <= 1 {
      ShortLineReads(args, before);
    } else {
      ParseCommandLine(args[1..], before + [args[0]]);
      LongLineReads(args, before);
    }
  }

  /** Nothing is lost in quoting: every list of arguments is read back as it was. */
  lemma ArgumentsRoundTrip(args: seq<string>)
    ensures ParseLine(CommandLine(args)) == args
  {
    ParseCommandLine(args, []);
    assert [] + args == args;
  }

  /** The arguments the startup task runs with. */
  function TaskArguments(config: string): string {
    "--server --config " + Quote(config)
  }

  lemma TaskGetsItsConfig(config: string)
    ensures ParseLine(TaskArguments(config)) == ["--server", "--config", config]
  {
    var args := ["--server", "--config", config];
    assert Plain("--server") && Plain("--config");
    assert args[1..] == ["--config", config] && args[1..][1..] == [config];
    assert CommandLine([config]) == Quote(config);
    assert CommandLine(["--config", config]) == "--config" + " " + Quote(config);
    assert CommandLine(args) == "--server" + " " + ("--config" + " " + Quote(config));
    assert "--server --config " == "--server" + " " + "--config" + " ";
    assert CommandLine(args) == TaskArguments(config);
    ArgumentsRoundTrip(args);
  }
}
