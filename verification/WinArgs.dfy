/**
 * Windows command-line quoting (service.rs) against the published argument
 * parsing rules of the Microsoft C runtime ("Parsing C command-line
 * arguments"). The printer counts pending backslashes; the parser does too,
 * and the two counters are what the round trip relates.
 */
module WinArgs {
  import opened Text

  // ----------------------------------------------------------------- printer

  function Repeat(c: char, n: nat): (r: string)
    ensures |r| == n
  {
    seq(n, i => c)
  }

  predicate NeedsQuotes(a: string)
  {
    a == "" || (exists i :: 0 <= i < |a| && IsWhitespace(a[i])) || '"' in a
  }

  /** What the quoting loop still emits with `pending` backslashes held back. */
  function Escaped(a: string, pending: nat): string
  {
    if a == "" then Repeat('\\', pending * 2)
    else if a[0] == '\\' then Escaped(a[1..], pending + 1)
    else if a[0] == '"' then Repeat('\\', pending * 2 + 1) + "\"" + Escaped(a[1..], 0)
    else Repeat('\\', pending) + [a[0]] + Escaped(a[1..], 0)
  }

  /** One argument as it appears on the line. */
  function Quoted(a: string): string
  {
    if NeedsQuotes(a) then "\"" + Escaped(a, 0) + "\"" else a
  }

  lemma {:induction false} EscapedLength(a: string, pending: nat)
    ensures |Escaped(a, pending)| >= |a| + pending
    decreases |a|
  {
    if a != "" {
      EscapedLength(a[1..], if a[0] == '\\' then pending + 1 else 0);
    }
  }

  /** An argument is printed as it stands exactly if it is not empty and has neither white space nor a quote. */
  lemma PlainStaysPlain(a: string)
    ensures Quoted(a) == a <==> a != "" && '"' !in a && forall i :: 0 <= i < |a| ==> a[i] !in WHITE_SPACE
  {
    EscapedLength(a, 0);
    forall i | 0 <= i < |a|
      ensures IsWhitespace(a[i]) <==> a[i] in WHITE_SPACE
    {
      SpacesAre(a[i]);
    }
  }

  method PushRepeated(out: string, c: char, n: nat) returns (r: string)
    ensures r == out + Repeat(c, n)
  {
    r := out;
    for i := 0 to n
      invariant r == out + Repeat(c, i)
    {
      r := r + [c];
      assert Repeat(c, i) + [c] == Repeat(c, i + 1);
    }
  }

  /** `quote_win_arg`. */
  method QuoteWinArg(a: string) returns (out: string)
    ensures out == Quoted(a)
  {
    if a != "" && !(exists i :: 0 <= i < |a| && IsWhitespace(a[i])) && '"' !in a {
      return a;
    }
    out := "\"";
    var backslashes := 0;
    for i := 0 to |a|
      invariant out + Escaped(a[i..], backslashes) == "\"" + Escaped(a, 0)
    {
      var c := a[i];
      assert a[i..][0] == c && a[i..][1..] == a[i + 1..];
      ghost var before := out;
      if c == '\\' {
        backslashes := backslashes + 1;
      } else if c == '"' {
        out := PushRepeated(out, '\\', backslashes * 2 + 1);
        out := out + "\"";
        assert out + Escaped(a[i + 1..], 0) == before + Escaped(a[i..], backslashes);
        backslashes := 0;
      } else {
        out := PushRepeated(out, '\\', backslashes);
        out := out + [c];
        assert out + Escaped(a[i + 1..], 0) == before + Escaped(a[i..], backslashes);
        backslashes := 0;
      }
    }
    out := PushRepeated(out, '\\', backslashes * 2);
    out := out + "\"";
  }

  function Line(exe: string, args: seq<string>): string
  {
    "\"" + exe + "\"" + Tail(args)
  }

  function Tail(args: seq<string>): string
  {
    if args == [] then "" else " " + Quoted(args[0]) + Tail(args[1..])
  }

  lemma {:induction false} TailSnoc(args: seq<string>, a: string)
    ensures Tail(args + [a]) == Tail(args) + " " + Quoted(a)
  {
    if args == [] {
      assert args + [a] == [a];
    } else {
      TailSnoc(args[1..], a);
      assert (args + [a])[1..] == args[1..] + [a];
      assert (args + [a])[0] == args[0];
      assert Tail(args + [a]) == " " + Quoted(args[0]) + (Tail(args[1..]) + " " + Quoted(a));
    }
  }

  /** `build_service_cmdline`; `exe` is the path of the engine found on disk. */
  method BuildServiceCmdline(exe: string, args: seq<string>) returns (s: string)
    ensures s == Line(exe, args)
  {
    s := "\"" + exe + "\"";
    for i := 0 to |args|
      invariant s == "\"" + exe + "\"" + Tail(args[..i])
    {
      s := s + " ";
      var q := QuoteWinArg(args[i]);
      s := s + q;
      TailSnoc(args[..i], args[i]);
      assert args[..i + 1] == args[..i] + [args[i]];
    }
    assert args[..|args|] == args;
  }

  // ------------------------------------------------------------------ parser

  predicate IsBlank(c: char) { c == ' ' || c == '\t' }

  /**
   * The arguments after the program name. `pending` backslashes have been read
   * and not interpreted yet; `cur` is the argument so far, if one has begun.
   * Before a quote, pairs of backslashes stand for one and an odd one makes the
   * quote literal; inside quotes a doubled quote is a literal one too.
   */
  function Scan(s: string, inQuotes: bool, pending: nat, begun: bool, cur: string): seq<string>
    decreases |s|
  {
    if s == "" then
      if begun then [cur + Repeat('\\', pending)] else []
    else if s[0] == '\\' then
      Scan(s[1..], inQuotes, pending + 1, true, cur)
    else if s[0] == '"' then
      var cur' := cur + Repeat('\\', pending / 2);
      if pending % 2 == 1 then Scan(s[1..], inQuotes, 0, true, cur' + "\"")
      else if inQuotes && |s| > 1 && s[1] == '"' then Scan(s[2..], inQuotes, 0, true, cur' + "\"")
      else Scan(s[1..], !inQuotes, 0, true, cur')
    else if IsBlank(s[0]) && !inQuotes then
      if begun then [cur + Repeat('\\', pending)] + Scan(s[1..], false, 0, false, "")
      else Scan(s[1..], false, 0, false, "")
    else
      Scan(s[1..], inQuotes, 0, true, cur + Repeat('\\', pending) + [s[0]])
  }

  /** The program name: quotes toggle, backslashes mean nothing special. */
  function ScanProgram(s: string, inQuotes: bool, cur: string): (string, string)
    decreases |s|
  {
    if s == "" || (IsBlank(s[0]) && !inQuotes) then (cur, s)
    else if s[0] == '"' then ScanProgram(s[1..], !inQuotes, cur)
    else ScanProgram(s[1..], inQuotes, cur + [s[0]])
  }

  function ParseCommandLine(s: string): seq<string>
  {
    var (program, rest) := ScanProgram(s, false, "");
    [program] + Scan(rest, false, 0, false, "")
  }

  // -------------------------------------------------------------- round trip

  lemma {:induction false} ScanBackslashes(n: nat, t: string, inQuotes: bool, pending: nat, begun: bool, cur: string)
    ensures Scan(Repeat('\\', n) + t, inQuotes, pending, begun || n > 0, cur)
      == Scan(t, inQuotes, pending + n, begun || n > 0, cur)
  {
    if n == 0 {
      assert Repeat('\\', 0) + t == t;
    } else {
      var s := Repeat('\\', n) + t;
      assert s[1..] == Repeat('\\', n - 1) + t;
      ScanBackslashes(n - 1, t, inQuotes, pending + 1, true, cur);
    }
  }

  /** The rest of a line after one argument: nothing, or a separator. */
  predicate AfterArgument(t: string)
  {
    t == "" || t[0] == ' '
  }

  lemma RepeatAdd(m: nat, n: nat)
    ensures Repeat('\\', m) + Repeat('\\', n) == Repeat('\\', m + n)
  {
  }

  /** An odd run of backslashes and a quote: half the run, and the quote itself. */
  lemma ScanLiteralQuote(k: nat, later: string, cur: string)
    ensures Scan(Repeat('\\', k * 2 + 1) + "\"" + later, true, 0, true, cur)
      == Scan(later, true, 0, true, cur + Repeat('\\', k) + "\"")
  {
    var q := "\"" + later;
    assert Repeat('\\', k * 2 + 1) + "\"" + later == Repeat('\\', k * 2 + 1) + q;
    ScanBackslashes(k * 2 + 1, q, true, 0, true, cur);
    assert q[1..] == later;
  }

  /** An even run and the closing quote: half the run. */
  lemma ScanClosingQuote(k: nat, t: string, cur: string)
    requires AfterArgument(t)
    ensures Scan(Repeat('\\', k * 2) + "\"" + t, true, 0, true, cur) == Scan(t, false, 0, true, cur + Repeat('\\', k))
  {
    var q := "\"" + t;
    assert Repeat('\\', k * 2) + "\"" + t == Repeat('\\', k * 2) + q;
    ScanBackslashes(k * 2, q, true, 0, true, cur);
    assert q[1..] == t;
  }

  /** A run before any other character stands for itself. */
  lemma ScanOrdinary(k: nat, c: char, later: string, cur: string)
    requires c != '\\' && c != '"'
    ensures Scan(Repeat('\\', k) + [c] + later, true, 0, true, cur)
      == Scan(later, true, 0, true, cur + Repeat('\\', k) + [c])
  {
    var q := [c] + later;
    assert Repeat('\\', k) + [c] + later == Repeat('\\', k) + q;
    ScanBackslashes(k, q, true, 0, true, cur);
    assert q[1..] == later;
  }

  lemma Regroup(a: string, b: string, c: string, d: string)
    ensures a + b + c + d == a + b + (c + d)
  {
  }

  /** Inside quotes, the escaped text and closing quote give back the text. */
  lemma {:induction false} ScanEscaped(a: string, k: nat, t: string, cur: string)
    requires AfterArgument(t)
    ensures Scan(Escaped(a, k) + "\"" + t, true, 0, true, cur)
      == Scan(t, false, 0, true, cur + Repeat('\\', k) + a)
    decreases |a|
  {
    var run := Repeat('\\', k);
    if a == "" {
      ScanClosingQuote(k, t, cur);
      assert cur + run + a == cur + run;
    } else if a[0] == '\\' {
      ScanEscaped(a[1..], k + 1, t, cur);
      RepeatAdd(k, 1);
      assert a == Repeat('\\', 1) + a[1..];
      Regroup(cur, run, Repeat('\\', 1), a[1..]);
      assert cur + Repeat('\\', k + 1) == cur + run + Repeat('\\', 1);
    } else {
      var later := Escaped(a[1..], 0) + "\"" + t;
      ScanEscaped(a[1..], 0, t, cur + run + [a[0]]);
      assert cur + run + [a[0]] + Repeat('\\', 0) == cur + run + [a[0]];
      assert a == [a[0]] + a[1..];
      Regroup(cur, run, [a[0]], a[1..]);
      if a[0] == '"' {
        ScanLiteralQuote(k, later, cur);
        assert Escaped(a, k) + "\"" + t == Repeat('\\', k * 2 + 1) + "\"" + later;
      } else {
        ScanOrdinary(k, a[0], later, cur);
        assert Escaped(a, k) + "\"" + t == run + [a[0]] + later;
      }
    }
  }

  predicate Bare(a: string)
  {
    forall i :: 0 <= i < |a| ==> a[i] != '"' && !IsBlank(a[i])
  }

  /** Outside quotes, text without blanks and quotes stands for itself. */
  lemma {:induction false} ScanBare(a: string, t: string, pending: nat, begun: bool, cur: string)
    requires Bare(a) && AfterArgument(t) && (a != "" || begun)
    ensures Scan(a + t, false, pending, begun, cur)
      == (if t == "" then [cur + Repeat('\\', pending) + a]
          else [cur + Repeat('\\', pending) + a] + Scan(t[1..], false, 0, false, ""))
    decreases |a|
  {
    if a == "" {
      assert a + t == t;
      assert cur + Repeat('\\', pending) + a == cur + Repeat('\\', pending);
    } else {
      assert (a + t)[1..] == a[1..] + t && (a + t)[0] == a[0];
      assert a == [a[0]] + a[1..];
      if a[0] == '\\' {
        ScanBare(a[1..], t, pending + 1, true, cur);
        RepeatAdd(pending, 1);
        assert Repeat('\\', 1) == ['\\'];
        assert cur + Repeat('\\', pending + 1) + a[1..] == cur + Repeat('\\', pending) + a;
      } else {
        var cur' := cur + Repeat('\\', pending) + [a[0]];
        ScanBare(a[1..], t, 0, true, cur');
        assert cur' + Repeat('\\', 0) + a[1..] == cur + Repeat('\\', pending) + a;
      }
    }
  }

  lemma ScanQuoted(a: string, t: string)
    requires AfterArgument(t)
    ensures Scan(Quoted(a) + t, false, 0, false, "")
      == [a] + (if t == "" then [] else Scan(t[1..], false, 0, false, ""))
  {
    assert "" + Repeat('\\', 0) + a == a;
    if NeedsQuotes(a) {
      var q := Escaped(a, 0) + "\"" + t;
      assert Quoted(a) + t == "\"" + q;
      assert ("\"" + q)[1..] == q;
      assert "" + Repeat('\\', 0) == "";
      ScanEscaped(a, 0, t, "");
      assert a + Repeat('\\', 0) == a;
    } else {
      ScanBare(a, t, 0, false, "");
    }
  }

  lemma TailBegins(args: seq<string>)
    ensures AfterArgument(Tail(args)) && (Tail(args) == "" <==> args == [])
    ensures args != [] ==> Tail(args)[1..] == Quoted(args[0]) + Tail(args[1..])
  {
    if args != [] {
      assert Tail(args) == " " + (Quoted(args[0]) + Tail(args[1..]));
    }
  }

  /** A separator in front of an argument is skipped. */
  lemma ScanSeparator(t: string)
    requires AfterArgument(t)
    ensures t != "" ==> Scan(t, false, 0, false, "") == Scan(t[1..], false, 0, false, "")
    ensures t == "" ==> Scan(t, false, 0, false, "") == []
  {
  }

  lemma {:induction false} ScanTail(args: seq<string>)
    ensures Scan(Tail(args), false, 0, false, "") == args
  {
    TailBegins(args);
    ScanSeparator(Tail(args));
    if args != [] {
      var t := Tail(args[1..]);
      TailBegins(args[1..]);
      ScanTail(args[1..]);
      ScanSeparator(t);
      ScanQuoted(args[0], t);
      assert args == [args[0]] + args[1..];
    }
  }

  lemma {:induction false} ScanProgramQuoted(exe: string, t: string, cur: string)
    requires '"' !in exe && AfterArgument(t)
    ensures ScanProgram(exe + "\"" + t, true, cur) == (cur + exe, t)
  {
    if exe == "" {
      assert exe + "\"" + t == "\"" + t && ("\"" + t)[1..] == t;
      assert cur + exe == cur;
    } else {
      var s := exe + "\"" + t;
      assert s[0] == exe[0] && s[1..] == exe[1..] + "\"" + t;
      ScanProgramQuoted(exe[1..], t, cur + [exe[0]]);
      assert cur + [exe[0]] + exe[1..] == cur + exe;
    }
  }

  /** A program name never comes out of the parser with a quote in it. */
  lemma {:induction false} ScanProgramDropsQuotes(s: string, inQuotes: bool, cur: string)
    requires '"' !in cur
    ensures '"' !in ScanProgram(s, inQuotes, cur).0
    decreases |s|
  {
    if s != "" && !(IsBlank(s[0]) && !inQuotes) {
      if s[0] == '"' {
        ScanProgramDropsQuotes(s[1..], !inQuotes, cur);
      } else {
        ScanProgramDropsQuotes(s[1..], inQuotes, cur + [s[0]]);
      }
    }
  }

  /**
   * Command-line round trip: for every list of arguments the built line parses
   * back to the program and exactly that list, precisely when the program path
   * contains no quote.
   */
  lemma CommandLineRoundTrip(exe: string, args: seq<string>)
    ensures ParseCommandLine(Line(exe, args)) == [exe] + args <==> '"' !in exe
  {
    var line := Line(exe, args);
    var rest := exe + "\"" + Tail(args);
    assert line == "\"" + rest && ("\"" + rest)[1..] == rest;
    if '"' !in exe {
      TailBegins(args);
      ScanProgramQuoted(exe, Tail(args), "");
      assert "" + exe == exe;
      ScanTail(args);
    } else {
      ScanProgramDropsQuotes(line, false, "");
      assert ParseCommandLine(line)[0] != exe;
      assert ([exe] + args)[0] == exe;
    }
  }
}
