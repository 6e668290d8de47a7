/**
  The quoting of arguments into one Windows command line, and its inverse by the documented rules: an
  even run of backslashes before a quote halves and the quote delimits, an odd run halves and the quote
  is literal, and any other backslash stands for itself.
 */
module CommandLine {
  import opened Prelude

  const BACKSLASH := '\\'
  const QUOTE := '\"'

  // ----- Writing -----

  function Backslashes(n: nat): string {
    seq(n, _ => BACKSLASH)
  }

  predicate NoQuotesNeeded(arg: string) {
    && arg != ""
    && forall k :: 0 <= k < |arg| ==> arg[k] !in {' ', '\t', '\n', '\U{b}', QUOTE}
  }

  /** Appends the body of a quoted argument, `n` backslashes before `s` being held back. */
  function Escape(line: string, s: string, n: nat): string
    decreases |s|
  {
    if s == "" then line + Backslashes(n * 2)
    else if s[0] == BACKSLASH then Escape(line, s[1..], n + 1)
    else if s[0] == QUOTE then Escape(line + Backslashes(n * 2 + 1) + [QUOTE], s[1..], 0)
    else Escape(line + Backslashes(n) + [s[0]], s[1..], 0)
  }

  function AppendArgument(line: string, arg: string): string {
    if NoQuotesNeeded(arg) then line + arg else Escape(line + [QUOTE], arg, 0) + [QUOTE]
  }

  function Write(argv: seq<string>): string {
    if argv == [] then ""
    else
      var n := |argv| - 1;
      AppendArgument(if n == 0 then "" else Write(argv[..n]) + " ", argv[n])
  }

  method AppendBackslashes(line: string, n: nat) returns (line': string)
    ensures line' == line + Backslashes(n)
  {
    line' := line;
    for i := 0 to n
      invariant line' == line + Backslashes(i)
    {
      assert Backslashes(i + 1) == Backslashes(i) + [BACKSLASH];
      line' := line' + [BACKSLASH];
    }
  }

  method AppendQuoted(line: string, arg: string) returns (line': string)
    ensures line' == Escape(line + [QUOTE], arg, 0) + [QUOTE]
  {
    line' := line + [QUOTE];
    var c := 0;
    assert arg[0..] == arg;
    while c < |arg|
      invariant 0 <= c <= |arg|
      invariant Escape(line + [QUOTE], arg, 0) == Escape(line', arg[c..], 0)
    {
      var start, backslashes := c, 0;
      while c < |arg| && arg[c] == BACKSLASH
        invariant start <= c <= |arg| && backslashes == c - start
        invariant Escape(line + [QUOTE], arg, 0) == Escape(line', arg[c..], backslashes)
      {
        assert arg[c..][1..] == arg[c + 1..];
        backslashes := backslashes + 1;
        c := c + 1;
      }
      if c == |arg| {
        line' := AppendBackslashes(line', backslashes * 2);
        assert Backslashes(0 * 2) == "" && line' + "" == line';
        break;
      }
      assert arg[c..][1..] == arg[c + 1..];
      if arg[c] == QUOTE {
        line' := AppendBackslashes(line', backslashes * 2 + 1);
        line' := line' + [QUOTE];
      } else {
        line' := AppendBackslashes(line', backslashes);
        line' := line' + [arg[c]];
      }
      c := c + 1;
    }
    assert arg[|arg|..] == "" && Escape(line', "", 0) == line' + Backslashes(0) == line';
    line' := line' + [QUOTE];
  }

  method ArgvToCommandLine(argv: seq<string>) returns (line: string)
    ensures line == Write(argv)
  {
    line := "";
    for i := 0 to |argv|
      invariant line == Write(argv[..i])
    {
      assert argv[..i + 1][..i] == argv[..i];
      if i > 0 {
        line := line + " ";
      }
      if NoQuotesNeeded(argv[i]) {
        line := line + argv[i];
      } else {
        line := AppendQuoted(line, argv[i]);
      }
    }
    assert argv[..|argv|] == argv;
  }

  // ----- Reading -----

  /** A reader after some characters: arguments finished, the one under way, and backslashes held back. */
  datatype Reader = Reader(args: seq<string>, current: string, started: bool, quoted: bool, held: nat) {

    function Step(c: char): Reader {
      if c == BACKSLASH then this.(held := held + 1, started := true)
      else if c == QUOTE then
        var r := this.(current := current + Backslashes(held / 2), held := 0, started := true);
        if held % 2 == 1 then r.(current := r.current + [QUOTE]) else r.(quoted := !quoted)
      else if !quoted && (c == ' ' || c == '\t') then
        if started then Reader(args + [Text()], "", false, false, 0) else this
      else this.(current := Text() + [c], held := 0, started := true)
    }

    /** Backslashes that no quote follows stand for themselves. */
    function Text(): string {
      current + Backslashes(held)
    }
  }

  function Read(line: string): Reader {
    if line == "" then Reader([], "", false, false, 0)
    else Read(line[..|line| - 1]).Step(line[|line| - 1])
  }

  /** The arguments of a command line after the program name. */
  function Decode(line: string): seq<string> {
    var r := Read(line);
    if r.started then r.args + [r.Text()] else r.args
  }

  lemma ReadSnoc(line: string, c: char)
    ensures Read(line + [c]) == Read(line).Step(c)
  {
    assert (line + [c])[..|line|] == line;
  }

  lemma {:induction false} ReadBackslashes(line: string, n: nat)
    ensures
      Read(line + Backslashes(n)) == Read(line).(held := Read(line).held + n, started := Read(line).started || n > 0)
  {
    if n == 0 {
      assert line + Backslashes(0) == line;
    } else {
      ReadBackslashes(line, n - 1);
      assert line + Backslashes(n) == (line + Backslashes(n - 1)) + [BACKSLASH];
      ReadSnoc(line + Backslashes(n - 1), BACKSLASH);
    }
  }

  /** One character inside quotes, with the backslashes that the writer puts before it. */
  lemma ReadEscapedChar(line: string, n: nat, c: char)
    requires Read(line).quoted && Read(line).held == 0 && Read(line).started && c != BACKSLASH
    ensures var r := Read(line);
      Read(line + Backslashes(if c == QUOTE then n * 2 + 1 else n) + [c])
      == r.(current := r.current + Backslashes(n) + [c])
  {
    var k := if c == QUOTE then n * 2 + 1 else n;
    ReadBackslashes(line, k);
    ReadSnoc(line + Backslashes(k), c);
  }

  lemma Assoc(a: string, b: string, c: string, d: string)
    ensures a + b + c + d == a + (b + (c + d))
  {
  }

  lemma HeldBack(n: nat, rest: string)
    ensures Backslashes(n + 1) + rest == Backslashes(n) + ([BACKSLASH] + rest)
  {
    assert Backslashes(n + 1) == Backslashes(n) + [BACKSLASH];
  }

  lemma Regroup(current: string, n: nat, s: string)
    requires s != ""
    ensures s[0] == BACKSLASH ==> Backslashes(n + 1) + s[1..] == Backslashes(n) + s
    ensures current + Backslashes(n) + [s[0]] + (Backslashes(0) + s[1..]) == current + (Backslashes(n) + s)
  {
    assert Backslashes(0) + s[1..] == s[1..];
    assert s == [s[0]] + s[1..];
    HeldBack(n, s[1..]);
    Assoc(current, Backslashes(n), [s[0]], s[1..]);
  }

  /** Inside quotes, an escaped text reads as the backslashes held back followed by the text. */
  lemma {:induction false} ReadEscaped(line: string, s: string, n: nat)
    requires Read(line).quoted && Read(line).held == 0 && Read(line).started
    ensures var r := Read(line);
      Read(Escape(line, s, n) + [QUOTE]) == r.(quoted := false, current := r.current + (Backslashes(n) + s))
    decreases |s|
  {
    if s == "" {
      ReadBackslashes(line, n * 2);
      ReadSnoc(line + Backslashes(n * 2), QUOTE);
      assert Backslashes(n) + s == Backslashes(n);
    } else {
      Regroup(Read(line).current, n, s);
      if s[0] == BACKSLASH {
        ReadEscaped(line, s[1..], n + 1);
      } else {
        ReadEscapedChar(line, n, s[0]);
        ReadEscaped(line + Backslashes(if s[0] == QUOTE then n * 2 + 1 else n) + [s[0]], s[1..], 0);
      }
    }
  }

  lemma PlainStep(r: Reader, c: char)
    requires !r.quoted && c !in {' ', '\t', QUOTE}
    ensures var r' := r.Step(c);
      !r'.quoted && r'.args == r.args && r'.started && r'.Text() == r.Text() + [c]
  {
    if c == BACKSLASH {
      assert Backslashes(r.held + 1) == Backslashes(r.held) + [BACKSLASH];
      assert r.current + (Backslashes(r.held) + [BACKSLASH]) == r.current + Backslashes(r.held) + [BACKSLASH];
    } else {
      assert r.Text() + [c] + Backslashes(0) == r.Text() + [c];
    }
  }

  /** Unquoted text without delimiters reads as itself. */
  lemma {:induction false} ReadPlain(line: string, s: string)
    requires !Read(line).quoted
    requires forall k :: 0 <= k < |s| ==> s[k] !in {' ', '\t', QUOTE}
    ensures var r := Read(line + s);
      && !r.quoted && r.args == Read(line).args
      && r.Text() == Read(line).Text() + s
      && r.started == (Read(line).started || s != "")
    decreases |s|
  {
    if s == "" {
      assert line + s == line;
    } else {
      var n := |s| - 1;
      ReadPlain(line, s[..n]);
      PlainStep(Read(line + s[..n]), s[n]);
      assert s == s[..n] + [s[n]];
      assert line + s == (line + s[..n]) + [s[n]];
      ReadSnoc(line + s[..n], s[n]);
      assert Read(line).Text() + s == Read(line).Text() + s[..n] + [s[n]];
    }
  }

  /** Between arguments the reader has nothing under way. */
  predicate Between(line: string, args: seq<string>) {
    Read(line) == Reader(args, "", false, false, 0)
  }

  lemma {:induction false} ReadArgument(line: string, args: seq<string>, arg: string)
    requires Between(line, args)
    ensures var r := Read(AppendArgument(line, arg));
      r.args == args && r.started && !r.quoted && r.Text() == arg
  {
    assert "" + Backslashes(0) + arg == arg;
    if NoQuotesNeeded(arg) {
      ReadPlain(line, arg);
    } else {
      ReadSnoc(line, QUOTE);
      assert "" + Backslashes(0) == "";
      ReadEscaped(line + [QUOTE], arg, 0);
      assert "" + (Backslashes(0) + arg) + Backslashes(0) == arg;
    }
  }

  lemma {:induction false} ReadWritten(argv: seq<string>)
    requires argv != []
    ensures var r := Read(Write(argv));
      r.args == argv[..|argv| - 1] && r.started && !r.quoted && r.Text() == argv[|argv| - 1]
    decreases |argv|
  {
    var n := |argv| - 1;
    if n == 0 {
      ReadArgument("", [], argv[0]);
      assert argv[..0] == [];
    } else {
      ReadWritten(argv[..n]);
      ReadSnoc(Write(argv[..n]), ' ');
      assert argv[..n] == argv[..n][..n - 1] + [argv[..n][n - 1]];
      ReadArgument(Write(argv[..n]) + " ", argv[..n], argv[n]);
    }
  }

  /** Every list of arguments is read back as it was, empty arguments and trailing backslashes included. */
  lemma RoundTrip(argv: seq<string>)
    ensures Decode(Write(argv)) == argv
  {
    if argv != [] {
      ReadWritten(argv);
      assert argv == argv[..|argv| - 1] + [argv[|argv| - 1]];
    }
  }

  // ----- The program name -----

  /** The first argument is read differently: quotes toggle, and backslashes always stand for themselves. */
  datatype NameReader = NameReader(text: string, quoted: bool, done: bool) {
    function Step(c: char): NameReader {
      if done then this
      else if c == QUOTE then this.(quoted := !quoted)
      else if !quoted && (c == ' ' || c == '\t') then this.(done := true)
      else this.(text := text + [c])
    }
  }

  function ReadName(line: string): NameReader {
    if line == "" then NameReader("", false, false)
    else ReadName(line[..|line| - 1]).Step(line[|line| - 1])
  }

  predicate EndsInBackslash(s: string) { s != "" && s[|s| - 1] == BACKSLASH }

  lemma NameSnoc(line: string, c: char)
    ensures ReadName(line + [c]) == ReadName(line).Step(c)
  {
    assert (line + [c])[..|line|] == line;
  }

  /** Characters that end nothing are copied. */
  lemma {:induction false} NameCopies(line: string, s: string)
    requires !ReadName(line).done
    requires forall k :: 0 <= k < |s| ==> s[k] != QUOTE && (ReadName(line).quoted || s[k] !in {' ', '\t'})
    ensures ReadName(line + s) == ReadName(line).(text := ReadName(line).text + s)
    decreases |s|
  {
    if s == "" {
      assert line + s == line;
    } else {
      var n := |s| - 1;
      NameCopies(line, s[..n]);
      assert line + s == (line + s[..n]) + [s[n]];
      NameSnoc(line + s[..n], s[n]);
      assert ReadName(line).text + s == ReadName(line).text + s[..n] + [s[n]];
    }
  }

  /** How many backslashes end `s`, after `n` more. */
  function Trailing(s: string, n: nat): nat
    decreases |s|
  {
    if s == "" then n else if s[0] == BACKSLASH then Trailing(s[1..], n + 1) else Trailing(s[1..], 0)
  }

  lemma {:induction false} TrailingCounts(s: string, n: nat)
    ensures Trailing(s, n) > 0 <==> if s == "" then n > 0 else EndsInBackslash(s)
    decreases |s|
  {
    if s != "" {
      TrailingCounts(s[1..], if s[0] == BACKSLASH then n + 1 else 0);
      assert |s| > 1 ==> s[1..][|s| - 2] == s[|s| - 1];
    }
  }

  /** Without quotes in it, a quoted name reads as itself and its trailing backslashes once more. */
  lemma {:induction false} NameEscaped(line: string, s: string, n: nat)
    requires ReadName(line).quoted && !ReadName(line).done && QUOTE !in s
    ensures var r := ReadName(line);
      ReadName(Escape(line, s, n)) == r.(text := r.text + (Backslashes(n) + s) + Backslashes(Trailing(s, n)))
    decreases |s|
  {
    var text := ReadName(line).text;
    if s == "" {
      NameCopies(line, Backslashes(n * 2));
      assert text + Backslashes(n * 2) == text + (Backslashes(n) + s) + Backslashes(n);
    } else {
      Regroup(text, n, s);
      if s[0] == BACKSLASH {
        NameEscaped(line, s[1..], n + 1);
      } else {
        var piece := Backslashes(n) + [s[0]];
        NameCopies(line, piece);
        assert line + piece == line + Backslashes(n) + [s[0]];
        assert text + piece == text + Backslashes(n) + [s[0]];
        NameEscaped(line + Backslashes(n) + [s[0]], s[1..], 0);
      }
    }
  }

  lemma {:induction false} NameHasNoQuote(line: string)
    ensures QUOTE !in ReadName(line).text
    decreases |line|
  {
    if line != "" {
      NameHasNoQuote(line[..|line| - 1]);
    }
  }

  lemma {:induction false} NameStaysDone(line: string, k: nat)
    requires k <= |line| && ReadName(line[..k]).done
    ensures ReadName(line) == ReadName(line[..k])
    decreases |line| - k
  {
    if k == |line| {
      assert line[..k] == line;
    } else {
      assert line[..k + 1] == line[..k] + [line[k]];
      NameSnoc(line[..k], line[k]);
      NameStaysDone(line, k + 1);
    }
  }

  /** The condition under which a program name survives. */
  predicate NameSurvives(name: string) {
    NoQuotesNeeded(name) || (QUOTE !in name && !EndsInBackslash(name))
  }

  /** The name alone is read back if and only if it needs no quoting, or has no quote and no trailing backslash. */
  lemma {:induction false} NameRoundTrip(name: string)
    ensures ReadName(AppendArgument("", name)).text == name <==> NameSurvives(name)
    ensures QUOTE !in name ==> !ReadName(AppendArgument("", name)).done && !ReadName(AppendArgument("", name)).quoted
  {
    var line := AppendArgument("", name);
    if NoQuotesNeeded(name) {
      NameCopies("", name);
      assert "" + name == name;
    } else if QUOTE in name {
      NameHasNoQuote(line);
    } else {
      var open: string := "" + [QUOTE];
      NameSnoc("", QUOTE);
      NameEscaped(open, name, 0);
      NameSnoc(Escape(open, name, 0), QUOTE);
      TrailingCounts(name, 0);
      assert "" + (Backslashes(0) + name) == name;
      assert |name + Backslashes(Trailing(name, 0))| == |name| + Trailing(name, 0);
      if Trailing(name, 0) == 0 {
        assert name + Backslashes(0) == name;
      }
    }
  }

  lemma {:induction false} EscapeAdds(a: string, b: string, s: string, n: nat)
    ensures Escape(a + b, s, n) == a + Escape(b, s, n)
    decreases |s|
  {
    if s == "" {
    } else if s[0] == BACKSLASH {
      EscapeAdds(a, b, s[1..], n + 1);
    } else if s[0] == QUOTE {
      assert a + b + Backslashes(n * 2 + 1) + [QUOTE] == a + (b + Backslashes(n * 2 + 1) + [QUOTE]);
      EscapeAdds(a, b + Backslashes(n * 2 + 1) + [QUOTE], s[1..], 0);
    } else {
      assert a + b + Backslashes(n) + [s[0]] == a + (b + Backslashes(n) + [s[0]]);
      EscapeAdds(a, b + Backslashes(n) + [s[0]], s[1..], 0);
    }
  }

  lemma AppendAdds(line: string, arg: string)
    ensures AppendArgument(line, arg) == line + AppendArgument("", arg)
  {
    if !NoQuotesNeeded(arg) {
      EscapeAdds(line, [QUOTE], arg, 0);
      assert "" + [QUOTE] == [QUOTE];
    }
  }

  lemma {:induction false} WriteCons(argv: seq<string>)
    requires |argv| > 1
    ensures Write(argv) == AppendArgument("", argv[0]) + " " + Write(argv[1..])
    decreases |argv|
  {
    var n := |argv| - 1;
    var first, last, rest := argv[..n], argv[n], argv[1..];
    AppendAdds(Write(first) + " ", last);
    if n == 1 {
      assert first == [argv[0]] && rest == [last];
    } else {
      WriteCons(first);
      assert first[1..] == rest[..n - 1] && first[0] == argv[0];
      AppendAdds(Write(rest[..n - 1]) + " ", last);
      var a, b, c := AppendArgument("", argv[0]) + " ", Write(rest[..n - 1]) + " ", AppendArgument("", last);
      assert (a + Write(rest[..n - 1])) + " " == a + b;
      assert (a + b) + c == a + (b + c);
    }
  }

  lemma WriteOne(arg: string)
    ensures Write([arg]) == AppendArgument("", arg)
  {
  }

  /** The line is the name, or the name, a space and more. */
  ghost predicate Leads(name: string, line: string, rest: string) {
    line == AppendArgument("", name) || line == AppendArgument("", name) + " " + rest
  }

  lemma FirstArgumentLeads(argv: seq<string>)
    requires argv != []
    ensures Leads(argv[0], Write(argv), if |argv| == 1 then "" else Write(argv[1..]))
  {
    if |argv| == 1 {
      WriteOne(argv[0]);
      assert argv == [argv[0]];
    } else {
      WriteCons(argv);
    }
  }

  lemma NameInLine(name: string, line: string, rest: string)
    requires Leads(name, line, rest)
    ensures ReadName(line).text == name <==> NameSurvives(name)
  {
    var first := AppendArgument("", name);
    NameRoundTrip(name);
    if QUOTE in name {
      NameHasNoQuote(line);
    } else if line != first {
      assert line[..|first| + 1] == first + [' '];
      NameSnoc(first, ' ');
      NameStaysDone(line, |first| + 1);
    }
  }

  /** In a whole line the program name is read back under the same condition, whatever arguments follow. */
  lemma ProgramNameRoundTrip(argv: seq<string>)
    requires argv != []
    ensures ReadName(Write(argv)).text == argv[0] <==> NameSurvives(argv[0])
  {
    FirstArgumentLeads(argv);
    NameInLine(argv[0], Write(argv), if |argv| == 1 then "" else Write(argv[1..]));
  }

  // ----- The whole line -----

  /** What follows the program name, of which the first `k` characters have been read. */
  function AfterName(line: string, k: nat): string
    decreases |line| - k
  {
    if k >= |line| then ""
    else if ReadName(line[..k + 1]).done then line[k + 1..]
    else AfterName(line, k + 1)
  }

  /** A line as a process reads it: the program name by its rules, the rest by the rules for arguments. */
  function ReadLine(line: string): seq<string> {
    [ReadName(line).text] + Decode(AfterName(line, 0))
  }

  /** No prefix of the line up to length `end` ends the name. */
  ghost predicate GoesOn(line: string, end: nat) {
    end <= |line| && forall j :: 0 < j <= end ==> !ReadName(line[..j]).done
  }

  /** The name goes on as long as no prefix of the line ends it. */
  lemma {:induction false} AfterNameIs(line: string, k: nat, end: nat)
    requires GoesOn(line, end) && k <= end && (end < |line| ==> ReadName(line[..end + 1]).done)
    ensures AfterName(line, k) == if end < |line| then line[end + 1..] else ""
    decreases end - k
  {
    if k < end {
      AfterNameIs(line, k + 1, end);
    }
  }

  lemma PrefixNotDone(line: string, j: nat)
    requires j <= |line| && !ReadName(line).done
    ensures !ReadName(line[..j]).done
  {
    if ReadName(line[..j]).done {
      NameStaysDone(line, j);
    }
  }

  /** A name that survives ends where it should. */
  lemma SurvivingName(name: string, rest: string, line: string)
    requires QUOTE !in name
    requires line == AppendArgument("", name) || line == AppendArgument("", name) + " " + rest
    ensures AfterName(line, 0) == if line == AppendArgument("", name) then "" else rest
  {
    var written := AppendArgument("", name);
    NameRoundTrip(name);
    var n := |written|;
    forall j | 0 < j <= n
      ensures !ReadName(line[..j]).done
    {
      assert line[..j] == written[..j];
      PrefixNotDone(written, j);
    }
    if n < |line| {
      NameSnoc(written, ' ');
      assert line[..n + 1] == written + [' '];
    }
    AfterNameIs(line, 0, n);
  }

  lemma OneArgumentReads(name: string)
    requires NameSurvives(name)
    ensures ReadLine(Write([name])) == [name]
  {
    var line := Write([name]);
    WriteOne(name);
    NameInLine(name, line, "");
    SurvivingName(name, "", line);
    RoundTrip([]);
  }

  lemma MoreArgumentsRead(name: string, rest: seq<string>, line: string)
    requires NameSurvives(name) && line == AppendArgument("", name) + " " + Write(rest)
    ensures ReadLine(line) == [name] + rest
  {
    NameInLine(name, line, Write(rest));
    SurvivingName(name, Write(rest), line);
    RoundTrip(rest);
  }

  /** A process finds its arguments, name and all, exactly when the name survives. */
  lemma LineRoundTrip(argv: seq<string>)
    requires argv != []
    ensures ReadLine(Write(argv)) == argv <==> NameSurvives(argv[0])
  {
    ProgramNameRoundTrip(argv);
    if NameSurvives(argv[0]) {
      if |argv| == 1 {
        OneArgumentReads(argv[0]);
        assert argv == [argv[0]];
      } else {
        WriteCons(argv);
        MoreArgumentsRead(argv[0], argv[1..], Write(argv));
        assert argv == [argv[0]] + argv[1..];
      }
    }
  }

  /** A directory with a space in its name: the backslash at its end comes back doubled. */
  lemma TrailingBackslashDoubles()
    ensures ReadLine(Write(["a b\\", "c"])) != ["a b\\", "c"] && Decode(Write(["a b\\", "c"])) == ["a b\\", "c"]
  {
    var argv := ["a b\\", "c"];
    assert argv[0][1] == ' ' && EndsInBackslash(argv[0]);
    LineRoundTrip(argv);
    RoundTrip(argv);
  }
}
