/**
  C strings once more, with the trigraphs of section 5.2.1.1 of ISO C11, which translation phase 1 replaces
  before anything else is read. Phase 2, which joins lines that end in a backslash, finds nothing to do:
  every line of the replaced text ends in a quotation mark.
 */
module Trigraphs {
  import opened Prelude
  import opened CString

  /** What two question marks and `c` stand for. */
  function Third(c: char): Option<char> {
    match c
    case '=' => Some('#')
    case '(' => Some('[')
    case '/' => Some('\\')
    case ')' => Some(']')
    case '\'' => Some('^')
    case '<' => Some('{')
    case '!' => Some('|')
    case '>' => Some('}')
    case '-' => Some('~')
    case _ => None
  }

  predicate TrigraphAt(text: string, i: nat) {
    i + 2 < |text| && text[i] == '?' && text[i + 1] == '?' && Third(text[i + 2]).Some?
  }

  function Phase1From(text: string, i: nat): string
    decreases |text| - i
  {
    if i >= |text| then ""
    else if TrigraphAt(text, i) then [Third(text[i + 2]).value] + Phase1From(text, i + 3)
    else [text[i]] + Phase1From(text, i + 1)
  }

  function Phase1(text: string): string {
    Phase1From(text, 0)
  }

  // ----- Lines -----

  /** Every line ends in a quotation mark. */
  ghost predicate LinesQuoted(text: string) {
    forall k :: 0 <= k < |text| && text[k] == '\n' ==> k > 0 && text[k - 1] == QUOTE
  }

  lemma LinesQuotedAppend(text: string, more: string)
    requires LinesQuoted(text) && '\n' !in more
    ensures LinesQuoted(text + more)
  {
  }

  lemma LinesQuotedEnd(text: string)
    requires LinesQuoted(text) && |text| > 0 && text[|text| - 1] == QUOTE
    ensures LinesQuoted(text + ['\n'])
  {
  }

  lemma EmitNoNewline(c: char)
    requires c as int < 256
    ensures '\n' !in Emit(c)
  {
    HexDigits(c);
  }

  lemma ClosedQuoted(text: string, c: char)
    requires LinesQuoted(text) && c as int < 256
    ensures LinesQuoted(text + Emit(c) + [QUOTE] + ['\n'])
  {
    EmitNoNewline(c);
    LinesQuotedAppend(text, Emit(c));
    LinesQuotedAppend(text + Emit(c), [QUOTE]);
    LinesQuotedEnd(text + Emit(c) + [QUOTE]);
  }

  lemma {:induction false} TextQuoted(s: string, i: nat)
    requires i <= |s| && Octets(s)
    ensures LinesQuoted(Text(s, i))
    decreases i
  {
    if i > 0 {
      TextQuoted(s, i - 1);
      if s[i - 1] == '\n' {
        ClosedQuoted(Text(s, i - 1), '\n');
        LinesQuotedAppend(Text(s, i - 1) + Emit('\n') + [QUOTE] + ['\n'], [QUOTE]);
      } else {
        EmitNoNewline(s[i - 1]);
        LinesQuotedAppend(Text(s, i - 1), Emit(s[i - 1]));
      }
    }
  }

  lemma {:induction false} Phase1Quoted(text: string, i: nat)
    requires LinesQuoted(text)
    ensures var r := Phase1From(text, i);
      && (r != "" && r[0] == '\n' ==> text[i] == '\n')
      && forall k :: 0 < k < |r| && r[k] == '\n' ==> r[k - 1] == QUOTE
    decreases |text| - i
  {
    if i < |text| {
      var next := if TrigraphAt(text, i) then i + 3 else i + 1;
      var rest := Phase1From(text, next);
      Phase1Quoted(text, next);
      assert rest != "" && rest[0] == '\n' ==> text[next - 1] == QUOTE;
      ConsQuoted(Phase1From(text, i)[0], rest);
    }
  }

  lemma ConsQuoted(c: char, rest: string)
    requires forall k :: 0 < k < |rest| && rest[k] == '\n' ==> rest[k - 1] == QUOTE
    requires rest != "" && rest[0] == '\n' ==> c == QUOTE
    ensures var r := [c] + rest;
      forall k :: 0 < k < |r| && r[k] == '\n' ==> r[k - 1] == QUOTE
  {
    var r := [c] + rest;
    forall k | 0 < k < |r| && r[k] == '\n'
      ensures r[k - 1] == QUOTE
    {
      assert r[k] == rest[k - 1] && (k > 1 ==> r[k - 1] == rest[k - 2]);
    }
  }

  /** No line of what phase 1 leaves ends in a backslash, whatever the string. */
  lemma NothingToJoin(s: string)
    requires Octets(s)
    ensures LinesQuoted(Phase1(Encode(s)))
  {
    if s != "" {
      TextQuoted(s, |s| - 1);
      ClosedQuoted(Text(s, |s| - 1), s[|s| - 1]);
    }
    Phase1Quoted(Encode(s), 0);
  }

  // ----- Replacing as the text comes -----

  function Marks(n: nat): string {
    seq(n, _ => '?')
  }

  /** What has been put out, and the question marks held back. */
  datatype Filter = Filter(out: string, held: nat) {
    function Step(c: char): Filter {
      if held == 2 && Third(c).Some? then Filter(out + [Third(c).value], 0)
      else if c == '?' then if held == 2 then Filter(out + ['?'], 2) else Filter(out, held + 1)
      else Filter(out + Marks(held) + [c], 0)
    }
  }

  function FilterTo(text: string, j: nat): (f: Filter)
    requires j <= |text|
    ensures f.held <= 2
  {
    if j == 0 then Filter("", 0) else FilterTo(text, j - 1).Step(text[j - 1])
  }

  /** The rest of the text starts with the marks held back. */
  ghost predicate Splits(text: string, j: nat, f: Filter)
    requires j <= |text|
  {
    && f.held <= 2 && f.held <= j && (forall k :: j - f.held <= k < j ==> text[k] == '?')
    && Phase1(text) == f.out + Phase1From(text, j - f.held)
  }

  lemma Regroup(a: string, b: string, c: string, d: string)
    ensures a + (b + c) == a + b + c && a + (b + (c + d)) == a + b + c + d
  {
  }

  lemma {:induction false} SplitsStep(text: string, j: nat, f: Filter)
    requires j < |text| && Splits(text, j, f)
    ensures Splits(text, j + 1, f.Step(text[j]))
  {
    var c := text[j];
    if f.held == 2 && Third(c).Some? {
      Regroup(f.out, [Third(c).value], Phase1From(text, j + 1), "");
    } else if c == '?' {
      SplitsMark(text, j, f);
    } else {
      SplitsOther(text, j, f);
    }
  }

  lemma SplitsOther(text: string, j: nat, f: Filter)
    requires j < |text| && text[j] != '?' && !(f.held == 2 && Third(text[j]).Some?) && Splits(text, j, f)
    ensures Splits(text, j + 1, f.Step(text[j]))
  {
    var rest := Phase1From(text, j + 1);
    FlushedMarks(text, j - f.held, f.held);
    Regroup(f.out, Marks(f.held), [text[j]], rest);
  }

  lemma SplitsMark(text: string, j: nat, f: Filter)
    requires j < |text| && text[j] == '?' && Splits(text, j, f)
    ensures Splits(text, j + 1, f.Step('?'))
  {
    if f.held == 2 {
      Regroup(f.out, ['?'], Phase1From(text, j - 1), "");
    }
  }

  lemma MarksCons(n: nat)
    requires n > 0
    ensures Marks(n) == ['?'] + Marks(n - 1)
  {
  }

  /** Marks that begin no trigraph stand for themselves. */
  lemma {:induction false} FlushedMarks(text: string, at: nat, n: nat)
    requires at + n <= |text| && n <= 2 && forall k :: at <= k < at + n ==> text[k] == '?'
    requires at + n == |text| || (text[at + n] != '?' && !TrigraphAt(text, at))
    ensures Phase1From(text, at) == Marks(n) + Phase1From(text, at + n)
    decreases n
  {
    if n > 0 {
      FlushedMarks(text, at + 1, n - 1);
      MarksCons(n);
      Regroup(['?'], Marks(n - 1), Phase1From(text, at + n), "");
    }
  }

  lemma {:induction false} FilterSplits(text: string, j: nat)
    requires j <= |text|
    ensures Splits(text, j, FilterTo(text, j))
    decreases j
  {
    if j > 0 {
      FilterSplits(text, j - 1);
      SplitsStep(text, j - 1, FilterTo(text, j - 1));
    }
  }

  lemma {:induction false} FilterIsPhase1(text: string)
    ensures var f := FilterTo(text, |text|);
      Phase1(text) == f.out + Marks(f.held)
  {
    FilterSplits(text, |text|);
    var f := FilterTo(text, |text|);
    FlushedMarks(text, |text| - f.held, f.held);
  }

  // ----- Reading behind the filter -----

  function Flush(greedy: bool, r: Reader, n: nat): Reader {
    if n == 0 then r else if n == 1 then r.Step(greedy, '?') else r.Step(greedy, '?').Step(greedy, '?')
  }

  /** A reader behind the filter: what it has read, and the question marks held back from it. */
  datatype Phased = Phased(reader: Reader, held: nat) {
    function Step(greedy: bool, c: char): Phased {
      if held == 2 && Third(c).Some? then Phased(reader.Step(greedy, Third(c).value), 0)
      else if c == '?' then if held == 2 then Phased(reader.Step(greedy, '?'), 2) else Phased(reader, held + 1)
      else Phased(Flush(greedy, reader, held).Step(greedy, c), 0)
    }
  }

  function PhasedTo(greedy: bool, text: string, j: nat): (p: Phased)
    requires j <= |text|
    ensures p.held <= 2
  {
    if j == 0 then Phased(Between(""), 0) else PhasedTo(greedy, text, j - 1).Step(greedy, text[j - 1])
  }

  function ReadPhased(greedy: bool, text: string): (p: Phased)
    ensures p.held <= 2
  {
    PhasedTo(greedy, text, |text|)
  }

  lemma ReadMarks(greedy: bool, text: string, n: nat)
    requires n <= 2
    ensures Read(greedy, text + Marks(n)) == Flush(greedy, Read(greedy, text), n)
  {
    if n == 0 {
      assert text + Marks(0) == text;
    } else if n == 1 {
      ReadSnoc(greedy, text, '?');
      assert Marks(1) == ['?'];
    } else {
      ReadTwo(greedy, text, '?', '?');
      assert Marks(2) == ['?', '?'];
    }
  }

  /** What reads behind the filter. */
  function Behind(greedy: bool, f: Filter): Phased {
    Phased(Read(greedy, f.out), f.held)
  }

  lemma FilterStepReads(greedy: bool, f: Filter, c: char)
    requires f.held <= 2
    ensures Behind(greedy, f.Step(c)) == Behind(greedy, f).Step(greedy, c)
  {
    if f.held == 2 && Third(c).Some? {
      ReadSnoc(greedy, f.out, Third(c).value);
    } else if c == '?' {
      ReadSnoc(greedy, f.out, '?');
    } else {
      ReadMarks(greedy, f.out, f.held);
      ReadSnoc(greedy, f.out + Marks(f.held), c);
    }
  }

  lemma {:induction false} PhasedReads(greedy: bool, text: string, j: nat)
    requires j <= |text|
    ensures PhasedTo(greedy, text, j) == Behind(greedy, FilterTo(text, j))
    decreases j
  {
    if j > 0 {
      PhasedReads(greedy, text, j - 1);
      FilterStepReads(greedy, FilterTo(text, j - 1), text[j - 1]);
    }
  }

  /** Replacing first and reading then is reading behind the filter. */
  lemma ReadIsPhased(greedy: bool, text: string)
    ensures var p := ReadPhased(greedy, text);
      Read(greedy, Phase1(text)) == Flush(greedy, p.reader, p.held)
  {
    FilterIsPhase1(text);
    PhasedReads(greedy, text, |text|);
    ReadMarks(greedy, FilterTo(text, |text|).out, FilterTo(text, |text|).held);
  }

  lemma {:induction false} PhasedPrefix(greedy: bool, text: string, c: char, j: nat)
    requires j <= |text|
    ensures PhasedTo(greedy, text + [c], j) == PhasedTo(greedy, text, j)
    decreases j
  {
    if j > 0 {
      PhasedPrefix(greedy, text, c, j - 1);
    }
  }

  lemma PhasedSnoc(greedy: bool, text: string, c: char)
    ensures ReadPhased(greedy, text + [c]) == ReadPhased(greedy, text).Step(greedy, c)
  {
    PhasedPrefix(greedy, text, c, |text|);
  }

  // ----- One written byte -----

  /** The plain reader over a few characters. */
  function Over(greedy: bool, r: Reader, s: string): Reader
    decreases |s|
  {
    if s == "" then r else Over(greedy, r.Step(greedy, s[0]), s[1..])
  }

  /** Characters that the filter lets through at once. */
  predicate Passing(s: string) {
    forall k :: 0 <= k < |s| ==> s[k] != '?'
  }

  lemma {:induction false} PhasedOver(greedy: bool, text: string, s: string)
    requires Passing(s) && ReadPhased(greedy, text).held == 0
    ensures ReadPhased(greedy, text + s) == Phased(Over(greedy, ReadPhased(greedy, text).reader, s), 0)
    decreases |s|
  {
    if s == "" {
      assert text + s == text;
    } else {
      var longer, rest := text + [s[0]], s[1..];
      assert longer + rest == text + s;
      PhasedPasses(greedy, text, s[0]);
      PhasedOver(greedy, longer, rest);
    }
  }

  lemma PhasedPasses(greedy: bool, text: string, c: char)
    requires c != '?' && ReadPhased(greedy, text).held == 0
    ensures ReadPhased(greedy, text + [c]) == Phased(ReadPhased(greedy, text).reader.Step(greedy, c), 0)
  {
    PhasedSnoc(greedy, text, c);
  }

  /** The reader behind the filter after one byte. */
  function AfterByte(greedy: bool, p: Phased, c: char): Phased
    requires c as int < 256
  {
    if c == '?' || (p.held == 2 && Third(c).Some?) then p.Step(greedy, c)
    else Phased(Over(greedy, Flush(greedy, p.reader, p.held), Emit(c)), 0)
  }

  lemma EmitPasses(c: char)
    requires c as int < 256 && c != '?'
    ensures Passing(Emit(c)) && (Third(c).Some? ==> Emit(c) == [c]) && Third(BACKSLASH).None?
  {
  }

  lemma PhasedByte(greedy: bool, text: string, c: char)
    requires c as int < 256
    ensures ReadPhased(greedy, text + Emit(c)) == AfterByte(greedy, ReadPhased(greedy, text), c)
  {
    var p, e := ReadPhased(greedy, text), Emit(c);
    PhasedSnoc(greedy, text, e[0]);
    if c == '?' || (p.held == 2 && Third(c).Some?) {
      assert e == [c];
    } else {
      EmitPasses(c);
      PhasedEscape(greedy, text, e);
    }
  }

  lemma PhasedEscape(greedy: bool, text: string, e: string)
    requires e != "" && Passing(e) && ReadPhased(greedy, text + [e[0]]).held == 0
    ensures ReadPhased(greedy, text + e) == Phased(Over(greedy, ReadPhased(greedy, text + [e[0]]).reader, e[1..]), 0)
  {
    assert Passing(e[1..]);
    PhasedOver(greedy, text + [e[0]], e[1..]);
    assert text + [e[0]] + e[1..] == text + e;
  }

  lemma OverEmit(greedy: bool, r: Reader, c: char)
    requires c as int < 256
    ensures Over(greedy, r, Emit(c)) ==
      if Letter(c).Some? then r.Step(greedy, BACKSLASH).Step(greedy, Letter(c).value)
      else if IsPrintable(c) then r.Step(greedy, c)
      else
        r.Step(greedy, BACKSLASH).Step(greedy, 'x')
        .Step(greedy, HexDigit(c as int / 16)).Step(greedy, HexDigit(c as int % 16))
  {
    var e := Emit(c);
    if |e| == 1 {
      assert e[1..] == "";
    } else if |e| == 2 {
      OverTwo(greedy, r, e[0], e[1]);
    } else {
      assert e[1..] == [e[1], e[2], e[3]];
      OverThree(greedy, r.Step(greedy, e[0]), e[1], e[2], e[3]);
    }
  }

  lemma OverTwo(greedy: bool, r: Reader, a: char, b: char)
    ensures Over(greedy, r, [a, b]) == r.Step(greedy, a).Step(greedy, b)
  {
    assert [a, b][1..] == [b] && [b][1..] == "";
    assert Over(greedy, r.Step(greedy, a), [b]) == r.Step(greedy, a).Step(greedy, b);
  }

  lemma OverThree(greedy: bool, r: Reader, a: char, b: char, c: char)
    ensures Over(greedy, r, [a, b, c]) == r.Step(greedy, a).Step(greedy, b).Step(greedy, c)
  {
    assert [a, b, c][1..] == [b, c];
    OverTwo(greedy, r.Step(greedy, a), b, c);
  }

  // ----- Bytes that are lost -----

  /** The bytes read so far, one under way included. */
  function Count(r: Reader): nat
    requires !r.Bad?
  {
    |r.out| + if r.Octal? || (r.Digits? && r.count > 0) then 1 else 0
  }

  lemma StepKeeps(greedy: bool, r: Reader, c: char)
    requires !r.Bad? && !r.Step(greedy, c).Bad?
    ensures r.out <= r.Step(greedy, c).out
    ensures Count(r.Step(greedy, c)) <= Count(r) + 1
    ensures r.Step(greedy, c).Escaped? ==> c == BACKSLASH && |r.Step(greedy, c).out| == Count(r)
  {
  }

  lemma BackslashOpens(greedy: bool, r: Reader)
    requires !r.Bad? && !r.Escaped?
    ensures var r' := r.Step(greedy, BACKSLASH);
      !r'.Bad? ==> r'.Escaped? && |r'.out| == Count(r) && r.out <= r'.out
  {
  }

  predicate Plain(c: char) {
    c != QUOTE && c != BACKSLASH && c != '\n'
  }

  lemma PlainSteps(greedy: bool, out: string, a: char, b: char, c: char)
    requires Plain(a) && Plain(b) && Plain(c)
    ensures Inside(out).Step(greedy, a).Step(greedy, b).Step(greedy, c) == Inside(out + [a, b, c])
  {
    assert out + [a] + [b] + [c] == out + [a, b, c];
  }

  lemma LetterStays(greedy: bool, out: string, c: char)
    requires c != '\n'
    ensures Inside(out).Step(greedy, c)
         == if c == QUOTE then Between(out) else if c == BACKSLASH then Escaped(out) else Inside(out + [c])
  {
  }

  lemma HexAdds(greedy: bool, out: string, c: char)
    requires c as int < 256
    ensures
      Escaped(out).Step(greedy, 'x').Step(greedy, HexDigit(c as int / 16)).Step(greedy, HexDigit(c as int % 16))
      == Digits(out, c as int, 2)
  {
    HexDigits(c);
  }

  /** A byte written where no backslash is open adds at most itself. */
  lemma EmitAdds(greedy: bool, r: Reader, c: char)
    requires c as int < 256 && !r.Bad? && !r.Escaped?
    ensures var r' := Over(greedy, r, Emit(c));
      !r'.Bad? ==> r.out <= r'.out && Count(r') <= Count(r) + 1 && !r'.Escaped?
  {
    OverEmit(greedy, r, c);
    var open := r.Step(greedy, BACKSLASH);
    BackslashOpens(greedy, r);
    if Letter(c).None? && IsPrintable(c) {
      if !r.Step(greedy, c).Bad? {
        StepKeeps(greedy, r, c);
      }
    } else if NeedsHex(c) && open.Escaped? {
      HexAdds(greedy, open.out, c);
    }
  }

  lemma HexAfterBackslash(greedy: bool, out: string, c: char)
    requires c as int < 256 && NeedsHex(c)
    ensures Over(greedy, Escaped(out), Emit(c))
         == Inside(out + [BACKSLASH] + ['x', HexDigit(c as int / 16), HexDigit(c as int % 16)])
  {
    OverEmit(greedy, Escaped(out), c);
    HexDigits(c);
    PlainSteps(greedy, out + [BACKSLASH], 'x', HexDigit(c as int / 16), HexDigit(c as int % 16));
  }

  lemma LetterAfterBackslash(greedy: bool, out: string, c: char)
    requires c as int < 256 && Letter(c).Some?
    ensures var r := Over(greedy, Escaped(out), Emit(c));
      if c == BACKSLASH then r == Escaped(out + [BACKSLASH])
      else r == Between(out + [BACKSLASH]) || r == Inside(out + [BACKSLASH] + [Letter(c).value])
  {
    OverEmit(greedy, Escaped(out), c);
    LetterStays(greedy, out + [BACKSLASH], Letter(c).value);
  }

  lemma PlainAfterBackslash(greedy: bool, out: string, c: char)
    requires c as int < 256 && Letter(c).None? && IsPrintable(c)
    ensures var r := Over(greedy, Escaped(out), Emit(c));
      r.Bad? || (out <= r.out && !r.Escaped? && Count(r) <= |out| + 1)
  {
    OverEmit(greedy, Escaped(out), c);
  }

  /** A byte written behind an open backslash: a hexadecimal escape is taken letter by letter. */
  lemma EmitAfterBackslash(greedy: bool, r: Reader, c: char)
    requires c as int < 256 && r.Escaped?
    ensures var r' := Over(greedy, r, Emit(c));
      !r'.Bad? ==>
        && r.out <= r'.out
        && (if NeedsHex(c) then !r'.Escaped? && Count(r') == |r.out| + 4 && r'.out[|r.out|] == BACKSLASH
            else if c == BACKSLASH then r' == Escaped(r.out + [BACKSLASH])
            else !r'.Escaped? && Count(r') <= |r.out| + 2)
  {
    if NeedsHex(c) {
      HexAfterBackslash(greedy, r.out, c);
    } else if Letter(c).Some? {
      LetterAfterBackslash(greedy, r.out, c);
    } else {
      PlainAfterBackslash(greedy, r.out, c);
    }
  }

  ghost predicate Mismatch(s: string, out: string) {
    exists k :: 0 <= k < |out| && k < |s| && out[k] != s[k]
  }

  lemma MismatchStays(s: string, out: string, out': string)
    requires Mismatch(s, out) && out <= out'
    ensures Mismatch(s, out')
  {
    var k :| 0 <= k < |out| && k < |s| && out[k] != s[k];
    assert out'[k] != s[k];
  }

  /**
    After `i` bytes the reader has failed, or has read something else, or has read too few. Behind an open
    backslash three more are missing, or what it would add does not fit.
   */
  ghost predicate Lost(s: string, i: nat, p: Phased)
    requires i <= |s| && p.held <= 2
  {
    var r := p.reader;
    || r.Bad?
    || Mismatch(s, r.out)
    || (if r.Escaped? then |r.out| + p.held + 3 <= i && (|r.out| + p.held + 3 == i ==> s[|r.out|] != BACKSLASH)
        else Count(r) + p.held < i)
  }

  lemma FlushKeeps(greedy: bool, r: Reader, n: nat)
    requires n <= 2 && !r.Bad? && !Flush(greedy, r, n).Bad?
    ensures r.out <= Flush(greedy, r, n).out && Count(Flush(greedy, r, n)) <= Count(r) + n
    ensures n > 0 ==> !Flush(greedy, r, n).Escaped?
  {
    if n > 0 {
      StepKeeps(greedy, r, '?');
      if n > 1 {
        StepKeeps(greedy, r.Step(greedy, '?'), '?');
      }
    }
  }

  /** What is lost stays lost when the marks are let through. */
  lemma LostFlush(greedy: bool, s: string, i: nat, p: Phased)
    requires i <= |s| && p.held <= 2 && Lost(s, i, p)
    ensures Lost(s, i, Phased(Flush(greedy, p.reader, p.held), 0))
  {
    var r, f := p.reader, Flush(greedy, p.reader, p.held);
    if !r.Bad? && !f.Bad? {
      FlushKeeps(greedy, r, p.held);
      if Mismatch(s, r.out) {
        MismatchStays(s, r.out, f.out);
      }
    }
  }

  lemma LostEmit(greedy: bool, s: string, i: nat, r: Reader)
    requires i < |s| && Octets(s) && Lost(s, i, Phased(r, 0))
    ensures Lost(s, i + 1, Phased(Over(greedy, r, Emit(s[i])), 0))
  {
    var r' := Over(greedy, r, Emit(s[i]));
    if r.Bad? {
      OverEmit(greedy, r, s[i]);
    } else if !r'.Bad? {
      if r.Escaped? {
        EmitAfterBackslash(greedy, r, s[i]);
      } else {
        EmitAdds(greedy, r, s[i]);
      }
      if Mismatch(s, r.out) {
        MismatchStays(s, r.out, r'.out);
      } else if r.Escaped? && |r.out| + 3 == i && (NeedsHex(s[i]) || s[i] == BACKSLASH) {
        assert r'.out[|r.out|] == BACKSLASH;
        assert Mismatch(s, r'.out);
      }
    }
  }

  lemma LostMark(greedy: bool, s: string, i: nat, p: Phased, c: char)
    requires i < |s| && p.held <= 2 && Lost(s, i, p) && (c == '?' || (p.held == 2 && Third(c).Some?))
    ensures Lost(s, i + 1, p.Step(greedy, c))
  {
    var r, r' := p.reader, p.Step(greedy, c).reader;
    if !r.Bad? && !r'.Bad? {
      if p.held == 2 {
        StepKeeps(greedy, r, if c == '?' then '?' else Third(c).value);
      }
      if Mismatch(s, r.out) {
        MismatchStays(s, r.out, r'.out);
      }
    }
  }

  lemma LostByte(greedy: bool, s: string, i: nat, p: Phased)
    requires i < |s| && Octets(s) && p.held <= 2 && Lost(s, i, p)
    ensures AfterByte(greedy, p, s[i]).held <= 2 && Lost(s, i + 1, AfterByte(greedy, p, s[i]))
  {
    var c := s[i];
    if c == '?' || (p.held == 2 && Third(c).Some?) {
      LostMark(greedy, s, i, p, c);
    } else {
      LostFlush(greedy, s, i, p);
      LostEmit(greedy, s, i, Flush(greedy, p.reader, p.held));
    }
  }

  // ----- Bytes that are kept -----

  /** Among the first `i` bytes no two question marks come before the third character of a trigraph. */
  predicate NoTrigraph(s: string, i: nat)
    requires i <= |s|
  {
    forall k :: 0 <= k && k + 2 < i ==> !TrigraphAt(s, k)
  }

  predicate Clean(greedy: bool, s: string, i: nat)
    requires i <= |s|
  {
    (!greedy || Safe(s, i)) && NoTrigraph(s, i)
  }

  /** The reader has the bytes but for the marks held back, which are as many of the last ones as can be. */
  ghost predicate Kept(s: string, i: nat, p: Phased)
    requires i <= |s|
  {
    var r := p.reader;
    && Open(r) && !r.Bad? && (r.Digits? ==> r.count == 2)
    && p.held <= 2 && p.held <= i && Got(r) + Marks(p.held) == s[..i]
    && (p.held < 2 && p.held < i ==> s[i - p.held - 1] != '?')
    && (p.held == 0 ==> (r.Digits? <==> i > 0 && NeedsHex(s[i - 1])))
  }

  lemma MarksAt(s: string, i: nat, p: Phased)
    requires i <= |s| && Kept(s, i, p)
    ensures forall k :: i - p.held <= k < i ==> s[k] == '?'
  {
    var got := Got(p.reader) + Marks(p.held);
    assert forall k :: i - p.held <= k < i ==> got[k] == '?';
  }

  lemma FlushOpen(greedy: bool, r: Reader, n: nat)
    requires Open(r) && !r.Bad? && n <= 2
    ensures var f := Flush(greedy, r, n);
      Open(f) && !f.Bad? && Got(f) == Got(r) + Marks(n) && (n > 0 ==> f.Inside?)
  {
    assert Marks(0) == "" && Marks(1) == ['?'] && Marks(2) == ['?', '?'];
    assert Got(r) + ['?'] + ['?'] == Got(r) + ['?', '?'];
  }

  lemma KeptFollows(greedy: bool, s: string, i: nat, p: Phased)
    requires i <= |s| && Kept(s, i, p) && (!greedy || Safe(s, i))
    ensures Follows(greedy, s, i, Flush(greedy, p.reader, p.held))
  {
    FlushOpen(greedy, p.reader, p.held);
    MarksAt(s, i, p);
  }

  lemma KeptMark(greedy: bool, s: string, i: nat, p: Phased)
    requires i < |s| && Kept(s, i, p) && Clean(greedy, s, i) && s[i] == '?'
    ensures Clean(greedy, s, i + 1) && Kept(s, i + 1, p.Step(greedy, '?'))
  {
    MarksAt(s, i, p);
    assert s[..i + 1] == s[..i] + ['?'];
    if p.held == 2 {
      assert Marks(2) == ['?', '?'];
      assert Got(p.reader) + ['?'] + ['?', '?'] == Got(p.reader) + ['?', '?'] + ['?'];
    } else {
      assert Marks(p.held + 1) == Marks(p.held) + ['?'];
      assert Got(p.reader) + (Marks(p.held) + ['?']) == Got(p.reader) + Marks(p.held) + ['?'];
    }
  }

  /** A trigraph loses two bytes, or opens a backslash that takes the place of three. */
  lemma KeptTrigraph(greedy: bool, s: string, i: nat, p: Phased)
    requires i < |s| && Kept(s, i, p) && p.held == 2 && Third(s[i]).Some?
    ensures !Clean(greedy, s, i + 1) && p.Step(greedy, s[i]).held == 0 && Lost(s, i + 1, p.Step(greedy, s[i]))
  {
    MarksAt(s, i, p);
    assert TrigraphAt(s, i - 2);
    assert |Got(p.reader)| == i - 2;
  }

  lemma OverIsAfter(greedy: bool, r: Reader, c: char)
    requires Open(r) && c as int < 256
    ensures Over(greedy, r, Emit(c)) == After(greedy, r, c)
  {
    OverEmit(greedy, r, c);
    if Letter(c).Some? {
      StepLetter(greedy, r, c);
    } else if NeedsHex(c) {
      StepHex(greedy, r, c);
    }
  }

  lemma KeptOther(greedy: bool, s: string, i: nat, p: Phased)
    requires i < |s| && Octets(s) && Kept(s, i, p) && Clean(greedy, s, i)
    requires s[i] != '?' && !(p.held == 2 && Third(s[i]).Some?)
    ensures var p' := AfterByte(greedy, p, s[i]);
      p'.held == 0 && if Clean(greedy, s, i + 1) then Kept(s, i + 1, p') else Lost(s, i + 1, p')
  {
    var f := Flush(greedy, p.reader, p.held);
    KeptFollows(greedy, s, i, p);
    OverIsAfter(greedy, f, s[i]);
    FollowsStep(greedy, s, i, f);
    MarksAt(s, i, p);
    assert NoTrigraph(s, i + 1);
    var r := After(greedy, f, s[i]);
    if !r.Bad? {
      assert Got(r) + Marks(0) == Got(r);
    }
  }

  lemma NewlineCloses(greedy: bool, r: Reader)
    ensures var r' := Over(greedy, r, Emit('\n'));
      r'.Inside? || r'.Bad?
  {
    OverEmit(greedy, r, '\n');
  }

  lemma PhasedStep(greedy: bool, s: string, i: nat)
    requires i < |s| && Octets(s)
    ensures ReadPhased(greedy, Text(s, i + 1)) == AfterByte(greedy, ReadPhased(greedy, Text(s, i)), s[i])
  {
    PhasedNext(greedy, Text(s, i), s[i]);
  }

  lemma PhasedReopens(greedy: bool, t: string)
    requires var p := ReadPhased(greedy, t);
      p.held == 0 && (p.reader.Inside? || p.reader.Bad?)
    ensures ReadPhased(greedy, t + [QUOTE] + ['\n'] + [QUOTE]) == ReadPhased(greedy, t)
  {
    PhasedSnoc(greedy, t, QUOTE);
    PhasedSnoc(greedy, t + [QUOTE], '\n');
    PhasedSnoc(greedy, t + [QUOTE] + ['\n'], QUOTE);
  }

  /** A newline closes the literal and opens another, which the reader passes over. */
  lemma PhasedNext(greedy: bool, text: string, c: char)
    requires c as int < 256
    ensures ReadPhased(greedy, text + Emit(c)) == AfterByte(greedy, ReadPhased(greedy, text), c)
    ensures c == '\n' ==>
      ReadPhased(greedy, text + Emit(c) + [QUOTE] + ['\n'] + [QUOTE]) == AfterByte(greedy, ReadPhased(greedy, text), c)
  {
    PhasedByte(greedy, text, c);
    if c == '\n' {
      var p := ReadPhased(greedy, text);
      NewlineCloses(greedy, Flush(greedy, p.reader, p.held));
      PhasedReopens(greedy, text + Emit(c));
    }
  }

  /** The reader has the first `i` bytes if they are clean, and has lost something if they are not. */
  ghost predicate Tells(greedy: bool, s: string, i: nat, p: Phased)
    requires i <= |s|
  {
    p.held <= 2 && if Clean(greedy, s, i) then Kept(s, i, p) else Lost(s, i, p)
  }

  lemma DirtStays(greedy: bool, s: string, i: nat)
    requires i < |s| && Clean(greedy, s, i + 1)
    ensures Clean(greedy, s, i)
  {
  }

  lemma TellsStep(greedy: bool, s: string, i: nat, p: Phased)
    requires i < |s| && Octets(s) && Tells(greedy, s, i, p)
    ensures Tells(greedy, s, i + 1, AfterByte(greedy, p, s[i]))
  {
    if !Clean(greedy, s, i) {
      LostByte(greedy, s, i, p);
      if Clean(greedy, s, i + 1) {
        DirtStays(greedy, s, i);
      }
    } else if s[i] == '?' {
      KeptMark(greedy, s, i, p);
    } else if p.held == 2 && Third(s[i]).Some? {
      KeptTrigraph(greedy, s, i, p);
    } else {
      KeptOther(greedy, s, i, p);
    }
  }

  lemma TellsStart(greedy: bool, s: string)
    ensures Tells(greedy, s, 0, ReadPhased(greedy, [QUOTE]))
  {
    PhasedSnoc(greedy, "", QUOTE);
    assert "" + [QUOTE] == [QUOTE];
  }

  /** The reader after the first `i` bytes. */
  ghost function PhasedAt(greedy: bool, s: string, i: nat): Phased
    requires i <= |s| && Octets(s)
  {
    if i == 0 then ReadPhased(greedy, [QUOTE]) else AfterByte(greedy, PhasedAt(greedy, s, i - 1), s[i - 1])
  }

  lemma {:induction false} TextIsPhasedAt(greedy: bool, s: string, i: nat)
    requires i <= |s| && Octets(s)
    ensures ReadPhased(greedy, Text(s, i)) == PhasedAt(greedy, s, i)
    decreases i
  {
    if i > 0 {
      var j: nat := i - 1;
      TextIsPhasedAt(greedy, s, j);
      var p := PhasedAt(greedy, s, j);
      assert ReadPhased(greedy, Text(s, j + 1)) == AfterByte(greedy, p, s[j]) by {
        PhasedStep(greedy, s, j);
      }
    }
  }

  lemma {:induction false} PhasedTells(greedy: bool, s: string, i: nat)
    requires i <= |s| && Octets(s)
    ensures Tells(greedy, s, i, PhasedAt(greedy, s, i))
    decreases i
  {
    if i == 0 {
      TellsStart(greedy, s);
    } else {
      PhasedTells(greedy, s, i - 1);
      TellsStep(greedy, s, i - 1, PhasedAt(greedy, s, i - 1));
    }
  }

  /** Every prefix of the string is either read as it is or lost for good. */
  lemma {:induction false} PhasedText(greedy: bool, s: string, i: nat)
    requires i <= |s| && Octets(s)
    ensures Tells(greedy, s, i, ReadPhased(greedy, Text(s, i)))
  {
    TextIsPhasedAt(greedy, s, i);
    PhasedTells(greedy, s, i);
  }

  lemma LostEnd(greedy: bool, s: string, p: Phased)
    requires p.held <= 2 && Lost(s, |s|, p)
    ensures var r := Flush(greedy, p.reader, p.held).Step(greedy, QUOTE).Step(greedy, '\n');
      r.Between? ==> r.out != s
  {
    LostFlush(greedy, s, |s|, p);
    var f := Flush(greedy, p.reader, p.held);
    var r := f.Step(greedy, QUOTE).Step(greedy, '\n');
    if r.Between? {
      StepKeeps(greedy, f, QUOTE);
      if Mismatch(s, f.out) {
        MismatchStays(s, f.out, r.out);
      }
    }
  }

  lemma KeptEnd(greedy: bool, s: string, p: Phased)
    requires Kept(s, |s|, p)
    ensures Flush(greedy, p.reader, p.held).Step(greedy, QUOTE).Step(greedy, '\n') == Between(s)
  {
    FlushOpen(greedy, p.reader, p.held);
    assert s[..|s|] == s;
  }

  lemma PhasedFinish(greedy: bool, text: string, c: char)
    requires c as int < 256
    ensures var p := AfterByte(greedy, ReadPhased(greedy, text), c);
      ReadPhased(greedy, Finish(text, c))
      == Phased(Flush(greedy, p.reader, p.held).Step(greedy, QUOTE).Step(greedy, '\n'), 0)
  {
    PhasedByte(greedy, text, c);
    PhasedSnoc(greedy, text + Emit(c), QUOTE);
    PhasedSnoc(greedy, text + Emit(c) + [QUOTE], '\n');
  }

  lemma TellsEnd(greedy: bool, s: string, p: Phased)
    requires Tells(greedy, s, |s|, p)
    ensures var r := Flush(greedy, p.reader, p.held).Step(greedy, QUOTE).Step(greedy, '\n');
      r.Between? && r.out == s <==> Clean(greedy, s, |s|)
  {
    if Clean(greedy, s, |s|) {
      KeptEnd(greedy, s, p);
    } else {
      LostEnd(greedy, s, p);
    }
  }

  lemma {:induction false} DecodeWhole(greedy: bool, s: string)
    requires |s| > 0 && Octets(s)
    ensures Decode(greedy, Phase1(Encode(s))) == Some(s) <==> Clean(greedy, s, |s|)
  {
    var n := |s| - 1;
    var p := AfterByte(greedy, ReadPhased(greedy, Text(s, n)), s[n]);
    PhasedText(greedy, s, n);
    TellsStep(greedy, s, n, ReadPhased(greedy, Text(s, n)));
    TellsEnd(greedy, s, p);
    ReadEnd(greedy, s, p);
  }

  lemma {:induction false} ReadEnd(greedy: bool, s: string, p: Phased)
    requires |s| > 0 && Octets(s) && p == AfterByte(greedy, ReadPhased(greedy, Text(s, |s| - 1)), s[|s| - 1])
    ensures Read(greedy, Phase1(Encode(s))) == Flush(greedy, p.reader, p.held).Step(greedy, QUOTE).Step(greedy, '\n')
  {
    PhasedFinish(greedy, Text(s, |s| - 1), s[|s| - 1]);
    ReadIsPhased(greedy, Encode(s));
  }

  lemma Phase1Empty()
    ensures Phase1([QUOTE, QUOTE]) == [QUOTE, QUOTE]
  {
    var t := [QUOTE, QUOTE];
    assert Phase1From(t, 2) == "";
    assert Phase1From(t, 1) == [QUOTE];
    assert Phase1From(t, 0) == [QUOTE] + [QUOTE];
  }

  /**
    A C11 compiler reads the string back exactly when it has no trigraph and no byte written in hex is
    followed by a hexadecimal digit; a reader that takes two digits needs only the former.
   */
  lemma TrigraphRoundTrip(greedy: bool, s: string)
    requires Octets(s)
    ensures Decode(greedy, Phase1(Encode(s))) == Some(s) <==> (!greedy || Safe(s, |s|)) && NoTrigraph(s, |s|)
  {
    if s == "" {
      ReadStart(greedy);
      Phase1Empty();
    } else {
      DecodeWhole(greedy, s);
    }
  }

  lemma EncodedSign()
    ensures Encode("a#b") == [QUOTE, 'a', '#', 'b', QUOTE, '\n']
  {
    assert Text("a#b", 1) == [QUOTE, 'a'];
    assert Text("a#b", 2) == [QUOTE, 'a', '#'];
  }

  lemma EncodedOperator()
    ensures Encode("a??=b") == [QUOTE, 'a', '?', '?', '=', 'b', QUOTE, '\n']
  {
    var s := "a??=b";
    assert Text(s, 1) == [QUOTE, 'a'];
    assert Text(s, 2) == [QUOTE, 'a', '?'];
    assert Text(s, 3) == [QUOTE, 'a', '?', '?'];
    assert Text(s, 4) == [QUOTE, 'a', '?', '?', '='];
  }

  lemma ReplacedOperator(t: string)
    requires t == [QUOTE, 'a', '?', '?', '=', 'b', QUOTE, '\n']
    ensures Phase1(t) == [QUOTE, 'a', '#', 'b', QUOTE, '\n']
  {
    assert Phase1From(t, 7) == ['\n'] + Phase1From(t, 8);
    assert Phase1From(t, 6) == [QUOTE] + Phase1From(t, 7);
    assert Phase1From(t, 5) == ['b'] + Phase1From(t, 6);
    assert Phase1From(t, 2) == ['#'] + Phase1From(t, 5);
    assert Phase1From(t, 1) == ['a'] + Phase1From(t, 2);
  }

  /** An operator of JavaScript, which C reads as a number sign. */
  lemma {:induction false} AssignmentIsReplaced()
    ensures Decode(true, Encode("a??=b")) == Some("a??=b")
    ensures Decode(true, Phase1(Encode("a??=b"))) == Some("a#b")
  {
    RoundTrip(true, "a??=b");
    RoundTrip(true, "a#b");
    EncodedOperator();
    EncodedSign();
    ReplacedOperator(Encode("a??=b"));
  }
}
