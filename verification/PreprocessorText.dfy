/** What the spans and the macro table mean for the text that was scanned. */
module PreprocessorText {
  import opened Prelude
  import opened Preprocessor
  import opened PreprocessorScanner
  import opened PreprocessorTree

  /** The recursive meaning of a text. */
  function Meaning(h: Host, lines: seq<string>, m: Macros): Result<Trace> {
    var us :- Units(h, lines, 0);
    var (forest, stray) := Parse(us);
    if stray.Nil? then Exec(h, forest, m, Start) else Err
  }

  /** The scan and the recursive meaning agree on every text, including on which texts fail. */
  lemma ScanIsMeaning(h: Host, lines: seq<string>, m: Macros)
    ensures Scan(h, lines, 0, Nil, m, Start) == Meaning(h, lines, m)
  {
    ScanIsRun(h, lines, 0, Nil, m, Start);
    var us := Units(h, lines, 0);
    if us.Ok? {
      MachineIsTree(h, us.value, m);
    }
  }

  /** The spans are ordered and disjoint, and hold exactly the offsets that the meaning makes active. */
  lemma SpansAreMeaning(h: Host, lines: seq<string>, m: Macros)
    requires forall k :: 0 <= k < |lines| ==> |lines[k]| > 0
    requires Meaning(h, lines, m).Ok?
    ensures var t := Scan(h, lines, 0, Nil, m, Start);
      && t == Meaning(h, lines, m)
      && Ordered(Runs(t.value.history), Counted(t.value.history))
      && forall o :: InSpans(Runs(t.value.history), o) <==> LiveAt(Meaning(h, lines, m).value.history, o)
  {
    ScanIsMeaning(h, lines, m);
    var past := Meaning(h, lines, m).value.history;
    ScanReads(h, lines, 0, Nil, m, Start);
    TextNotEmpty(past);
    RunsOrdered(past);
    forall o {
      RunsCover(past, o);
    }
  }

  // ----- The macro table -----

  /** The `#define` and `#undef` lines of the active units, applied in order. */
  function Replay(past: History, m: Macros): Result<Macros> {
    match past
    case Start => Ok(m)
    case Then(before, u, live) =>
      var m' :- Replay(before, m);
      if live then ApplyDefine(u.dir, m') else Ok(m')
  }

  /** The final table comes from the active lines alone. */
  lemma {:induction false} MacrosAreReplay(h: Host, us: List<Unit>, stack: Stack, m: Macros, past: History, m0: Macros)
    requires Replay(past, m0) == Ok(m)
    requires Run(h, us, stack, m, past).Ok?
    ensures Replay(Run(h, us, stack, m, past).value.history, m0) == Ok(Run(h, us, stack, m, past).value.macros)
    decreases us
  {
    if us.Cons? {
      var e := Effect(h, us.head, stack, m).value;
      MacrosAreReplay(h, us.tail, e.0, e.1, Then(past, us.head, e.2), m0);
    }
  }

  datatype Binding = Unbound | Bound(value: Option<int>)

  function Find(m: Macros, name: string): Binding {
    if name in m then Bound(m[name]) else Unbound
  }

  /** The latest active line that defines or undefines the name decides; without one, the initial table. */
  function Latest(past: History, m: Macros, name: string): Binding {
    match past
    case Start => Find(m, name)
    case Then(before, u, live) =>
      if live && u.dir.Define? && u.dir.name == Some(name) then Bound(u.dir.body)
      else if live && u.dir.Undef? && u.dir.name == Some(name) then Unbound
      else Latest(before, m, name)
  }

  lemma {:induction false} ReplayIsLatest(past: History, m: Macros, name: string)
    requires Replay(past, m).Ok?
    ensures Find(Replay(past, m).value, name) == Latest(past, m, name)
  {
    if past.Then? {
      ReplayIsLatest(past.before, m, name);
    }
  }

  /** Every macro ends up as the latest active line about it left it. */
  lemma MacrosAreLatest(h: Host, lines: seq<string>, m: Macros, name: string)
    requires Scan(h, lines, 0, Nil, m, Start).Ok?
    ensures var t := Scan(h, lines, 0, Nil, m, Start).value;
      Find(t.macros, name) == Latest(t.history, m, name)
  {
    ScanIsRun(h, lines, 0, Nil, m, Start);
    MacrosAreReplay(h, Units(h, lines, 0).value, Nil, m, Start, m);
    ReplayIsLatest(Scan(h, lines, 0, Nil, m, Start).value.history, m, name);
  }

  // ----- True offsets -----

  /** The physical lines of the scanned units. */
  function Text(past: History): seq<string> {
    match past
    case Start => []
    case Then(before, u, _) => Text(before) + ([u.line] + u.extra)
  }

  function Length(lines: seq<string>): nat {
    if lines == [] then 0 else |lines[0]| + Length(lines[1..])
  }

  /** How many characters of the text were read, continuation lines included. */
  function Actual(past: History): nat {
    match past
    case Start => 0
    case Then(before, u, _) => Actual(before) + |u.line| + Length(u.extra)
  }

  /** Offset `o` of the text belongs to the line of an active unit. */
  predicate ActuallyLiveAt(past: History, o: int) {
    match past
    case Start => false
    case Then(before, u, live) =>
      ActuallyLiveAt(before, o) || (live && Actual(before) <= o < Actual(before) + |u.line|)
  }

  /** Some `#if` or `#elif` of the text ran over several lines. */
  predicate AnyContinued(past: History) {
    past.Then? && (past.unit.extra != [] || AnyContinued(past.before))
  }

  /** No line is active after an `#if` or `#elif` that ran over several lines. */
  predicate Aligned(past: History) {
    past.Then? ==> Aligned(past.before) && (past.live ==> !AnyContinued(past.before))
  }

  predicate NoEmptyLine(lines: seq<string>) {
    forall k :: 0 <= k < |lines| ==> |lines[k]| > 0
  }

  lemma {:induction false} LengthPositive(lines: seq<string>)
    requires NoEmptyLine(lines)
    ensures Length(lines) > 0 <==> lines != []
  {
  }

  /** The scanner falls behind the text exactly when a conditional ran over several lines. */
  lemma {:induction false} CountFallsBehind(past: History)
    requires NoEmptyLine(Text(past))
    ensures Counted(past) <= Actual(past)
    ensures Counted(past) < Actual(past) <==> AnyContinued(past)
  {
    if past.Then? {
      var here := [past.unit.line] + past.unit.extra;
      assert Text(past) == Text(past.before) + here;
      SplitNotEmpty(Text(past.before), here);
      assert forall k :: 0 <= k < |past.unit.extra| ==> past.unit.extra[k] == here[k + 1];
      LengthPositive(past.unit.extra);
      CountFallsBehind(past.before);
    }
  }

  lemma SplitNotEmpty(a: seq<string>, b: seq<string>)
    requires NoEmptyLine(a + b)
    ensures NoEmptyLine(a) && NoEmptyLine(b)
  {
    assert forall k :: 0 <= k < |a| ==> a[k] == (a + b)[k];
    assert forall k :: 0 <= k < |b| ==> b[k] == (a + b)[|a| + k];
  }

  lemma {:induction false} TextNotEmpty(past: History)
    requires NoEmptyLine(Text(past))
    ensures LinesNotEmpty(past)
  {
    if past.Then? {
      var here := [past.unit.line] + past.unit.extra;
      SplitNotEmpty(Text(past.before), here);
      assert here[0] == past.unit.line;
      TextNotEmpty(past.before);
    }
  }

  lemma {:induction false} LiveAtIsCounted(past: History, o: int)
    requires LiveAt(past, o)
    ensures o < Counted(past)
  {
    if LiveAt(past.before, o) {
      LiveAtIsCounted(past.before, o);
    }
  }

  /** The counted offsets are the true ones if and only if no line is active after such a conditional. */
  lemma {:induction false} CountsAreTrueIffAligned(past: History)
    requires NoEmptyLine(Text(past))
    ensures (forall o :: LiveAt(past, o) <==> ActuallyLiveAt(past, o)) <==> Aligned(past)
  {
    if Aligned(past) {
      forall o {
        AlignedIsTrue(past, o);
      }
    } else {
      var o := MisalignedIsFalse(past);
    }
  }

  lemma {:induction false} AlignedIsTrue(past: History, o: int)
    requires NoEmptyLine(Text(past)) && Aligned(past)
    ensures LiveAt(past, o) <==> ActuallyLiveAt(past, o)
  {
    if past.Then? {
      SplitNotEmpty(Text(past.before), [past.unit.line] + past.unit.extra);
      AlignedIsTrue(past.before, o);
      CountFallsBehind(past.before);
    }
  }

  lemma {:induction false} MisalignedIsFalse(past: History) returns (o: int)
    requires NoEmptyLine(Text(past)) && !Aligned(past)
    ensures ActuallyLiveAt(past, o) && !LiveAt(past, o)
  {
    SplitNotEmpty(Text(past.before), [past.unit.line] + past.unit.extra);
    if past.live {
      TextNotEmpty(past);
      NotContinuedIsAligned(past.before);
      CountFallsBehind(past.before);
      o := Actual(past.before) + |past.unit.line| - 1;
      if LiveAt(past, o) {
        LiveAtIsCounted(past, o);
      }
    } else {
      o := MisalignedIsFalse(past.before);
    }
  }

  lemma {:induction false} NotContinuedIsAligned(past: History)
    ensures !AnyContinued(past) ==> Aligned(past)
  {
    if past.Then? {
      NotContinuedIsAligned(past.before);
    }
  }

  lemma TextReads(h: Host, lines: seq<string>, i: nat, past: History, live: bool)
    requires i < |lines| && Head(h, lines, i).Ok? && Text(past) == lines[..i]
    ensures var u := Head(h, lines, i).value;
      i + 1 + |u.extra| <= |lines| && Text(Then(past, u, live)) == lines[..i + 1 + |u.extra|]
  {
    HeadReads(h, lines, i);
  }

  /** A run that succeeds reads a unit and goes on behind it. */
  lemma {:induction false} ScanGoesOn(h: Host, lines: seq<string>, i: nat, stack: Stack, m: Macros, past: History)
    returns (next: nat, stack': Stack, m': Macros, past': History)
    requires i < |lines| && Text(past) == lines[..i] && Scan(h, lines, i, stack, m, past).Ok?
    ensures i < next <= |lines| && Text(past') == lines[..next]
    ensures Scan(h, lines, i, stack, m, past) == Scan(h, lines, next, stack', m', past')
  {
    var u := Head(h, lines, i).value;
    var e := Effect(h, u, stack, m).value;
    next, stack', m', past' := i + 1 + |u.extra|, e.0, e.1, Then(past, u, e.2);
    AdvancedScans(h, lines, i, stack, m, past, Ok((next, stack')), m', past');
    TextReads(h, lines, i, past, e.2);
  }

  /** Every physical line is read once, in order. */
  lemma {:induction false} ScanReads(h: Host, lines: seq<string>, i: nat, stack: Stack, m: Macros, past: History)
    requires i <= |lines| && Text(past) == lines[..i]
    requires Scan(h, lines, i, stack, m, past).Ok?
    ensures Text(Scan(h, lines, i, stack, m, past).value.history) == lines
    decreases |lines| - i
  {
    if i == |lines| {
      assert lines[..i] == lines;
    } else {
      var next, stack', m', past' := ScanGoesOn(h, lines, i, stack, m, past);
      ScanReads(h, lines, next, stack', m', past');
    }
  }

  lemma {:induction false} LengthAppend(a: seq<string>, b: seq<string>)
    ensures Length(a + b) == Length(a) + Length(b)
    decreases |a|
  {
    if a == [] {
      assert a + b == b;
    } else {
      assert (a + b)[1..] == a[1..] + b;
      LengthAppend(a[1..], b);
    }
  }

  /** The offset of a unit is the length of the lines before it. */
  lemma {:induction false} ActualIsLength(past: History)
    ensures Actual(past) == Length(Text(past))
  {
    if past.Then? {
      var here := [past.unit.line] + past.unit.extra;
      ActualIsLength(past.before);
      LengthAppend(Text(past.before), here);
      assert here[1..] == past.unit.extra;
    }
  }

  /**
    The spans returned for a text hold exactly the offsets of its active lines, as the recursive meaning has
    them, if and only if no line is active after an `#if` or `#elif` that ran over several lines.
   */
  lemma SpansAreTrueIffAligned(h: Host, lines: seq<string>, m: Macros)
    requires NoEmptyLine(lines) && Meaning(h, lines, m).Ok?
    ensures Scan(h, lines, 0, Nil, m, Start) == Meaning(h, lines, m)
    ensures var past := Meaning(h, lines, m).value.history;
      && Text(past) == lines && Actual(past) == Length(lines)
      && ((forall o :: InSpans(Runs(past), o) <==> ActuallyLiveAt(past, o)) <==> Aligned(past))
  {
    SpansAreMeaning(h, lines, m);
    ScanReads(h, lines, 0, Nil, m, Start);
    var past := Meaning(h, lines, m).value.history;
    ActualIsLength(past);
    CountsAreTrueIffAligned(past);
  }

  /** No line that opens or splits a conditional goes on in the next. */
  predicate NoneContinued(h: Host, lines: seq<string>) {
    forall k :: 0 <= k < |lines| && (h.scan(lines[k]).If? || h.scan(lines[k]).Elif?) ==> !h.continues(lines[k])
  }

  lemma {:induction false} NoneContinuedInHistory(h: Host, lines: seq<string>, i: nat, stack: Stack, m: Macros,
                                                  past: History)
    requires i <= |lines| && NoneContinued(h, lines) && !AnyContinued(past) && Scan(h, lines, i, stack, m, past).Ok?
    ensures !AnyContinued(Scan(h, lines, i, stack, m, past).value.history)
    decreases |lines| - i
  {
    if i < |lines| {
      var u := Head(h, lines, i).value;
      var e := Effect(h, u, stack, m).value;
      assert u.extra == [];
      NoneContinuedInHistory(h, lines, i + 1 + |u.extra|, e.0, e.1, Then(past, u, e.2));
    }
  }

  /** So for every text without a continued conditional the spans are those of its active lines. */
  lemma SpansAreTrue(h: Host, lines: seq<string>, m: Macros)
    requires NoEmptyLine(lines) && Meaning(h, lines, m).Ok? && NoneContinued(h, lines)
    ensures var past := Meaning(h, lines, m).value.history;
      && Scan(h, lines, 0, Nil, m, Start).Ok? && Scan(h, lines, 0, Nil, m, Start).value.history == past
      && forall o :: InSpans(Runs(past), o) <==> ActuallyLiveAt(past, o)
  {
    SpansAreTrueIffAligned(h, lines, m);
    NoneContinuedInHistory(h, lines, 0, Nil, m, Start);
    NotContinuedIsAligned(Meaning(h, lines, m).value.history);
  }

  lemma HeadReads(h: Host, lines: seq<string>, i: nat)
    requires i < |lines| && Head(h, lines, i).Ok?
    ensures var u := Head(h, lines, i).value;
      lines[..i + 1 + |u.extra|] == lines[..i] + ([u.line] + u.extra)
  {
    var u := Head(h, lines, i).value;
    assert u.extra == lines[i + 1..i + 1 + |u.extra|];
    assert u.line == lines[i];
  }

  /** A conditional of 8 and 5 characters, a live line of 2, and the end of the group. */
  lemma OneLiveLine(open: Unit, x: Unit, close: Unit)
    requires |open.line| == 8 && |open.extra| == 1 && |open.extra[0]| == 5 && |x.line| == 2 && x.extra == []
    ensures var past := Then(Then(Then(Start, open, false), x, true), close, false);
      ActuallyLiveAt(past, 13) && !LiveAt(past, 13) && LiveAt(past, 8) && !ActuallyLiveAt(past, 8)
  {
    var p1 := Then(Start, open, false);
    var p2 := Then(p1, x, true);
    assert open.extra[1..] == [] && Length(open.extra) == 5;
    assert Counted(p1) == 8 && Actual(p1) == 13 && Counted(p2) == 10;
    assert !LiveAt(p1, 8) && !LiveAt(p1, 13) && !ActuallyLiveAt(p1, 8) && !ActuallyLiveAt(p1, 13);
    assert ActuallyLiveAt(p2, 13) && !ActuallyLiveAt(p2, 8);
    assert LiveAt(p2, 8) && !LiveAt(p2, 13);
  }

  /** Four lines that are a continued conditional that holds, a line of text and the end of the group. */
  lemma ScanGroup(h: Host, lines: seq<string>, open: Unit, x: Unit, close: Unit)
    requires |lines| == 4 && Head(h, lines, 0) == Ok(open)
    requires Head(h, lines, 2) == Ok(x) && Head(h, lines, 3) == Ok(close)
    requires |open.extra| == 1 && open.dir.If? && h.eval(open.dir.expr, map[]) == Ok(true)
    requires x.extra == close.extra == [] && x.dir == Directive.Text && close.dir == Endif
    ensures Scan(h, lines, 0, Nil, map[], Start)
         == Ok(Trace(Then(Then(Then(Start, open, false), x, true), close, false), map[]))
  {
    var p1 := Then(Start, open, false);
    var p2 := Then(p1, x, true);
    var p3 := Then(p2, close, false);
    var inside: Stack := Cons(Frame(true, true, true), Nil);
    assert Scan(h, lines, 4, Nil, map[], p3) == Ok(Trace(p3, map[]));
    assert Scan(h, lines, 3, inside, map[], p2) == Ok(Trace(p3, map[]));
    assert Scan(h, lines, 2, inside, map[], p1) == Ok(Trace(p3, map[]));
  }

  /** On an actual text: an `#if` of two lines puts the line after it at the wrong offset. */
  lemma ContinuedIfMisplacesSpan()
    ensures var lines := ["#if A \\\n", "&& B\n", "x\n", "#endif\n"];
      exists h: Host, past: History ::
        && Scan(h, lines, 0, Nil, map[], Start) == Ok(Trace(past, map[]))
        && ActuallyLiveAt(past, 13) && !LiveAt(past, 13) && LiveAt(past, 8) && !ActuallyLiveAt(past, 8)
  {
    var lines := ["#if A \\\n", "&& B\n", "x\n", "#endif\n"];
    var h := BySize();
    var open, x := Unit(lines[0], [lines[1]], If("A && B")), Unit(lines[2], [], Directive.Text);
    var close := Unit(lines[3], [], Endif);
    HeadsBySize(lines);
    ScanGroup(h, lines, open, x, close);
    OneLiveLine(open, x, close);
    var past := Then(Then(Then(Start, open, false), x, true), close, false);
    assert Scan(h, lines, 0, Nil, map[], Start) == Ok(Trace(past, map[]));
  }

  /** Directives told apart by the length of their lines; the first line is continued. */
  function BySize(): Host {
    Host(
      s => if |s| == 8 then If("A") else if |s| == 2 then Directive.Text else Endif,
      s => |s| == 8,
      (a, b) => "A && B",
      s => s,
      (s, m) => Ok(true))
  }

  lemma HeadsBySize(lines: seq<string>)
    requires |lines| == 4 && |lines[0]| == 8 && |lines[1]| == 5 && |lines[2]| == 2 && |lines[3]| == 7
    ensures Head(BySize(), lines, 0) == Ok(Unit(lines[0], [lines[1]], If("A && B")))
    ensures Head(BySize(), lines, 2) == Ok(Unit(lines[2], [], Directive.Text))
    ensures Head(BySize(), lines, 3) == Ok(Unit(lines[3], [], Endif))
  {
    assert lines[1..2] == [lines[1]];
    assert Gather(BySize(), lines, 1, "A && B") == Ok(("A && B", 0));
  }
}
