/** The scanning loop itself, proved against the stack machine and the runs of active lines. */
module PreprocessorScanner {
  import opened Prelude
  import opened Preprocessor

  // ----- Runs of active lines -----

  lemma {:induction false} SpansSnoc(spans: seq<Span>, s: Span, o: int)
    ensures InSpans(spans + [s], o) <==> InSpans(spans, o) || s.start <= o < s.end
  {
    assert s in spans + [s];
    assert forall t :: t in spans ==> t in spans + [s];
  }

  lemma {:induction false} ExtendCovers(spans: seq<Span>, at: nat, end: nat, o: int)
    requires Ordered(spans, at) && at <= end
    ensures InSpans(Extend(spans, at, end), o) <==> InSpans(spans, o) || at <= o < end
  {
    var n := |spans| - 1;
    if spans != [] && spans[n].end == at {
      assert spans == spans[..n] + [spans[n]];
      SpansSnoc(spans[..n], spans[n], o);
      SpansSnoc(spans[..n], Span(spans[n].start, end), o);
    } else {
      SpansSnoc(spans, Span(at, end), o);
    }
  }

  ghost predicate LinesNotEmpty(past: History) {
    past.Then? ==> |past.unit.line| > 0 && LinesNotEmpty(past.before)
  }

  /** The runs are in order and in bounds, and do not touch. */
  lemma {:induction false} RunsOrdered(past: History)
    requires LinesNotEmpty(past)
    ensures Ordered(Runs(past), Counted(past))
  {
    if past.Then? {
      RunsOrdered(past.before);
    }
  }

  /** An offset is in a run iff its line is active. */
  lemma {:induction false} RunsCover(past: History, o: int)
    requires LinesNotEmpty(past)
    ensures InSpans(Runs(past), o) <==> LiveAt(past, o)
  {
    if past.Then? {
      RunsCover(past.before, o);
      RunsOrdered(past.before);
      ExtendCovers(Runs(past.before), Counted(past.before), Counted(past), o);
    }
  }

  // ----- The loop -----

  /** The run of the text from line `i` on. */
  function Scan(h: Host, lines: seq<string>, i: nat, stack: Stack, m: Macros, past: History): Result<Trace>
    requires i <= |lines|
    decreases |lines| - i
  {
    if i == |lines| then Ok(Trace(past, m))
    else
      var u :- Head(h, lines, i);
      var e :- Effect(h, u, stack, m);
      Scan(h, lines, i + 1 + |u.extra|, e.0, e.1, Then(past, u, e.2))
  }

  /** One step of the run: the next line, the stack, the macros and the history after it, or a failure. */
  ghost predicate Advanced(h: Host, lines: seq<string>, i: nat, stack: Stack, m: Macros, past: History,
                           r: Result<(nat, Stack)>, m': Macros, past': History)
    requires i < |lines|
  {
    match Head(h, lines, i)
    case Err => r.Err?
    case Ok(u) =>
      match Effect(h, u, stack, m)
      case Err => r.Err?
      case Ok(e) => r == Ok((i + 1 + |u.extra|, e.0)) && m' == e.1 && past' == Then(past, u, e.2)
  }

  lemma {:induction false} AdvancedScans(h: Host, lines: seq<string>, i: nat, stack: Stack, m: Macros, past: History,
                                         r: Result<(nat, Stack)>, m': Macros, past': History)
    requires i < |lines| && Advanced(h, lines, i, stack, m, past, r, m', past')
    ensures r.Err? ==> Scan(h, lines, i, stack, m, past).Err?
    ensures r.Ok? ==> i < r.value.0 <= |lines|
    ensures r.Ok? ==> Scan(h, lines, i, stack, m, past) == Scan(h, lines, r.value.0, r.value.1, m', past')
  {
  }

  /** Scanning a text is splitting it into units and running the stack machine on them. */
  lemma {:induction false} ScanIsRun(h: Host, lines: seq<string>, i: nat, stack: Stack, m: Macros, past: History)
    requires i <= |lines|
    ensures Scan(h, lines, i, stack, m, past)
         == match Units(h, lines, i) case Err => Err case Ok(us) => Run(h, us, stack, m, past)
    decreases |lines| - i
  {
    if i < |lines| && Head(h, lines, i).Ok? {
      var u := Head(h, lines, i).value;
      var e := Effect(h, u, stack, m);
      if e.Ok? {
        ScanIsRun(h, lines, i + 1 + |u.extra|, e.value.0, e.value.1, Then(past, u, e.value.2));
      }
    }
  }

  /** The open span, if the scanner is in active text, as it would be added to the list. */
  function Flushed(spans: seq<Span>, active: bool, start: nat, offset: nat): seq<Span> {
    if active && offset > start then spans + [Span(start, offset)] else spans
  }

  /** The spans with the open one added are the runs so far. */
  ghost predicate Tracks(past: History, spans: seq<Span>, active: bool, start: nat, offset: nat) {
    && offset == Counted(past)
    && start <= offset
    && (spans == [] || spans[|spans| - 1].end < start)
    && Flushed(spans, active, start, offset) == Runs(past)
  }

  /** An active line lengthens the open span, or opens it. */
  lemma FlushedExtends(spans: seq<Span>, start: nat, offset: nat, end: nat)
    requires start <= offset < end && (spans == [] || spans[|spans| - 1].end < start)
    ensures Extend(Flushed(spans, true, start, offset), offset, end) == Flushed(spans, true, start, end)
  {
    assert (spans + [Span(start, offset)])[..|spans|] == spans;
  }

  class Scanner {
    const host: Host
    const lines: seq<string>
    var defines: Macros

    /** The built-in constants apply only where the caller's table has no entry. */
    constructor (host: Host, lines: seq<string>, initial: Macros, builtin: Macros)
      ensures this.host == host && this.lines == lines
      ensures defines.Keys == initial.Keys + builtin.Keys
      ensures forall k :: k in defines ==> defines[k] == if k in initial then initial[k] else builtin[k]
    {
      this.host, this.lines := host, lines;
      defines := builtin + initial;
    }

    method GatherContinued(start: nat, initial: string) returns (r: Result<(string, nat)>)
      requires start < |lines|
      ensures r == Gather(host, lines, start, initial)
    {
      var rest, idx := initial, start;
      while true
        invariant start <= idx < |lines|
        invariant Gather(host, lines, start, initial)
               == match Gather(host, lines, idx, rest) case Err => Err case Ok(g) => Ok((g.0, g.1 + (idx - start)))
        decreases |lines| - idx
      {
        if !host.continues(lines[idx]) {
          return Ok((rest, idx - start));
        }
        if idx + 1 >= |lines| {
          return Err;
        }
        rest := host.join(rest, lines[idx + 1]);
        idx := idx + 1;
      }
    }

    /** One line, joined with its continuation lines if it is an `#if` or an `#elif`. */
    method ReadUnit(i: nat) returns (r: Result<Unit>)
      requires i < |lines|
      ensures r == Head(host, lines, i)
    {
      var d := host.scan(lines[i]);
      if d.If? || d.Elif? {
        var g := GatherContinued(i, d.expr);
        if g.Err? {
          return Err;
        }
        return Ok(Unit(lines[i], lines[i + 1..i + 1 + g.value.1], d.(expr := host.strip(g.value.0))));
      }
      return Ok(Unit(lines[i], [], d));
    }

    /** The part of an iteration that acts on the stack or the macro table. */
    method ApplyUnit(u: Unit, stack: Stack, active: bool) returns (r: Result<Stack>)
      requires active == AllActive(stack)
      modifies this
      ensures Effect(host, u, stack, old(defines))
           == if r.Err? then Err else Ok((r.value, defines, active && !u.dir.Conditional()))
      ensures r.Ok? && !u.dir.Conditional() ==> r.value == stack
    {
      if u.dir.Conditional() {
        return ApplyConditional(host, stack, u.dir, defines);
      }
      if active && (u.dir.Define? || u.dir.Undef?) {
        var defines' := ApplyDefine(u.dir, defines);
        if defines'.Err? {
          return Err;
        }
        defines := defines'.value;
      }
      return Ok(stack);
    }

    /** The part of an iteration that acts on the spans: a conditional directive closes the open one. */
    method TrackUnit(u: Unit, spans: seq<Span>, active: bool, start: nat, offset: nat, active': bool,
                     ghost past: History)
      returns (spans': seq<Span>, start': nat)
      requires |u.line| > 0 && Tracks(past, spans, active, start, offset)
      requires !u.dir.Conditional() ==> active' == active
      ensures Tracks(Then(past, u, active && !u.dir.Conditional()), spans', active', start', offset + |u.line|)
    {
      spans', start' := spans, start;
      if u.dir.Conditional() {
        if active && offset > start {
          spans' := spans + [Span(start, offset)];
        }
        start' := offset + |u.line|;
      } else if active {
        FlushedExtends(spans, start, offset, offset + |u.line|);
      }
    }

    /** One iteration: what follows the unit at line `i`, or why the run ends there. */
    method Advance(i: nat, stack: Stack, spans: seq<Span>, start: nat, offset: nat, ghost past: History)
      returns (r: Result<(nat, Stack)>, spans': seq<Span>, start': nat, offset': nat, ghost past': History)
      requires i < |lines| && |lines[i]| > 0 && Tracks(past, spans, AllActive(stack), start, offset)
      modifies this
      ensures Advanced(host, lines, i, stack, old(defines), past, r, defines, past')
      ensures r.Ok? ==> Tracks(past', spans', AllActive(r.value.1), start', offset')
    {
      spans', start', offset', past' := spans, start, offset, past;
      var unit := ReadUnit(i);
      if unit.Err? {
        return Err, spans', start', offset', past';
      }
      var u := unit.value;
      var stack';
      stack', spans', start', past' := AdvanceUnit(u, stack, spans, start, offset, past);
      offset' := offset + |u.line|;
      r := if stack'.Err? then Err else Ok((i + 1 + |u.extra|, stack'.value));
    }

    /** The same for a unit that has been read. */
    method AdvanceUnit(u: Unit, stack: Stack, spans: seq<Span>, start: nat, offset: nat, ghost past: History)
      returns (r: Result<Stack>, spans': seq<Span>, start': nat, ghost past': History)
      requires |u.line| > 0 && Tracks(past, spans, AllActive(stack), start, offset)
      modifies this
      ensures r.Err? ==> Effect(host, u, stack, old(defines)).Err?
      ensures r.Ok? ==>
        && past'.Then? && past' == Then(past, u, past'.live)
        && Effect(host, u, stack, old(defines)) == Ok((r.value, defines, past'.live))
        && Tracks(past', spans', AllActive(r.value), start', offset + |u.line|)
    {
      ghost var live := AllActive(stack) && !u.dir.Conditional();
      spans', start', past' := spans, start, Then(past, u, live);
      r := ApplyUnit(u, stack, AllActive(stack));
      if r.Ok? {
        spans', start' := TrackUnit(u, spans, AllActive(stack), start, offset, AllActive(r.value), past);
      }
    }

    /**
      The spans are the maximal runs of the lines of active units, at the offsets the scanner counts;
      the macro table is left as the stack machine leaves it.
     */
    method ComputeActiveSpans() returns (r: Result<seq<Span>>)
      requires forall k :: 0 <= k < |lines| ==> |lines[k]| > 0
      modifies this
      ensures r.Ok? <==> Scan(host, lines, 0, Nil, old(defines), Start).Ok?
      ensures r.Ok? ==> r.value == Runs(Scan(host, lines, 0, Nil, old(defines), Start).value.history)
      ensures r.Ok? ==> defines == Scan(host, lines, 0, Nil, old(defines), Start).value.macros
    {
      var spans: seq<Span>, stack: Stack := [], Nil;
      var offset: nat, spanStart: nat := 0, 0;
      var i: nat := 0;
      ghost var past := Start;
      ghost var whole := Scan(host, lines, 0, Nil, defines, Start);
      while i < |lines|
        invariant i <= |lines|
        invariant whole == Scan(host, lines, i, stack, defines, past)
        invariant Tracks(past, spans, AllActive(stack), spanStart, offset)
      {
        var next;
        ghost var m, before := defines, past;
        next, spans, spanStart, offset, past := Advance(i, stack, spans, spanStart, offset, past);
        AdvancedScans(host, lines, i, stack, m, before, next, defines, past);
        if next.Err? {
          return Err;
        }
        i, stack := next.value.0, next.value.1;
      }
      r := Ok(Flushed(spans, AllActive(stack), spanStart, offset));
    }
  }
}
