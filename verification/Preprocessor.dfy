/**
  The conditional-compilation scanner of the system call binding generator: a loop over physical
  lines with a stack of `#if` frames, which threads a macro table and collects the active spans.

  What is done to the characters of one line, and the evaluation of an expression, are parameters
  (`Host`); everything else is written out.
 */
module Preprocessor {
  import opened Prelude

  type Macros = map<string, Option<int>>

  /** One line, as the directive pattern classifies it. A missing name is a malformed directive. */
  datatype Directive =
    | If(expr: string)
    | Ifdef(name: Option<string>)
    | Ifndef(name: Option<string>)
    | Elif(expr: string)
    | Else
    | Endif
    | Define(name: Option<string>, body: Option<int>)
    | Undef(name: Option<string>)
    | Text
  {
    predicate Opens() { If? || Ifdef? || Ifndef? }

    predicate Splits() { Elif? || Else? }

    predicate Conditional() { Opens() || Splits() || Endif? }

    /** An `#ifdef` or `#ifndef` without a name is refused even inside a skipped group. */
    predicate Named() { Ifdef? || Ifndef? ==> name.Some? }
  }

  /**
    `scan` classifies a line, `continues` tells whether it ends in a backslash, `join` adds a
    continuation line to an expression, `strip` removes comments and `eval` evaluates.
   */
  datatype Host = Host(
    scan: string -> Directive,
    continues: string -> bool,
    join: (string, string) -> string,
    strip: string -> string,
    eval: (string, Macros) -> Result<bool>)

  datatype Frame = Frame(parentActive: bool, anyTaken: bool, active: bool)

  /** A physical line together with the continuation lines that an `#if` or `#elif` swallowed. */
  datatype Unit = Unit(line: string, extra: seq<string>, dir: Directive)

  // ----- Line continuation -----

  /** The whole expression of a directive on line `i`, and how many further lines it spans. */
  function Gather(h: Host, lines: seq<string>, i: nat, rest: string): (r: Result<(string, nat)>)
    requires i < |lines|
    ensures r.Ok? ==> i + r.value.1 < |lines|
    decreases |lines| - i
  {
    if !h.continues(lines[i]) then Ok((rest, 0))
    else if i + 1 >= |lines| then Err
    else
      var more :- Gather(h, lines, i + 1, h.join(rest, lines[i + 1]));
      Ok((more.0, more.1 + 1))
  }

  /** The expression with the next `n` lines added to it. */
  function Joined(h: Host, lines: seq<string>, i: nat, n: nat, rest: string): string
    requires i + n < |lines|
  {
    if n == 0 then rest else h.join(Joined(h, lines, i, n - 1, rest), lines[i + n])
  }

  lemma {:induction false} JoinedFront(h: Host, lines: seq<string>, i: nat, n: nat, rest: string)
    requires i + n + 1 < |lines|
    ensures Joined(h, lines, i + 1, n, h.join(rest, lines[i + 1])) == Joined(h, lines, i, n + 1, rest)
    decreases n
  {
    if n > 0 {
      JoinedFront(h, lines, i, n - 1, rest);
    }
  }

  /** A directive goes on up to the first line that does not end in a backslash, and fails without one. */
  lemma {:induction false} GatherStops(h: Host, lines: seq<string>, i: nat, rest: string)
    requires i < |lines|
    ensures var g := Gather(h, lines, i, rest);
      if g.Err? then forall k :: i <= k < |lines| ==> h.continues(lines[k])
      else
        && (forall k :: i <= k < i + g.value.1 ==> h.continues(lines[k])) && !h.continues(lines[i + g.value.1])
        && g.value.0 == Joined(h, lines, i, g.value.1, rest)
    decreases |lines| - i
  {
    if h.continues(lines[i]) && i + 1 < |lines| {
      var next := h.join(rest, lines[i + 1]);
      GatherStops(h, lines, i + 1, next);
      var more := Gather(h, lines, i + 1, next);
      if more.Ok? {
        JoinedFront(h, lines, i, more.value.1, rest);
      }
    }
  }

  function Head(h: Host, lines: seq<string>, i: nat): (r: Result<Unit>)
    requires i < |lines|
    ensures r.Ok? ==> i + |r.value.extra| < |lines|
    ensures r.Ok? && r.value.extra != [] ==> r.value.dir.If? || r.value.dir.Elif?
  {
    var d := h.scan(lines[i]);
    if d.If? || d.Elif? then
      var g :- Gather(h, lines, i, d.expr);
      Ok(Unit(lines[i], lines[i + 1..i + 1 + g.1], d.(expr := h.strip(g.0))))
    else
      Ok(Unit(lines[i], [], d))
  }

  /** The text from line `i` on as the loop consumes it: one unit for each iteration. */
  function Units(h: Host, lines: seq<string>, i: nat): Result<List<Unit>>
    requires i <= |lines|
    decreases |lines| - i
  {
    if i == |lines| then Ok(Nil)
    else
      var u :- Head(h, lines, i);
      var us :- Units(h, lines, i + 1 + |u.extra|);
      Ok(Cons(u, us))
  }

  // ----- The stack machine -----

  /** The open conditionals, the innermost first. */
  type Stack = List<Frame>

  predicate AllActive(stack: Stack) {
    stack.Cons? ==> stack.head.active && AllActive(stack.tail)
  }

  predicate TopActive(stack: Stack) {
    stack.Cons? ==> stack.head.active
  }

  function Push(stack: Stack, cond: bool): Stack {
    var active := TopActive(stack) && cond;
    Cons(Frame(TopActive(stack), active, active), stack)
  }

  /** The effect of one conditional directive on the open conditionals. */
  function ApplyConditional(h: Host, stack: Stack, d: Directive, m: Macros): Result<Stack>
    requires d.Conditional()
  {
    match d
    case If(expr) =>
      if TopActive(stack) then
        var cond :- h.eval(expr, m);
        Ok(Push(stack, cond))
      else
        Ok(Push(stack, false))
    case Ifdef(name) => if name.None? then Err else Ok(Push(stack, name.value in m))
    case Ifndef(name) => if name.None? then Err else Ok(Push(stack, name.value !in m))
    case Elif(expr) =>
      if stack.Nil? then Err
      else if !stack.head.parentActive then Ok(Cons(Frame(false, stack.head.anyTaken, false), stack.tail))
      else if stack.head.anyTaken then Ok(Cons(Frame(true, true, false), stack.tail))
      else
        var cond :- h.eval(expr, m);
        Ok(Cons(Frame(true, cond, cond), stack.tail))
    case Else =>
      if stack.Nil? then Err
      else if !stack.head.parentActive then Ok(Cons(Frame(false, stack.head.anyTaken, false), stack.tail))
      else Ok(Cons(Frame(true, true, !stack.head.anyTaken), stack.tail))
    case Endif => if stack.Nil? then Err else Ok(stack.tail)
  }

  /** The effect of a line outside any skipped group on the macro table. */
  function ApplyDefine(d: Directive, m: Macros): Result<Macros> {
    match d
    case Define(name, body) => if name.None? then Err else Ok(m[name.value := body])
    case Undef(name) => if name.None? then Err else Ok(m - {name.value})
    case _ => Ok(m)
  }

  /** The units scanned so far, the latest outermost, each with whether its text is active. */
  datatype History = Start | Then(before: History, unit: Unit, live: bool)

  datatype Trace = Trace(history: History, macros: Macros)

  /** What one unit does: the new stack, the new macro table, and whether its text is active. */
  function Effect(h: Host, u: Unit, stack: Stack, m: Macros): Result<(Stack, Macros, bool)> {
    if u.dir.Conditional() then
      var stack' :- ApplyConditional(h, stack, u.dir, m);
      Ok((stack', m, false))
    else if AllActive(stack) then
      var m' :- ApplyDefine(u.dir, m);
      Ok((stack, m', true))
    else
      Ok((stack, m, false))
  }

  function Run(h: Host, us: List<Unit>, stack: Stack, m: Macros, past: History): Result<Trace>
    decreases us
  {
    match us
    case Nil => Ok(Trace(past, m))
    case Cons(u, rest) =>
      var e :- Effect(h, u, stack, m);
      Run(h, rest, e.0, e.1, Then(past, u, e.2))
  }

  // ----- Positions and spans -----

  /** How many characters the scanner counts: continuation lines are not added. */
  function Counted(past: History): nat {
    match past
    case Start => 0
    case Then(before, u, _) => Counted(before) + |u.line|
  }

  /** Offset `o` belongs to the line of an active unit, by the scanner's own count. */
  predicate LiveAt(past: History, o: int) {
    match past
    case Start => false
    case Then(before, u, live) => LiveAt(before, o) || (live && Counted(before) <= o < Counted(past))
  }

  datatype Span = Span(start: nat, end: nat)

  ghost predicate InSpans(spans: seq<Span>, o: int) {
    exists s :: s in spans && s.start <= o < s.end
  }

  /** The spans are non-empty, separated and increasing, and end by `bound`. */
  ghost predicate Ordered(spans: seq<Span>, bound: nat) {
    && (forall i :: 0 <= i < |spans| ==> spans[i].start < spans[i].end <= bound)
    && (forall i, j :: 0 <= i < j < |spans| ==> spans[i].end < spans[j].start)
  }

  /** The maximal runs of active lines. */
  function Runs(past: History): seq<Span> {
    match past
    case Start => []
    case Then(before, _, live) =>
      if live then Extend(Runs(before), Counted(before), Counted(past)) else Runs(before)
  }

  /** Adds a stretch after the spans, as part of the last one if it touches it. */
  function Extend(spans: seq<Span>, at: nat, end: nat): seq<Span> {
    var n := |spans| - 1;
    if spans != [] && spans[n].end == at then spans[..n] + [Span(spans[n].start, end)]
    else spans + [Span(at, end)]
  }
}
