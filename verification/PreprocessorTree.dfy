/**
  The reference meaning of nested conditionals, section 6.10.1 of ISO C11: a text is a forest of
  groups, each group runs the first section whose condition holds and skips the others unread. The
  stack machine is proved to agree with it on every text.
 */
module PreprocessorTree {
  import opened Prelude
  import opened Preprocessor

  /**
    A group is its sections, the first headed by the opening directive. `closer` is absent only when
    the text ends inside the group.
   */
  datatype Forest =
    | Empty
    | Plain(unit: Unit, next: Forest)
    | Group(sections: Sections, closer: Option<Unit>, next: Forest)

  datatype Sections = Done | Section(head: Unit, body: Forest, more: Sections)

  // ----- The recursive meaning -----

  /** The condition that opens a section in a group that has run none so far. */
  function Condition(h: Host, d: Directive, m: Macros): Result<bool> {
    match d
    case If(expr) => h.eval(expr, m)
    case Elif(expr) => h.eval(expr, m)
    case Ifdef(name) => if name.None? then Err else Ok(name.value in m)
    case Ifndef(name) => if name.None? then Err else Ok(name.value !in m)
    case _ => Ok(true)
  }

  function Exec(h: Host, f: Forest, m: Macros, past: History): Result<Trace> {
    match f
    case Empty => Ok(Trace(past, m))
    case Plain(u, next) =>
      var m' :- ApplyDefine(u.dir, m);
      Exec(h, next, m', Then(past, u, true))
    case Group(sections, closer, next) =>
      var t :- ExecSections(h, sections, m, past);
      Exec(h, next, t.macros, SkipCloser(closer, t.history))
  }

  /** Runs the first section whose condition holds. */
  function ExecSections(h: Host, s: Sections, m: Macros, past: History): Result<Trace> {
    match s
    case Done => Ok(Trace(past, m))
    case Section(head, body, more) =>
      var cond :- Condition(h, head.dir, m);
      if cond then
        var t :- Exec(h, body, m, Then(past, head, false));
        if SectionsSkippable(more) then Ok(Trace(SkipSections(more, t.history), t.macros)) else Err
      else
        if Skippable(body) then ExecSections(h, more, m, Skip(body, Then(past, head, false))) else Err
  }

  /** Skipping reads nothing but the names of `#ifdef` and `#ifndef`. */
  predicate Skippable(f: Forest) {
    match f
    case Empty => true
    case Plain(_, next) => Skippable(next)
    case Group(sections, _, next) => SectionsSkippable(sections) && Skippable(next)
  }

  predicate SectionsSkippable(s: Sections) {
    s.Section? ==> s.head.dir.Named() && Skippable(s.body) && SectionsSkippable(s.more)
  }

  /** Everything in a skipped forest is inactive. */
  function Skip(f: Forest, past: History): History {
    match f
    case Empty => past
    case Plain(u, next) => Skip(next, Then(past, u, false))
    case Group(sections, closer, next) => Skip(next, SkipCloser(closer, SkipSections(sections, past)))
  }

  function SkipSections(s: Sections, past: History): History {
    match s
    case Done => past
    case Section(head, body, more) => SkipSections(more, Skip(body, Then(past, head, false)))
  }

  function SkipCloser(closer: Option<Unit>, past: History): History {
    match closer
    case None => past
    case Some(u) => Then(past, u, false)
  }

  // ----- Forests and texts -----

  /** The text of a forest, followed by `rest`. */
  function Flatten(f: Forest, rest: List<Unit>): List<Unit> {
    match f
    case Empty => rest
    case Plain(u, next) => Cons(u, Flatten(next, rest))
    case Group(sections, closer, next) => FlattenGroup(sections, closer, Flatten(next, rest))
  }

  function FlattenGroup(s: Sections, closer: Option<Unit>, rest: List<Unit>): List<Unit> {
    match s
    case Done => if closer.Some? then Cons(closer.value, rest) else rest
    case Section(head, body, more) => Cons(head, Flatten(body, FlattenGroup(more, closer, rest)))
  }

  /** Every directive stands where its kind belongs, and only what ends the text is left open. */
  predicate Shaped(f: Forest, rest: List<Unit>) {
    match f
    case Empty => true
    case Plain(u, next) => !u.dir.Conditional() && Shaped(next, rest)
    case Group(sections, closer, next) =>
      && sections.Section?
      && sections.head.dir.Opens()
      && SectionsShaped(sections, closer, Flatten(next, rest))
      && Shaped(next, rest)
  }

  predicate SectionsShaped(s: Sections, closer: Option<Unit>, rest: List<Unit>) {
    match s
    case Done => if closer.Some? then closer.value.dir.Endif? else rest.Nil?
    case Section(_, body, more) =>
      && Shaped(body, FlattenGroup(more, closer, rest))
      && SectionsShaped(more, closer, rest)
      && (more.Section? ==> more.head.dir.Splits())
  }

  predicate Closes(rest: List<Unit>) {
    rest.Nil? || rest.head.dir.Splits() || rest.head.dir.Endif?
  }

  function Size(us: List<Unit>): nat {
    if us.Nil? then 0 else 1 + Size(us.tail)
  }

  /** Reads the longest forest at the front of a text. */
  function Parse(us: List<Unit>): (r: (Forest, List<Unit>))
    ensures us == Flatten(r.0, r.1) && Shaped(r.0, r.1)
    ensures Closes(r.1) && Size(r.1) <= Size(us)
    decreases Size(us)
  {
    if Closes(us) then (Empty, us)
    else if us.head.dir.Opens() then
      var (sections, closer, rest) := ParseGroup(us);
      var (next, end) := Parse(rest);
      (Group(sections, closer, next), end)
    else
      var (next, end) := Parse(us.tail);
      (Plain(us.head, next), end)
  }

  /** Reads a section and those after it, through the `#endif` that closes the group. */
  function ParseGroup(us: List<Unit>): (r: (Sections, Option<Unit>, List<Unit>))
    requires us.Cons?
    ensures r.0.Section? && r.0.head == us.head
    ensures us == FlattenGroup(r.0, r.1, r.2) && SectionsShaped(r.0, r.1, r.2)
    ensures Size(r.2) < Size(us)
    decreases Size(us), 0
  {
    var (body, rest) := Parse(us.tail);
    if rest.Nil? then (Section(us.head, body, Done), None, Nil)
    else if rest.head.dir.Endif? then (Section(us.head, body, Done), Some(rest.head), rest.tail)
    else
      var (more, closer, end) := ParseGroup(rest);
      (Section(us.head, body, more), closer, end)
  }

  /** There is no other way to split a text: a forest and what closes it are found again. */
  lemma {:induction false} ParseIsUnique(f: Forest, rest: List<Unit>)
    requires Shaped(f, rest) && Closes(rest)
    ensures Parse(Flatten(f, rest)) == (f, rest)
    decreases f
  {
    match f
    case Empty =>
    case Plain(u, next) => ParseIsUnique(next, rest);
    case Group(sections, closer, next) =>
      ParseIsUnique(next, rest);
      ParseGroupIsUnique(sections, closer, Flatten(next, rest));
  }

  lemma {:induction false} ParseGroupIsUnique(s: Sections, closer: Option<Unit>, rest: List<Unit>)
    requires s.Section? && SectionsShaped(s, closer, rest)
    ensures ParseGroup(FlattenGroup(s, closer, rest)) == (s, closer, rest)
    decreases s
  {
    var after := FlattenGroup(s.more, closer, rest);
    ParseIsUnique(s.body, after);
    if s.more.Section? {
      ParseGroupIsUnique(s.more, closer, rest);
    }
  }

  // ----- The machine runs forests -----

  /** What every reachable stack satisfies. */
  ghost predicate Sound(stack: Stack) {
    stack.Cons? ==>
      && stack.head.parentActive == TopActive(stack.tail)
      && (stack.head.active ==> stack.head.parentActive && stack.head.anyTaken)
      && Sound(stack.tail)
  }

  /** The innermost frame alone decides whether the scanner is in active text. */
  lemma TopDecides(stack: Stack)
    requires Sound(stack)
    ensures AllActive(stack) <==> TopActive(stack)
  {
  }

  /** Text under an inactive frame is skipped whole. */
  lemma {:induction false} RunSkips(h: Host, f: Forest, rest: List<Unit>, stack: Stack, m: Macros, past: History)
    requires Sound(stack) && !TopActive(stack) && Shaped(f, rest)
    ensures Run(h, Flatten(f, rest), stack, m, past)
         == if Skippable(f) then Run(h, rest, stack, m, Skip(f, past)) else Err
    decreases f
  {
    TopDecides(stack);
    match f
    case Empty =>
    case Plain(u, next) => RunSkips(h, next, rest, stack, m, Then(past, u, false));
    case Group(s, closer, next) =>
      var after := Flatten(next, rest);
      if s.head.dir.Named() {
        var inner := Cons(Frame(false, false, false), stack);
        assert Run(h, FlattenGroup(s, closer, after), stack, m, past)
            == Run(h, Flatten(s.body, FlattenGroup(s.more, closer, after)), inner, m, Then(past, s.head, false));
        RunSkips(h, s.body, FlattenGroup(s.more, closer, after), inner, m, Then(past, s.head, false));
        RunSkipsSections(h, s.more, closer, after, inner, m, Skip(s.body, Then(past, s.head, false)));
      }
      RunSkips(h, next, rest, stack, m, SkipCloser(closer, SkipSections(s, past)));
  }

  /** The line that opens such a section leaves the group inactive. */
  lemma RunSkipsLine(h: Host, u: Unit, us: List<Unit>, stack: Stack, m: Macros, past: History)
    requires stack.Cons? && (stack.head.parentActive ==> stack.head.anyTaken) && u.dir.Splits()
    ensures Run(h, Cons(u, us), stack, m, past)
         == Run(h, us, Cons(stack.head.(active := false), stack.tail), m, Then(past, u, false))
  {
  }

  /** The sections left in a group that is inactive or has run one are skipped, and the group closed. */
  lemma {:induction false} RunSkipsSections(h: Host, s: Sections, closer: Option<Unit>, rest: List<Unit>,
                                            stack: Stack, m: Macros, past: History)
    requires Sound(stack) && stack.Cons? && (stack.head.parentActive ==> stack.head.anyTaken)
    requires SectionsShaped(s, closer, rest) && (s.Section? ==> s.head.dir.Splits())
    ensures Run(h, FlattenGroup(s, closer, rest), stack, m, past)
         == if SectionsSkippable(s) then Run(h, rest, stack.tail, m, SkipCloser(closer, SkipSections(s, past))) else Err
    decreases s
  {
    if s.Section? {
      var inner := Cons(stack.head.(active := false), stack.tail);
      RunSkipsLine(h, s.head, Flatten(s.body, FlattenGroup(s.more, closer, rest)), stack, m, past);
      RunSkips(h, s.body, FlattenGroup(s.more, closer, rest), inner, m, Then(past, s.head, false));
      RunSkipsSections(h, s.more, closer, rest, inner, m, Skip(s.body, Then(past, s.head, false)));
    }
  }

  /** A result so far, continued with the run of `rest`. */
  function Continue(h: Host, t: Result<Trace>, rest: List<Unit>, stack: Stack): Result<Trace> {
    match t
    case Err => Err
    case Ok(t) => Run(h, rest, stack, t.macros, t.history)
  }

  lemma {:induction false} RunForest(h: Host, f: Forest, rest: List<Unit>, stack: Stack, m: Macros, past: History)
    requires Sound(stack) && TopActive(stack) && Shaped(f, rest)
    ensures Run(h, Flatten(f, rest), stack, m, past) == Continue(h, Exec(h, f, m, past), rest, stack)
    decreases f
  {
    TopDecides(stack);
    match f
    case Empty =>
    case Plain(u, next) =>
      var d := ApplyDefine(u.dir, m);
      if d.Ok? {
        RunForest(h, next, rest, stack, d.value, Then(past, u, true));
      }
    case Group(s, closer, next) =>
      RunGroup(h, s, closer, Flatten(next, rest), stack, stack, m, past);
      var t := ExecSections(h, s, m, past);
      if t.Ok? {
        RunForest(h, next, rest, stack, t.value.macros, SkipCloser(closer, t.value.history));
      }
  }

  /** The sections of a group that has run none: from its opening line, or from a later one. */
  lemma {:induction false} RunGroup(h: Host, s: Sections, closer: Option<Unit>, rest: List<Unit>, stack: Stack,
                                    outer: Stack, m: Macros, past: History)
    requires Sound(outer) && TopActive(outer) && SectionsShaped(s, closer, rest)
    requires stack == if s.Section? && s.head.dir.Opens() then outer else Cons(Frame(true, false, false), outer)
    requires s.Section? ==> s.head.dir.Opens() || s.head.dir.Splits()
    ensures Run(h, FlattenGroup(s, closer, rest), stack, m, past)
         == Continue(h, Closing(ExecSections(h, s, m, past), closer), rest, outer)
    decreases s
  {
    if s.Section? {
      var c := Condition(h, s.head.dir, m);
      RunOpens(h, s.head, Flatten(s.body, FlattenGroup(s.more, closer, rest)), stack, outer, m, past);
      SectionMeans(h, s, closer, rest, outer, m, past);
      if c.Ok? {
        if c.value {
          RunTaken(h, s, closer, rest, Cons(Frame(true, true, true), outer), m, Then(past, s.head, false));
        } else {
          var inner, past' := Cons(Frame(true, false, false), outer), Then(past, s.head, false);
          RunSkips(h, s.body, FlattenGroup(s.more, closer, rest), inner, m, past');
          RunGroup(h, s.more, closer, rest, inner, outer, m, Skip(s.body, past'));
        }
      }
    }
  }

  /** What the sections of a group that has run none come to. */
  lemma SectionMeans(h: Host, s: Sections, closer: Option<Unit>, rest: List<Unit>, outer: Stack, m: Macros,
                     past: History)
    requires s.Section?
    ensures var c, past' := Condition(h, s.head.dir, m), Then(past, s.head, false);
      Continue(h, Closing(ExecSections(h, s, m, past), closer), rest, outer)
      == if c.Err? then Err
         else if !c.value then
           if Skippable(s.body)
           then Continue(h, Closing(ExecSections(h, s.more, m, Skip(s.body, past')), closer), rest, outer)
           else Err
         else
           var t := Exec(h, s.body, m, past');
           if t.Err? || !SectionsSkippable(s.more) then Err
           else Run(h, rest, outer, t.value.macros, SkipCloser(closer, SkipSections(s.more, t.value.history)))
  {
  }

  /** The line of a section that may be run pushes or changes the frame of its group. */
  lemma RunOpens(h: Host, u: Unit, us: List<Unit>, stack: Stack, outer: Stack, m: Macros, past: History)
    requires Sound(outer) && TopActive(outer) && (u.dir.Opens() || u.dir.Splits())
    requires stack == if u.dir.Opens() then outer else Cons(Frame(true, false, false), outer)
    ensures var c := Condition(h, u.dir, m);
      Run(h, Cons(u, us), stack, m, past)
      == if c.Err? then Err else Run(h, us, Cons(Frame(true, c.value, c.value), outer), m, Then(past, u, false))
  {
    TopDecides(outer);
  }

  /** The section whose condition holds is run, and the rest of its group is skipped. */
  lemma {:induction false} RunTaken(h: Host, s: Sections, closer: Option<Unit>, rest: List<Unit>, stack: Stack,
                                    m: Macros,
                                    past: History)
    requires s.Section? && SectionsShaped(s, closer, rest)
    requires Sound(stack) && stack.Cons? && stack.head == Frame(true, true, true)
    ensures var t := Exec(h, s.body, m, past);
      Run(h, Flatten(s.body, FlattenGroup(s.more, closer, rest)), stack, m, past)
      == if t.Err? then Err
         else if SectionsSkippable(s.more) then
           Run(h, rest, stack.tail, t.value.macros, SkipCloser(closer, SkipSections(s.more, t.value.history)))
         else Err
    decreases s, 0
  {
    RunForest(h, s.body, FlattenGroup(s.more, closer, rest), stack, m, past);
    var t := Exec(h, s.body, m, past);
    if t.Ok? {
      RunSkipsSections(h, s.more, closer, rest, stack, t.value.macros, t.value.history);
    }
  }

  function Closing(t: Result<Trace>, closer: Option<Unit>): Result<Trace> {
    match t
    case Err => Err
    case Ok(t) => Ok(Trace(SkipCloser(closer, t.history), t.macros))
  }

  /** On every text the machine yields what the forest of its groups means, or fails with it. */
  lemma MachineIsTree(h: Host, us: List<Unit>, m: Macros)
    ensures Run(h, us, Nil, m, Start) == if Parse(us).1.Nil? then Exec(h, Parse(us).0, m, Start) else Err
  {
    RunForest(h, Parse(us).0, Parse(us).1, Nil, m, Start);
  }
}
