/** The recursive-descent grammar is exact: it reads every well-formed tree back, and nothing else. */
module ExpressionProof {
  import opened Prelude
  import opened Expression

  /** What follows an expression of the given level cannot be taken as its continuation. */
  predicate Stops(level: nat, rest: List<Token>) {
    rest.Cons? && rest.head.Sym? ==> rest.head.op.Level() < level
  }

  lemma {:induction false} PayloadReads(payload: List<Token>, depth: nat, rest: List<Token>)
    requires Balanced(payload, depth)
    ensures Payload(Append(payload, Cons(RParen, rest)), depth) == Some((payload, rest))
  {
    match payload
    case Nil =>
    case Cons(t, tail) =>
      PayloadReads(tail, if t.LParen? then depth + 1 else if t.RParen? then depth - 1 else depth, rest);
  }

  /** Reading a well-formed tree at its own level or a looser one gives the tree back. */
  lemma {:induction false} ParseReads(level: nat, e: Expr, rest: List<Token>)
    requires level <= PREFIX && Well(e) && e.Level() >= level && Stops(level, rest)
    ensures Parse(level, Flatten(e, rest)) == Some((e, rest))
    decreases e, PRIMARY - level, 1
  {
    if level == PREFIX {
      PrefixReads(e, rest);
    } else if level == COMPARE && e.Level() == COMPARE {
      ParseReads(level + 1, e.left, Cons(Sym(e.op), Flatten(e.right, rest)));
      ParseReads(level + 1, e.right, rest);
    } else {
      ParseGoesOn(level, e, rest);
    }
  }

  /** A tree that begins a chain of its level is read as the left operand of what follows. */
  lemma {:induction false} ParseGoesOn(level: nat, e: Expr, rest: List<Token>)
    requires level < PREFIX && Well(e) && e.Level() >= level && Stops(level + 1, rest)
    requires level == COMPARE ==> e.Level() > COMPARE
    ensures Parse(level, Flatten(e, rest)) == ParseTail(level, e, rest)
    decreases e, PRIMARY - level, 0
  {
    if e.Level() > level {
      ParseReads(level + 1, e, rest);
    } else {
      ParseGoesOn(level, e.left, Cons(Sym(e.op), Flatten(e.right, rest)));
      ParseReads(level + 1, e.right, rest);
    }
  }

  lemma {:induction false} PrefixReads(e: Expr, rest: List<Token>)
    requires Well(e) && e.Level() >= PREFIX
    ensures ParsePrefix(Flatten(e, rest)) == Some((e, rest))
    decreases e, 0, 0
  {
    match e
    case Unary(prefix, arg) => PrefixReads(arg, rest);
    case Parens(inner) => ParseReads(0, inner, Cons(RParen, rest));
    case Enabled(_, payload) => PayloadReads(payload, 0, rest);
    case _ =>
  }

  // ----- Whatever is read is a well-formed tree -----

  lemma {:induction false} PayloadIsBalanced(toks: List<Token>, depth: nat)
    ensures var r := Payload(toks, depth);
      r.Some? ==> toks == Append(r.value.0, Cons(RParen, r.value.1)) && Balanced(r.value.0, depth)
  {
    if toks.Cons? && !(toks.head.RParen? && depth == 0) {
      var inner := if toks.head.LParen? then depth + 1 else if toks.head.RParen? then depth - 1 else depth;
      PayloadIsBalanced(toks.tail, inner);
    }
  }

  /** The reader could not have gone on; only a second comparison is left standing. */
  predicate Halts(level: nat, rest: List<Token>) {
    Stops(level, rest) || (level <= COMPARE && OperatorAt(rest, COMPARE))
  }

  /** The tree read is well formed, fits its level, spells the tokens consumed, and is all that can be read. */
  ghost predicate Exact(level: nat, toks: List<Token>, r: Option<(Expr, List<Token>)>) {
    r.Some? ==>
      && toks == Flatten(r.value.0, r.value.1) && Well(r.value.0) && r.value.0.Level() >= level
      && Halts(level, r.value.1)
  }

  lemma {:induction false} ParseIsExact(level: nat, toks: List<Token>)
    requires level <= PREFIX
    ensures Exact(level, toks, Parse(level, toks))
    decreases Size(toks), PRIMARY - level
  {
    if level == PREFIX {
      PrefixIsExact(toks);
    } else {
      ParseIsExact(level + 1, toks);
      var first := Parse(level + 1, toks);
      if first.Some? {
        TailIsExact(level, first.value.0, first.value.1);
      }
    }
  }

  lemma {:induction false} TailIsExact(level: nat, left: Expr, toks: List<Token>)
    requires level < PREFIX && Well(left) && left.Level() >= level && (level == COMPARE ==> left.Level() > COMPARE)
    requires Halts(level + 1, toks)
    ensures Exact(level, Flatten(left, toks), ParseTail(level, left, toks))
    decreases Size(toks), 0
  {
    if OperatorAt(toks, level) {
      ParseIsExact(level + 1, toks.tail);
      var next := Parse(level + 1, toks.tail);
      if next.Some? && level != COMPARE {
        TailIsExact(level, Binary(toks.head.op, left, next.value.0), next.value.1);
      }
    }
  }

  lemma {:induction false} NameIsExact(name: string, toks: List<Token>)
    ensures Exact(PRIMARY, Cons(Ident(name), toks), ParseName(name, toks))
  {
    if name == "defined" {
      var r := ParseName(name, toks);
      if r.Some? {
        assert Flatten(r.value.0, r.value.1).head == Ident("defined");
        assert Flatten(r.value.0, r.value.1).tail == toks;
      }
    } else if AlwaysOn(name) && toks.Cons? {
      PayloadIsBalanced(toks.tail, 0);
    }
  }

  lemma {:induction false} PrefixIsExact(toks: List<Token>)
    ensures Exact(PREFIX, toks, ParsePrefix(toks))
    decreases Size(toks), 0
  {
    if toks.Cons? {
      if PrefixOf(toks.head).Some? {
        PrefixIsExact(toks.tail);
      } else if toks.head.LParen? {
        ParseIsExact(0, toks.tail);
      } else if toks.head.Ident? {
        NameIsExact(toks.head.name, toks.tail);
      }
    }
  }

  // ----- Whole expressions -----

  /** The value of a whole token string; anything left over is an error. */
  function ParseAll(a: Arithmetic, m: Macros, toks: List<Token>): Result<bool> {
    match Parse(0, toks)
    case Some((e, Nil)) =>
      var v :- Eval(a, m, e);
      Ok(v != 0)
    case _ => Err
  }

  /** The tokens spell the tree `e`, whose truth value is `b`. */
  predicate Spells(a: Arithmetic, m: Macros, e: Expr, toks: List<Token>, b: bool) {
    && Well(e)
    && Flatten(e, Nil) == toks
    && Eval(a, m, e).Ok?
    && b == (Eval(a, m, e).value != 0)
  }

  /** A token string has a value exactly when it spells a well-formed tree with that value. */
  lemma ParseAllIsEval(a: Arithmetic, m: Macros, toks: List<Token>, b: bool)
    ensures ParseAll(a, m, toks) == Ok(b) <==> exists e :: Spells(a, m, e, toks, b)
  {
    ParseIsExact(0, toks);
    if ParseAll(a, m, toks) == Ok(b) {
      assert Spells(a, m, Parse(0, toks).value.0, toks, b);
    }
    forall e | Spells(a, m, e, toks, b)
      ensures ParseAll(a, m, toks) == Ok(b)
    {
      ParseReads(0, e, Nil);
    }
  }

  /** No token string spells two well-formed trees. */
  lemma Unambiguous(e: Expr, e': Expr)
    requires Well(e) && Well(e') && Flatten(e, Nil) == Flatten(e', Nil)
    ensures e == e'
  {
    ParseReads(0, e, Nil);
    ParseReads(0, e', Nil);
  }

  lemma {:induction false} ComparisonStops(level: nat, e: Expr, rest: List<Token>)
    requires level <= COMPARE && Well(e) && e.Level() == COMPARE && OperatorAt(rest, COMPARE)
    ensures Parse(level, Flatten(e, rest)) == Some((e, rest))
    decreases COMPARE - level
  {
    if level < COMPARE {
      ComparisonStops(level + 1, e, rest);
    } else {
      ParseReads(COMPARE + 1, e.left, Cons(Sym(e.op), Flatten(e.right, rest)));
      ParseReads(COMPARE + 1, e.right, rest);
    }
  }

  /** Unlike in section 6.5 of ISO C11, a comparison of a comparison is refused unless parenthesised. */
  lemma ComparisonsDoNotChain(a: Arithmetic, m: Macros, e: Expr, op: Operator, rest: List<Token>)
    requires Well(e) && e.Level() == COMPARE && op.Level() == COMPARE
    ensures ParseAll(a, m, Flatten(e, Cons(Sym(op), rest))).Err?
  {
    ComparisonStops(0, e, Cons(Sym(op), rest));
  }

  // ----- Parentheses only where precedence needs them -----

  predicate Bare(e: Expr) {
    match e
    case Unary(_, arg) => Bare(arg)
    case Binary(_, left, right) => Bare(left) && Bare(right)
    case Parens(_) => false
    case Macro(name) => !Reserved(name)
    case Enabled(name, payload) => AlwaysOn(name) && Balanced(payload, 0)
    case _ => true
  }

  function AtLevel(level: nat, e: Expr): Expr {
    if e.Level() >= level then e else Parens(e)
  }

  /** The tree with parentheses added exactly where an operand binds too loosely for its place. */
  function Dress(e: Expr): (r: Expr)
    requires Bare(e)
    ensures r.Level() == e.Level()
  {
    match e
    case Unary(prefix, arg) => Unary(prefix, AtLevel(PREFIX, Dress(arg)))
    case Binary(op, left, right) =>
      Binary(op, AtLevel(if op.Level() == COMPARE then COMPARE + 1 else op.Level(), Dress(left)),
             AtLevel(op.Level() + 1, Dress(right)))
    case _ => e
  }

  lemma AtLevelKeeps(a: Arithmetic, m: Macros, level: nat, e: Expr)
    requires Well(e) && level <= PRIMARY
    ensures var r := AtLevel(level, e);
      Well(r) && r.Level() >= level && Eval(a, m, r) == Eval(a, m, e)
  {
  }

  lemma {:induction false} DressIsWell(a: Arithmetic, m: Macros, e: Expr)
    requires Bare(e)
    ensures Well(Dress(e)) && Eval(a, m, Dress(e)) == Eval(a, m, e)
  {
    match e
    case Unary(_, arg) =>
      DressIsWell(a, m, arg);
      AtLevelKeeps(a, m, PREFIX, Dress(arg));
    case Binary(op, left, right) =>
      DressIsWell(a, m, left);
      DressIsWell(a, m, right);
      AtLevelKeeps(a, m, if op.Level() == COMPARE then COMPARE + 1 else op.Level(), Dress(left));
      AtLevelKeeps(a, m, op.Level() + 1, Dress(right));
    case _ =>
  }

  /** Every expression, written with the parentheses that precedence needs, evaluates to its value. */
  lemma {:induction false} WrittenIsEvaluated(a: Arithmetic, m: Macros, e: Expr)
    requires Bare(e)
    ensures ParseAll(a, m, Flatten(Dress(e), Nil))
         == match Eval(a, m, e) case Err => Err case Ok(v) => Ok(v != 0)
  {
    DressIsWell(a, m, e);
    ParseReads(0, Dress(e), Nil);
  }

  /**
    `||` and `&&` need the value of both operands, so `defined(X) && X` fails when X is not defined; by
    section 6.5.13 of ISO C11 the left operand would have decided it.
   */
  lemma NoShortCircuit(n: Integers, m: Macros, op: Operator, left: Expr, right: Expr)
    requires Bare(left) && Bare(right) && (op.Or? || op.And?)
    ensures ParseAll(Operators(n), m, Flatten(Dress(Binary(op, left, right)), Nil)).Ok? <==>
      Eval(Operators(n), m, left).Ok? && Eval(Operators(n), m, right).Ok?
  {
    WrittenIsEvaluated(Operators(n), m, Binary(op, left, right));
  }
}
