/** The parser itself: it evaluates while it advances through the tokens. */
module ExpressionParser {
  import opened Prelude
  import opened Expression
  import opened ExpressionProof

  /** The tokens from index `i` to the end marker. */
  function From(tokens: seq<Token>, i: nat): List<Token>
    requires i < |tokens| && tokens[|tokens| - 1].Eof?
    decreases |tokens| - i
  {
    if tokens[i].Eof? then Nil else Cons(tokens[i], From(tokens, i + 1))
  }

  /** A left operand without value leaves the whole chain without value. */
  lemma {:induction false} TailIsStrict(a: Arithmetic, m: Macros, level: nat, left: Expr, toks: List<Token>)
    requires level < PREFIX
    requires Eval(a, m, left).Err?
    ensures var r := ParseTail(level, left, toks); r.Some? ==> Eval(a, m, r.value.0).Err?
    decreases Size(toks)
  {
    if OperatorAt(toks, level) && level != COMPARE {
      var right := Parse(level + 1, toks.tail);
      if right.Some? {
        TailIsStrict(a, m, level, Binary(toks.head.op, left, right.value.0), right.value.1);
      }
    }
  }

  /** So does a right operand without value, or an operator that refuses its operands. */
  lemma {:induction false} ChainFails(a: Arithmetic, m: Macros, level: nat, left: Expr, toks: List<Token>)
    requires level < PREFIX && level != COMPARE && OperatorAt(toks, level)
    requires var next := Expression.Parse(level + 1, toks.tail);
      next.Some? ==> Eval(a, m, Binary(toks.head.op, left, next.value.0)).Err?
    ensures var r := ParseTail(level, left, toks); r.Some? ==> Eval(a, m, r.value.0).Err?
  {
    var next := Expression.Parse(level + 1, toks.tail);
    if next.Some? {
      TailIsStrict(a, m, level, Binary(toks.head.op, left, next.value.0), next.value.1);
    }
  }

  class Parser {
    const tokens: seq<Token>
    const macros: Macros
    const arithmetic: Arithmetic
    var i: nat

    constructor (tokens: seq<Token>, macros: Macros, arithmetic: Arithmetic)
      requires tokens != [] && tokens[|tokens| - 1].Eof?
      ensures Valid() && i == 0
      ensures this.tokens == tokens && this.macros == macros && this.arithmetic == arithmetic
    {
      this.tokens, this.macros, this.arithmetic := tokens, macros, arithmetic;
      i := 0;
    }

    predicate Valid()
      reads this
    {
      i < |tokens| && tokens[|tokens| - 1].Eof?
    }

    function Ahead(): List<Token>
      requires Valid()
      reads this
    {
      From(tokens, i)
    }

    function Peek(): Token
      requires Valid()
      reads this
    {
      tokens[i]
    }

    /** The value read is that of the tree at the front of `toks`, and `rest` is what follows it. */
    predicate Reads(read: Option<(Expr, List<Token>)>, r: Result<int>, rest: List<Token>) {
      match r
      case Ok(v) => read.Some? && read.value.1 == rest && Eval(arithmetic, macros, read.value.0) == r
      case Err => read.Some? ==> Eval(arithmetic, macros, read.value.0).Err?
    }

    method Parse() returns (r: Result<bool>)
      requires Valid()
      modifies this
      ensures Valid()
      ensures r == ParseAll(arithmetic, macros, old(Ahead()))
    {
      var v := ParseLevel(0);
      if v.Err? || !Peek().Eof? {
        return Err;
      }
      return Ok(v.value != 0);
    }

    method ParseLevel(level: nat) returns (r: Result<int>)
      requires Valid() && level <= PREFIX
      modifies this
      ensures Valid() && Reads(Expression.Parse(level, old(Ahead())), r, Ahead())
      decreases Size(Ahead()), PRIMARY - level, 1
    {
      if level == PREFIX {
        r := ParseUnary();
      } else if level == COMPARE {
        r := ParseComparison();
      } else {
        r := ParseChain(level);
      }
    }

    /** One of the chaining levels: operands of the next level, combined to the left. */
    method ParseChain(level: nat) returns (r: Result<int>)
      requires Valid() && level < PREFIX && level != COMPARE
      modifies this
      ensures Valid() && Reads(Expression.Parse(level, old(Ahead())), r, Ahead())
      decreases Size(Ahead()), PRIMARY - level, 0
    {
      ghost var toks, first := Ahead(), Expression.Parse(level + 1, Ahead());
      r := ParseLevel(level + 1);
      if r.Err? {
        if first.Some? {
          TailIsStrict(arithmetic, macros, level, first.value.0, first.value.1);
        }
        return;
      }
      ghost var left := first.value.0;
      while Peek().Sym? && Peek().op.Level() == level
        invariant Valid() && r.Ok?
        invariant Eval(arithmetic, macros, left) == r
        invariant Expression.Parse(level, toks) == ParseTail(level, left, Ahead())
        invariant Size(Ahead()) < Size(toks)
        decreases Size(Ahead())
      {
        r, left := ParseLink(level, r.value, left);
        if r.Err? {
          return;
        }
      }
    }

    /** An operator and its right operand, onto a left operand with the value `v`. */
    method ParseLink(level: nat, v: int, ghost left: Expr) returns (r: Result<int>, ghost left': Expr)
      requires Valid() && level < PREFIX && level != COMPARE && Peek().Sym? && Peek().op.Level() == level
      requires Eval(arithmetic, macros, left) == Ok(v)
      modifies this
      ensures Valid() && (r.Ok? ==> Size(Ahead()) < Size(old(Ahead())) && Eval(arithmetic, macros, left') == r)
      ensures r.Ok? ==> ParseTail(level, left, old(Ahead())) == ParseTail(level, left', Ahead())
      ensures r.Err? ==>
        var t := ParseTail(level, left, old(Ahead())); t.Some? ==> Eval(arithmetic, macros, t.value.0).Err?
      decreases Size(Ahead()), 0, 1
    {
      var op := Peek().op;
      ghost var ahead := Ahead();
      left' := left;
      i := i + 1;
      var right := ParseLevel(level + 1);
      r := if right.Err? then Err else arithmetic.binary(op, v, right.value);
      if r.Err? {
        ChainFails(arithmetic, macros, level, left, ahead);
      } else {
        left' := Binary(op, left, Expression.Parse(level + 1, ahead.tail).value.0);
      }
    }

    /** The comparison level: at most one operator. */
    method ParseComparison() returns (r: Result<int>)
      requires Valid()
      modifies this
      ensures Valid() && Reads(Expression.Parse(COMPARE, old(Ahead())), r, Ahead())
      decreases Size(Ahead()), PRIMARY - COMPARE, 0
    {
      r := ParseLevel(COMPARE + 1);
      if r.Ok? && Peek().Sym? && Peek().op.Level() == COMPARE {
        var op := Peek().op;
        i := i + 1;
        var right := ParseLevel(COMPARE + 1);
        r := if right.Err? then Err else arithmetic.binary(op, r.value, right.value);
      }
    }

    method ParseUnary() returns (r: Result<int>)
      requires Valid()
      modifies this
      ensures Valid() && Reads(ParsePrefix(old(Ahead())), r, Ahead())
      decreases Size(Ahead()), 0, 2
    {
      var prefix := PrefixOf(Peek());
      if prefix.Some? {
        i := i + 1;
        r := ParseUnary();
        if r.Ok? {
          r := Ok(arithmetic.prefix(prefix.value, r.value));
        }
      } else {
        r := ParsePrimary();
      }
    }

    method ParsePrimary() returns (r: Result<int>)
      requires Valid() && PrefixOf(Peek()).None?
      modifies this
      ensures Valid() && Reads(ParsePrefix(old(Ahead())), r, Ahead())
      decreases Size(Ahead()), 0, 1
    {
      var tok := Peek();
      match tok
      case Ident(name) =>
        i := i + 1;
        if name == "defined" {
          r := ParseDefined();
        } else if AlwaysOn(name) {
          var ok := SkipPayload();
          r := if ok then Ok(1) else Err;
        } else {
          r := Lookup(macros, name);
        }
      case Num(v) =>
        i := i + 1;
        r := if v.Some? then Ok(v.value) else Err;
      case LParen =>
        i := i + 1;
        r := ParseLevel(0);
        if r.Ok? {
          if Peek().RParen? {
            i := i + 1;
          } else {
            r := Err;
          }
        }
      case _ => r := Err;
    }

    method ParseDefined() returns (r: Result<int>)
      requires Valid()
      modifies this
      ensures Valid() && Reads(ParseName("defined", old(Ahead())), r, Ahead())
    {
      var parens := Peek().LParen?;
      ghost var toks := Ahead();
      if parens {
        i := i + 1;
      }
      assert toks == if parens then Cons(LParen, Ahead()) else Ahead();
      if !Peek().Ident? {
        return Err;
      }
      var macro := Peek().name;
      ghost var here := Ahead();
      i := i + 1;
      assert here == Cons(Ident(macro), Ahead());
      if parens {
        if !Peek().RParen? {
          return Err;
        }
        i := i + 1;
      }
      return Ok(Truth(macro in macros));
    }

    /** Steps over a parenthesised argument without looking at it. */
    method SkipPayload() returns (ok: bool)
      requires Valid()
      modifies this
      ensures Valid()
      ensures ok <==> old(Ahead()).Cons? && old(Ahead()).head.LParen? && Payload(old(Ahead()).tail, 0).Some?
      ensures ok ==> Ahead() == Payload(old(Ahead()).tail, 0).value.1
    {
      if !Peek().LParen? {
        return false;
      }
      i := i + 1;
      var depth := 1;
      ghost var toks := Ahead();
      while depth != 0
        invariant Valid() && depth >= 0
        invariant depth == 0 ==> Payload(toks, 0).Some? && Payload(toks, 0).value.1 == Ahead()
        invariant depth > 0 ==> Payload(toks, 0).Some? == Payload(Ahead(), depth - 1).Some?
        invariant depth > 0 && Payload(toks, 0).Some? ==>
          Payload(toks, 0).value.1 == Payload(Ahead(), depth - 1).value.1
        decreases |tokens| - i
      {
        var tok := Peek();
        if tok.Eof? {
          return false;
        }
        i := i + 1;
        if tok.LParen? {
          depth := depth + 1;
        } else if tok.RParen? {
          depth := depth - 1;
        }
      }
      return true;
    }
  }
}
