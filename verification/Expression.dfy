/**
  The expressions of `#if`: their syntax trees, their token strings, and the grammar that the
  recursive-descent parser follows. Precedence levels run from 0 (`||`) to 9 (prefix operators); all
  six comparisons share one level and do not chain.
 */
module Expression {
  import opened Prelude

  type Macros = map<string, Option<int>>

  datatype Comparison = Equal | NotEqual | Greater | Less | AtLeast | AtMost
  datatype Shift = Left | Right
  datatype Sign = Plus | Minus
  datatype Factor = Times | Divide | Modulo

  datatype Operator =
    | Or | And | BitOr | BitXor | BitAnd
    | Compare(comparison: Comparison)
    | Shift(shift: Shift)
    | Sum(sign: Sign)
    | Product(factor: Factor)
  {
    function Level(): (r: nat)
      ensures r <= 8
    {
      match this
      case Or => 0
      case And => 1
      case BitOr => 2
      case BitXor => 3
      case BitAnd => 4
      case Compare(_) => COMPARE
      case Shift(_) => 6
      case Sum(_) => 7
      case Product(_) => 8
    }
  }

  const COMPARE: nat := 5
  const PREFIX: nat := 9
  const PRIMARY: nat := 10

  /** A numeric token that the host language refuses to read has no value. */
  datatype Token =
    | Num(value: Option<int>) | Ident(name: string) | LParen | RParen | Sym(op: Operator) | Bang | Tilde | Eof

  datatype Prefix = Not | Complement | Positive | Negative {
    function Spelling(): Token {
      match this
      case Not => Bang
      case Complement => Tilde
      case Positive => Sym(Sum(Plus))
      case Negative => Sym(Sum(Minus))
    }
  }

  /** Syntax trees; written-out parentheses are kept, so that a tree is exactly a token string. */
  datatype Expr =
    | Number(value: Option<int>)
    | Macro(name: string)
    | Defined(name: string, parens: bool)
    | Enabled(name: string, payload: List<Token>)
    | Unary(prefix: Prefix, arg: Expr)
    | Binary(op: Operator, left: Expr, right: Expr)
    | Parens(inner: Expr)
  {
    function Level(): nat {
      match this
      case Unary(_, _) => PREFIX
      case Binary(op, _, _) => op.Level()
      case _ => PRIMARY
    }
  }

  predicate AlwaysOn(name: string) { name == "IS_ENABLED" || name == "IS_MODULE" }

  predicate Reserved(name: string) { name == "defined" || AlwaysOn(name) }

  // ----- The grammar -----

  /** The tokens of a tree, followed by `rest`. */
  function Flatten(e: Expr, rest: List<Token>): List<Token> {
    match e
    case Number(v) => Cons(Num(v), rest)
    case Macro(name) => Cons(Ident(name), rest)
    case Defined(name, parens) =>
      Cons(Ident("defined"),
        if parens then Cons(LParen, Cons(Ident(name), Cons(RParen, rest))) else Cons(Ident(name), rest))
    case Enabled(name, payload) => Cons(Ident(name), Cons(LParen, Append(payload, Cons(RParen, rest))))
    case Unary(prefix, arg) => Cons(prefix.Spelling(), Flatten(arg, rest))
    case Binary(op, left, right) => Flatten(left, Cons(Sym(op), Flatten(right, rest)))
    case Parens(inner) => Cons(LParen, Flatten(inner, Cons(RParen, rest)))
  }

  function Append<T>(a: List<T>, b: List<T>): List<T> {
    match a
    case Nil => b
    case Cons(x, rest) => Cons(x, Append(rest, b))
  }

  /** The parentheses match, `depth` more being closed than opened, and none is closed too early. */
  predicate Balanced(payload: List<Token>, depth: nat) {
    match payload
    case Nil => depth == 0
    case Cons(LParen, rest) => Balanced(rest, depth + 1)
    case Cons(RParen, rest) => depth > 0 && Balanced(rest, depth - 1)
    case Cons(t, rest) => Balanced(rest, depth)
  }

  /** Operands bind at least as tightly as their place asks; only `*` to `||` chain, to the left. */
  predicate Well(e: Expr) {
    match e
    case Macro(name) => !Reserved(name)
    case Enabled(name, payload) => AlwaysOn(name) && Balanced(payload, 0)
    case Unary(_, arg) => Well(arg) && arg.Level() >= PREFIX
    case Binary(op, left, right) =>
      && Well(left) && Well(right)
      && right.Level() > op.Level()
      && left.Level() >= op.Level()
      && (op.Level() == COMPARE ==> left.Level() > COMPARE)
    case Parens(inner) => Well(inner)
    case _ => true
  }

  // ----- Meaning -----

  /** What the operators compute; a binary operator may refuse its operands. */
  datatype Arithmetic = Arithmetic(binary: (Operator, int, int) -> Result<int>, prefix: (Prefix, int) -> int)

  function Truth(b: bool): int { if b then 1 else 0 }

  /** The host language's unbounded integer operators where their meaning is not spelled out. */
  datatype Integers = Integers(
    bitOr: (int, int) -> int, bitXor: (int, int) -> int, bitAnd: (int, int) -> int, complement: int -> int,
    shift: (Shift, int, int) -> int, divide: (int, int) -> int)

  /** The operators of `#if` over those integers: logic and comparison yield 0 or 1. */
  function Operators(n: Integers): Arithmetic {
    Arithmetic((op, x, y) => Combine(n, op, x, y), (prefix, x) => ApplyPrefix(n, prefix, x))
  }

  function Combine(n: Integers, op: Operator, x: int, y: int): Result<int> {
    match op
    case Or => Ok(Truth(x != 0 || y != 0))
    case And => Ok(Truth(x != 0 && y != 0))
    case BitOr => Ok(n.bitOr(x, y))
    case BitXor => Ok(n.bitXor(x, y))
    case BitAnd => Ok(n.bitAnd(x, y))
    case Compare(c) => Ok(Truth(Compares(c, x, y)))
    case Shift(s) => if y < 0 then Err else Ok(n.shift(s, x, y))
    case Sum(sign) => Ok(if sign.Plus? then x + y else x - y)
    case Product(factor) =>
      if factor.Times? then Ok(x * y)
      else if y == 0 then Err
      else Ok(if factor.Divide? then n.divide(x, y) else FloorModulo(x, y))
  }

  predicate Compares(c: Comparison, x: int, y: int) {
    match c
    case Equal => x == y
    case NotEqual => x != y
    case Greater => x > y
    case Less => x < y
    case AtLeast => x >= y
    case AtMost => x <= y
  }

  /** The remainder takes the sign of the divisor. */
  function FloorModulo(x: int, y: int): (r: int)
    requires y != 0
    ensures if y > 0 then 0 <= r < y else y < r <= 0
  {
    if y > 0 then x % y else -((-x) % (-y))
  }

  lemma FloorModuloRemains(x: int, y: int) returns (q: int)
    requires y != 0
    ensures x == y * q + FloorModulo(x, y)
  {
    q := if y > 0 then x / y else (-x) / (-y);
  }

  function ApplyPrefix(n: Integers, prefix: Prefix, x: int): int {
    match prefix
    case Not => Truth(x == 0)
    case Complement => n.complement(x)
    case Positive => x
    case Negative => -x
  }

  function Lookup(m: Macros, name: string): Result<int> {
    if name in m && m[name].Some? then Ok(m[name].value) else Err
  }

  /** The value of a tree. Both operands are always evaluated, also those of `||` and `&&`. */
  function Eval(a: Arithmetic, m: Macros, e: Expr): Result<int> {
    match e
    case Number(v) => if v.Some? then Ok(v.value) else Err
    case Macro(name) => Lookup(m, name)
    case Defined(name, _) => Ok(Truth(name in m))
    case Enabled(_, _) => Ok(1)
    case Unary(prefix, arg) =>
      var x :- Eval(a, m, arg);
      Ok(a.prefix(prefix, x))
    case Binary(op, left, right) =>
      var x :- Eval(a, m, left);
      var y :- Eval(a, m, right);
      a.binary(op, x, y)
    case Parens(inner) => Eval(a, m, inner)
  }

  // ----- Recursive descent -----

  function Size(toks: List<Token>): nat {
    if toks.Nil? then 0 else 1 + Size(toks.tail)
  }

  predicate OperatorAt(toks: List<Token>, level: nat) {
    toks.Cons? && toks.head.Sym? && toks.head.op.Level() == level
  }

  function PrefixOf(t: Token): Option<Prefix> {
    match t
    case Bang => Some(Not)
    case Tilde => Some(Complement)
    case Sym(Sum(Plus)) => Some(Positive)
    case Sym(Sum(Minus)) => Some(Negative)
    case _ => None
  }

  /** Reads an expression of the given level, as a tree, and what follows it. */
  function Parse(level: nat, toks: List<Token>): (r: Option<(Expr, List<Token>)>)
    requires level <= PREFIX
    ensures r.Some? ==> Size(r.value.1) < Size(toks)
    decreases Size(toks), PRIMARY - level
  {
    if level == PREFIX then ParsePrefix(toks)
    else
      match Parse(level + 1, toks)
      case None => None
      case Some((left, rest)) => ParseTail(level, left, rest)
  }

  /** Goes on after a left operand: a chain of operators of the level, or one comparison. */
  function ParseTail(level: nat, left: Expr, toks: List<Token>): (r: Option<(Expr, List<Token>)>)
    requires level < PREFIX
    ensures r.Some? ==> Size(r.value.1) <= Size(toks)
    decreases Size(toks), 0
  {
    if !OperatorAt(toks, level) then Some((left, toks))
    else
      match Parse(level + 1, toks.tail)
      case None => None
      case Some((right, rest)) =>
        var e := Binary(toks.head.op, left, right);
        if level == COMPARE then Some((e, rest)) else ParseTail(level, e, rest)
  }

  function ParsePrefix(toks: List<Token>): (r: Option<(Expr, List<Token>)>)
    ensures r.Some? ==> Size(r.value.1) < Size(toks)
    decreases Size(toks), 0
  {
    if toks.Nil? then None
    else if PrefixOf(toks.head).Some? then
      match ParsePrefix(toks.tail)
      case None => None
      case Some((arg, rest)) => Some((Unary(PrefixOf(toks.head).value, arg), rest))
    else
      match toks.head
      case Num(v) => Some((Number(v), toks.tail))
      case Ident(name) => ParseName(name, toks.tail)
      case LParen =>
        (match Parse(0, toks.tail)
         case Some((inner, Cons(RParen, rest))) => Some((Parens(inner), rest))
         case _ => None)
      case _ => None
  }

  function ParseName(name: string, toks: List<Token>): (r: Option<(Expr, List<Token>)>)
    ensures r.Some? ==> Size(r.value.1) <= Size(toks)
  {
    if name == "defined" then
      match toks
      case Cons(LParen, Cons(Ident(macro), Cons(RParen, rest))) =>
        assert Size(toks) == 1 + Size(toks.tail);
        Some((Defined(macro, true), rest))
      case Cons(Ident(macro), rest) => Some((Defined(macro, false), rest))
      case _ => None
    else if AlwaysOn(name) then
      if toks.Cons? && toks.head.LParen? then
        match Payload(toks.tail, 0)
        case None => None
        case Some((payload, rest)) => Some((Enabled(name, payload), rest))
      else None
    else Some((Macro(name), toks))
  }

  /** The tokens up to the parenthesis that closes the one before them. */
  function Payload(toks: List<Token>, depth: nat): (r: Option<(List<Token>, List<Token>)>)
    ensures r.Some? ==> Size(r.value.1) < Size(toks)
  {
    match toks
    case Nil => None
    case Cons(t, rest) =>
      if t.RParen? && depth == 0 then Some((Nil, rest))
      else
        var depth' := if t.LParen? then depth + 1 else if t.RParen? then depth - 1 else depth;
        match Payload(rest, depth')
        case None => None
        case Some((payload, after)) => Some((Cons(t, payload), after))
  }
}
