/**
  The two character scanners behind the signature parser: one finds the parenthesis that closes a macro
  call, the other splits its arguments at top-level commas. Both step over quoted strings. The reference
  is a grammar: a balanced text is a list of characters, quoted strings and parenthesised groups.
 */
module Scanners {
  import opened Prelude

  // ----- Balanced texts -----

  datatype Unit = Plain(c: char) | Escaped(c: char)

  datatype Piece = Lit(c: char) | Quoted(quote: char, body: List<Unit>) | Group(inner: Pieces)

  datatype Pieces = End | More(head: Piece, rest: Pieces)

  predicate IsQuote(c: char) { c == '\'' || c == '\"' }

  predicate UnitsShaped(body: List<Unit>, quote: char) {
    body.Cons? ==> (body.head.Plain? ==> body.head.c != quote && body.head.c != '\\') && UnitsShaped(body.tail, quote)
  }

  predicate Shaped(ps: Pieces) {
    match ps
    case End => true
    case More(Lit(c), rest) => !IsQuote(c) && c != '(' && c != ')' && Shaped(rest)
    case More(Quoted(q, body), rest) => IsQuote(q) && UnitsShaped(body, q) && Shaped(rest)
    case More(Group(inner), rest) => Shaped(inner) && Shaped(rest)
  }

  function UnitsText(body: List<Unit>): string {
    match body
    case Nil => ""
    case Cons(Plain(c), rest) => [c] + UnitsText(rest)
    case Cons(Escaped(c), rest) => ['\\', c] + UnitsText(rest)
  }

  function PieceText(p: Piece): string {
    match p
    case Lit(c) => [c]
    case Quoted(q, body) => [q] + UnitsText(body) + [q]
    case Group(inner) => "(" + Text(inner) + ")"
  }

  function Text(ps: Pieces): string {
    match ps
    case End => ""
    case More(p, rest) => PieceText(p) + Text(rest)
  }

  // The same texts as lists, followed by `after`.

  function ShowUnits(body: List<Unit>, after: List<char>): List<char> {
    match body
    case Nil => after
    case Cons(Plain(c), rest) => Cons(c, ShowUnits(rest, after))
    case Cons(Escaped(c), rest) => Cons('\\', Cons(c, ShowUnits(rest, after)))
  }

  function Show(ps: Pieces, after: List<char>): List<char> {
    match ps
    case End => after
    case More(Lit(c), rest) => Cons(c, Show(rest, after))
    case More(Quoted(q, body), rest) => Cons(q, ShowUnits(body, Cons(q, Show(rest, after))))
    case More(Group(inner), rest) => Cons('(', Show(inner, Cons(')', Show(rest, after))))
  }

  /** The characters of `text` from index `i` on. */
  function From(text: string, i: nat): List<char>
    decreases |text| - i
  {
    if i >= |text| then Nil else Cons(text[i], From(text, i + 1))
  }

  function Str(l: List<char>): string {
    match l
    case Nil => ""
    case Cons(c, rest) => [c] + Str(rest)
  }

  lemma {:induction false} StrFrom(text: string, i: nat)
    requires i <= |text|
    ensures Str(From(text, i)) == text[i..]
    decreases |text| - i
  {
    if i < |text| {
      StrFrom(text, i + 1);
      assert text[i..] == [text[i]] + text[i + 1..];
    }
  }

  lemma {:induction false} FromShift(a: string, b: string, i: nat)
    ensures From(a + b, |a| + i) == From(b, i)
    decreases |b| - i
  {
    if i < |b| {
      FromShift(a, b, i + 1);
    }
  }

  lemma {:induction false} FromStr(l: List<char>)
    ensures From(Str(l), 0) == l
  {
    if l.Cons? {
      FromStr(l.tail);
      FromShift([l.head], Str(l.tail), 0);
    }
  }

  lemma {:induction false} StrUnits(body: List<Unit>, after: List<char>)
    ensures Str(ShowUnits(body, after)) == UnitsText(body) + Str(after)
  {
    if body.Cons? {
      StrUnits(body.tail, after);
    }
  }

  lemma Regroup(open: string, body: string, close: string, rest: string, after: string)
    ensures open + (body + (close + (rest + after))) == (open + body + close + rest) + after
  {
  }

  lemma {:induction false} StrShow(ps: Pieces, after: List<char>)
    ensures Str(Show(ps, after)) == Text(ps) + Str(after)
    decreases ps
  {
    match ps
    case End =>
    case More(p, rest) =>
      StrShow(rest, after);
      var l := Show(rest, after);
      match p
      case Lit(c) => assert [c] + (Text(rest) + Str(after)) == [c] + Text(rest) + Str(after);
      case Quoted(q, body) =>
        StrUnits(body, Cons(q, l));
        Regroup([q], UnitsText(body), [q], Text(rest), Str(after));
      case Group(inner) =>
        StrShow(inner, Cons(')', l));
        Regroup("(", Text(inner), ")", Text(rest), Str(after));
  }

  // ----- Finding the closing parenthesis -----

  function Plus(k: nat, n: Option<nat>): Option<nat> {
    match n
    case None => None
    case Some(n) => Some(k + n)
  }

  /** How many characters come before the parenthesis that brings the depth to zero. */
  function Closing(cs: List<char>, depth: nat, quote: Option<char>): Option<nat>
    requires depth > 0
    decreases cs
  {
    match cs
    case Nil => None
    case Cons(c, rest) =>
      if quote.Some? then
        if c == '\\' then
          if rest.Nil? then None else Plus(2, Closing(rest.tail, depth, quote))
        else Plus(1, Closing(rest, depth, if c == quote.value then None else quote))
      else if IsQuote(c) then Plus(1, Closing(rest, depth, Some(c)))
      else if c == '(' then Plus(1, Closing(rest, depth + 1, None))
      else if c == ')' then
        if depth == 1 then Some(0) else Plus(1, Closing(rest, depth - 1, None))
      else Plus(1, Closing(rest, depth, None))
  }

  /** The payload of the call that opens at `open`, and the offset after it. */
  method ExtractPayload(text: string, open: nat) returns (r: Result<(string, nat)>)
    requires open < |text|
    ensures text[open] != '(' ==> r.Err?
    ensures text[open] == '(' ==>
      match Closing(From(text, open + 1), 1, None)
      case None => r.Err?
      case Some(n) => open + 2 + n <= |text| && r == Ok((text[open + 1..open + 1 + n], open + 2 + n))
  {
    if text[open] != '(' {
      return Err;
    }
    var depth, cursor := 0, open;
    var inString, quote := false, ' ';
    while cursor < |text|
      invariant open <= cursor <= |text| + 1
      invariant cursor == open ==> depth == 0 && !inString
      invariant cursor > open ==> depth > 0
      invariant cursor > open ==>
        Closing(From(text, open + 1), 1, None)
        == Plus(cursor - open - 1, Closing(From(text, cursor), depth, if inString then Some(quote) else None))
      decreases |text| + 1 - cursor
    {
      var ch := text[cursor];
      if inString {
        if ch == '\\' {
          cursor := cursor + 2;
        } else {
          if ch == quote {
            inString := false;
          }
          cursor := cursor + 1;
        }
      } else if IsQuote(ch) {
        inString, quote := true, ch;
        cursor := cursor + 1;
      } else {
        if ch == '(' {
          depth := depth + 1;
        } else if ch == ')' {
          depth := depth - 1;
          if depth == 0 {
            return Ok((text[open + 1..cursor], cursor + 1));
          }
        }
        cursor := cursor + 1;
      }
    }
    return Err;
  }

  lemma {:induction false} ClosingUnits(body: List<Unit>, quote: char, after: List<char>, depth: nat)
    requires depth > 0 && IsQuote(quote) && UnitsShaped(body, quote)
    ensures
      Closing(ShowUnits(body, Cons(quote, after)), depth, Some(quote))
      == Plus(|UnitsText(body)| + 1, Closing(after, depth, None))
  {
    if body.Cons? {
      ClosingUnits(body.tail, quote, after, depth);
    }
  }

  /** A balanced text is stepped over at any depth. */
  lemma {:induction false} ClosingSkips(ps: Pieces, after: List<char>, depth: nat)
    requires depth > 0 && Shaped(ps)
    ensures Closing(Show(ps, after), depth, None) == Plus(|Text(ps)|, Closing(after, depth, None))
    decreases ps
  {
    match ps
    case End =>
    case More(Lit(c), rest) => ClosingSkips(rest, after, depth);
    case More(Quoted(q, body), rest) =>
      ClosingUnits(body, q, Show(rest, after), depth);
      ClosingSkips(rest, after, depth);
    case More(Group(inner), rest) =>
      ClosingSkips(inner, Cons(')', Show(rest, after)), depth + 1);
      ClosingSkips(rest, after, depth);
  }

  /** Reads a balanced text up to an unmatched closing parenthesis. */
  function Parse(cs: List<char>): (r: Option<(Pieces, List<char>)>)
    ensures r.Some? ==> Size(r.value.1) < Size(cs)
    decreases Size(cs)
  {
    match cs
    case Nil => None
    case Cons(c, tail) =>
      if c == ')' then Some((End, tail))
      else if c == '(' then
        match Parse(tail)
        case None => None
        case Some((inner, mid)) => Then(Group(inner), Parse(mid))
      else if IsQuote(c) then
        match ParseString(c, tail)
        case None => None
        case Some((body, mid)) => Then(Quoted(c, body), Parse(mid))
      else Then(Lit(c), Parse(tail))
  }

  function Then(p: Piece, r: Option<(Pieces, List<char>)>): Option<(Pieces, List<char>)> {
    match r
    case None => None
    case Some((rest, after)) => Some((More(p, rest), after))
  }

  function ParseString(quote: char, cs: List<char>): (r: Option<(List<Unit>, List<char>)>)
    ensures r.Some? ==> Size(r.value.1) < Size(cs)
  {
    match cs
    case Nil => None
    case Cons(c, tail) =>
      if c == quote then Some((Nil, tail))
      else
        var escaped := c == '\\';
        if escaped && tail.Nil? then None
        else
          match ParseString(quote, if escaped then tail.tail else tail)
          case None => None
          case Some((body, after)) => Some((Cons(if escaped then Escaped(tail.head) else Plain(c), body), after))
  }

  function Size(cs: List<char>): nat {
    if cs.Nil? then 0 else 1 + Size(cs.tail)
  }

  lemma {:induction false} ParseStringIsExact(quote: char, cs: List<char>, depth: nat)
    requires IsQuote(quote) && depth > 0
    ensures var r := ParseString(quote, cs);
      if r.Some? then cs == ShowUnits(r.value.0, Cons(quote, r.value.1)) && UnitsShaped(r.value.0, quote)
      else Closing(cs, depth, Some(quote)).None?
    decreases cs
  {
    if cs.Cons? && cs.head != quote && !(cs.head == '\\' && cs.tail.Nil?) {
      ParseStringIsExact(quote, if cs.head == '\\' then cs.tail.tail else cs.tail, depth);
    }
  }

  /** What is read is balanced and spells the text; where nothing is read, no parenthesis closes. */
  lemma {:induction false} ParseIsExact(cs: List<char>, depth: nat)
    requires depth > 0
    ensures var r := Parse(cs);
      if r.Some? then cs == Show(r.value.0, Cons(')', r.value.1)) && Shaped(r.value.0)
      else Closing(cs, depth, None).None?
    decreases Size(cs)
  {
    if cs.Cons? && cs.head != ')' {
      if cs.head == '(' {
        ParseIsExact(cs.tail, depth + 1);
        var inner := Parse(cs.tail);
        if inner.Some? {
          ParseIsExact(inner.value.1, depth);
          ClosingSkips(inner.value.0, Cons(')', inner.value.1), depth + 1);
        }
      } else if IsQuote(cs.head) {
        ParseStringIsExact(cs.head, cs.tail, depth);
        var body := ParseString(cs.head, cs.tail);
        if body.Some? {
          ParseIsExact(body.value.1, depth);
          ClosingUnits(body.value.0, cs.head, body.value.1, depth);
        }
      } else {
        ParseIsExact(cs.tail, depth);
      }
    }
  }

  /** The text is a balanced one of length `n`, a closing parenthesis, and anything. */
  predicate Opens(text: string, ps: Pieces, n: nat) {
    Shaped(ps) && |Text(ps)| == n && Text(ps) + ")" <= text
  }

  lemma ClosingFinds(text: string, n: nat) returns (ps: Pieces)
    requires Closing(From(text, 0), 1, None) == Some(n)
    ensures Opens(text, ps, n)
  {
    var cs := From(text, 0);
    StrFrom(text, 0);
    ParseIsExact(cs, 1);
    var (balanced, rest) := Parse(cs).value;
    ps := balanced;
    ClosingSkips(ps, Cons(')', rest), 1);
    StrShow(ps, Cons(')', rest));
    assert text == Text(ps) + ")" + Str(rest);
  }

  lemma {:induction false} ClosingReadsText(ps: Pieces, rest: List<char>)
    requires Shaped(ps)
    ensures Closing(From(Text(ps) + Str(Cons(')', rest)), 0), 1, None) == Some(|Text(ps)|)
  {
    var after := Cons(')', rest);
    StrShow(ps, after);
    FromStr(Show(ps, after));
    ClosingSkips(ps, after, 1);
  }

  lemma ClosingReads(text: string, ps: Pieces, n: nat)
    requires Opens(text, ps, n)
    ensures Closing(From(text, 0), 1, None) == Some(n)
  {
    StrFrom(text, n + 1);
    ClosingReadsText(ps, From(text, n + 1));
    var front := Text(ps) + ")";
    assert text == front + text[|front|..];
    assert front + text[n + 1..] == Text(ps) + ([')'] + text[n + 1..]);
  }

  /**
    The scanner finds a closing parenthesis after `n` characters if and only if those characters are a
    balanced text and the next one is the parenthesis.
   */
  lemma ClosingIsBalanced(text: string, n: nat)
    ensures Closing(From(text, 0), 1, None) == Some(n) <==> exists ps :: Opens(text, ps, n)
  {
    if Closing(From(text, 0), 1, None) == Some(n) {
      var ps := ClosingFinds(text, n);
    }
    forall ps | Opens(text, ps, n)
      ensures Closing(From(text, 0), 1, None) == Some(n)
    {
      ClosingReads(text, ps, n);
    }
  }

  /** Every payload between the opening and the closing offset is a balanced text. */
  lemma PayloadIsBalanced(text: string, open: nat, n: nat)
    requires open < |text| && Closing(From(text, open + 1), 1, None) == Some(n)
    ensures open + 1 + n < |text| && text[open + 1 + n] == ')'
    ensures exists ps :: Shaped(ps) && Text(ps) == text[open + 1..open + 1 + n]
  {
    var rest := text[open + 1..];
    FromShift(text[..open + 1], rest, 0);
    assert text == text[..open + 1] + rest;
    var ps := ClosingFinds(rest, n);
    assert rest[..n] == Text(ps) && rest[n] == ')';
    assert rest[..n] == text[open + 1..open + 1 + n];
  }

  // ----- Splitting at top-level commas -----

  function Splitting(cs: List<char>, depth: nat, quote: Option<char>, parts: seq<string>, buf: string): seq<string>
    decreases cs
  {
    match cs
    case Nil => parts + [Strip(buf)]
    case Cons(c, rest) =>
      if quote.Some? then
        if c == '\\' && rest.Cons? then Splitting(rest.tail, depth, quote, parts, buf + [c] + [rest.head])
        else Splitting(rest, depth, if c == quote.value then None else quote, parts, buf + [c])
      else if IsQuote(c) then Splitting(rest, depth, Some(c), parts, buf + [c])
      else
        var depth' := if c == '(' then depth + 1 else if c == ')' && depth > 0 then depth - 1 else depth;
        if c == ',' && depth' == 0 then Splitting(rest, depth', None, parts + [Strip(buf)], "")
        else Splitting(rest, depth', None, parts, buf + [c])
  }

  method SplitTopLevelCommas(text: string) returns (parts: seq<string>)
    ensures parts == Splitting(From(text, 0), 0, None, [], "")
  {
    parts := [];
    var buf, depth := "", 0;
    var inString, quote := false, ' ';
    var cursor := 0;
    while cursor < |text|
      invariant 0 <= cursor <= |text| && depth >= 0
      invariant Splitting(From(text, 0), 0, None, [], "")
             == Splitting(From(text, cursor), depth, if inString then Some(quote) else None, parts, buf)
    {
      var ch := text[cursor];
      if inString {
        buf := buf + [ch];
        if ch == '\\' && cursor + 1 < |text| {
          buf := buf + [text[cursor + 1]];
          cursor := cursor + 2;
        } else {
          if ch == quote {
            inString := false;
          }
          cursor := cursor + 1;
        }
      } else if IsQuote(ch) {
        inString, quote := true, ch;
        buf := buf + [ch];
        cursor := cursor + 1;
      } else {
        if ch == '(' {
          depth := depth + 1;
        } else if ch == ')' {
          depth := if depth - 1 > 0 then depth - 1 else 0;
        }
        if ch == ',' && depth == 0 {
          parts := parts + [Strip(buf)];
          buf := "";
        } else {
          buf := buf + [ch];
        }
        cursor := cursor + 1;
      }
    }
    parts := parts + [Strip(buf)];
  }

  lemma {:induction false} SplittingUnits(body: List<Unit>, quote: char, after: List<char>, depth: nat,
                                          parts: seq<string>, buf: string)
    requires IsQuote(quote) && UnitsShaped(body, quote)
    ensures Splitting(ShowUnits(body, Cons(quote, after)), depth, Some(quote), parts, buf)
         == Splitting(after, depth, None, parts, buf + UnitsText(body) + [quote])
    decreases body
  {
    match body
    case Nil => assert buf + "" == buf;
    case Cons(u, rest) =>
      var here := if u.Plain? then [u.c] else ['\\', u.c];
      var buf' := if u.Plain? then buf + [u.c] else buf + ['\\'] + [u.c];
      SplittingUnits(rest, quote, after, depth, parts, buf');
      assert buf' == buf + here;
      assert buf + here + UnitsText(rest) == buf + UnitsText(body);
  }

  /** Inside parentheses a balanced text is copied whole; the depth never runs below where it began. */
  lemma {:induction false} SplittingCopies(ps: Pieces, after: List<char>, depth: nat, parts: seq<string>, buf: string)
    requires depth > 0 && Shaped(ps)
    ensures Splitting(Show(ps, after), depth, None, parts, buf) == Splitting(after, depth, None, parts, buf + Text(ps))
    decreases ps
  {
    match ps
    case End => assert buf + "" == buf;
    case More(p, rest) =>
      SplittingPiece(p, Show(rest, after), depth, parts, buf);
      SplittingCopies(rest, after, depth, parts, buf + PieceText(p));
      assert buf + PieceText(p) + Text(rest) == buf + Text(ps);
  }

  /** Any piece but a top-level comma is copied. */
  lemma Enclosed(buf: string, left: char, body: string, right: char)
    ensures buf + [left] + body + [right] == buf + ([left] + body + [right])
  {
  }

  lemma {:induction false} SplittingPiece(p: Piece, after: List<char>, depth: nat, parts: seq<string>, buf: string)
    requires Shaped(More(p, End)) && (depth > 0 || p != Lit(','))
    ensures
      Splitting(Show(More(p, End), after), depth, None, parts, buf)
      == Splitting(after, depth, None, parts, buf + PieceText(p))
    decreases p
  {
    match p
    case Lit(c) =>
    case Quoted(q, body) =>
      SplittingUnits(body, q, after, depth, parts, buf + [q]);
      Enclosed(buf, q, UnitsText(body), q);
    case Group(inner) =>
      SplittingCopies(inner, Cons(')', after), depth + 1, parts, buf + ['(']);
      Enclosed(buf, '(', Text(inner), ')');
  }

  /** The fields of a balanced text between its top-level commas, the first one after `buf`. */
  function Fields(ps: Pieces, buf: string): seq<string> {
    match ps
    case End => [buf]
    case More(p, rest) => if p == Lit(',') then [buf] + Fields(rest, "") else Fields(rest, buf + PieceText(p))
  }

  function Stripped(fields: seq<string>): seq<string> {
    seq(|fields|, k requires 0 <= k < |fields| => Strip(fields[k]))
  }

  lemma StrippedCons(parts: seq<string>, buf: string, fields: seq<string>)
    ensures parts + Stripped([buf] + fields) == parts + [Strip(buf)] + Stripped(fields)
  {
    assert Stripped([buf] + fields) == [Strip(buf)] + Stripped(fields);
  }

  lemma {:induction false} SplittingIsFields(ps: Pieces, parts: seq<string>, buf: string)
    requires Shaped(ps)
    ensures Splitting(Show(ps, Nil), 0, None, parts, buf) == parts + Stripped(Fields(ps, buf))
    decreases ps
  {
    match ps
    case End => assert Stripped([buf]) == [Strip(buf)];
    case More(p, rest) =>
      if p == Lit(',') {
        SplittingIsFields(rest, parts + [Strip(buf)], "");
        StrippedCons(parts, buf, Fields(rest, ""));
      } else {
        SplittingPiece(p, Show(rest, Nil), 0, parts, buf);
        SplittingIsFields(rest, parts, buf + PieceText(p));
      }
  }

  function Join(fields: seq<string>): string {
    if |fields| == 0 then "" else if |fields| == 1 then fields[0] else fields[0] + "," + Join(fields[1..])
  }

  /** Joining the fields with commas restores the text. */
  lemma {:induction false} JoinFields(ps: Pieces, buf: string)
    ensures Join(Fields(ps, buf)) == buf + Text(ps)
    ensures |Fields(ps, buf)| > 0
    decreases ps
  {
    match ps
    case End => assert buf + "" == buf;
    case More(p, rest) =>
      if p == Lit(',') {
        JoinFields(rest, "");
        assert ([buf] + Fields(rest, ""))[1..] == Fields(rest, "");
        assert buf + "," + ("" + Text(rest)) == buf + ("," + Text(rest));
      } else {
        JoinFields(rest, buf + PieceText(p));
        assert buf + PieceText(p) + Text(rest) == buf + Text(ps);
      }
  }

  /**
    On every balanced text, so on every payload that `ExtractPayload` returns, the splitter cuts at the
    top-level commas exactly, and joining the uncut fields gives the text back.
   */
  lemma SplitIsFields(ps: Pieces)
    requires Shaped(ps)
    ensures Splitting(From(Text(ps), 0), 0, None, [], "") == Stripped(Fields(ps, ""))
    ensures Join(Fields(ps, "")) == Text(ps)
  {
    StrShow(ps, Nil);
    assert Str(Show(ps, Nil)) == Text(ps) + "" == Text(ps);
    FromStr(Show(ps, Nil));
    SplittingIsFields(ps, [], "");
    assert [] + Stripped(Fields(ps, "")) == Stripped(Fields(ps, ""));
    JoinFields(ps, "");
    assert "" + Text(ps) == Text(ps);
  }

  /** A closing parenthesis is met at depth 0, outside quotes: the depth is clamped there. */
  predicate Clamps(cs: List<char>, depth: nat, quote: Option<char>)
    decreases cs
  {
    match cs
    case Nil => false
    case Cons(c, rest) =>
      if quote.Some? then
        if c == '\\' && rest.Cons? then Clamps(rest.tail, depth, quote)
        else Clamps(rest, depth, if c == quote.value then None else quote)
      else if IsQuote(c) then Clamps(rest, depth, Some(c))
      else if c == ')' && depth == 0 then true
      else Clamps(rest, if c == '(' then depth + 1 else if c == ')' then depth - 1 else depth, None)
  }

  lemma {:induction false} ClampsUnits(body: List<Unit>, quote: char, after: List<char>, depth: nat)
    requires IsQuote(quote) && UnitsShaped(body, quote)
    ensures Clamps(ShowUnits(body, Cons(quote, after)), depth, Some(quote)) == Clamps(after, depth, None)
    decreases body
  {
    if body.Cons? {
      ClampsUnits(body.tail, quote, after, depth);
    }
  }

  lemma {:induction false} ClampsPieces(ps: Pieces, after: List<char>, depth: nat)
    requires Shaped(ps)
    ensures Clamps(Show(ps, after), depth, None) == Clamps(after, depth, None)
    decreases ps
  {
    match ps
    case End =>
    case More(p, rest) =>
      ClampsPiece(p, Show(rest, after), depth);
      ClampsPieces(rest, after, depth);
  }

  lemma {:induction false} ClampsPiece(p: Piece, after: List<char>, depth: nat)
    requires Shaped(More(p, End))
    ensures Clamps(Show(More(p, End), after), depth, None) == Clamps(after, depth, None)
    decreases p
  {
    match p
    case Lit(c) =>
    case Quoted(q, body) => ClampsUnits(body, q, after, depth);
    case Group(inner) => ClampsPieces(inner, Cons(')', after), depth + 1);
  }

  /** On a balanced text the depth is never clamped. */
  lemma SplitNeverClamps(ps: Pieces)
    requires Shaped(ps)
    ensures !Clamps(From(Text(ps), 0), 0, None)
  {
    ClampsPieces(ps, Nil, 0);
    StrShow(ps, Nil);
    FromStr(Show(ps, Nil));
    assert Text(ps) + Str(Nil) == Text(ps);
  }

  /** An extracted payload splits at exactly its top-level commas, and the fields make it up again. */
  lemma PayloadSplits(text: string, open: nat, n: nat) returns (ps: Pieces)
    requires open < |text| && Closing(From(text, open + 1), 1, None) == Some(n)
    ensures open + 1 + n < |text| && Shaped(ps) && Text(ps) == text[open + 1..open + 1 + n]
    ensures Splitting(From(Text(ps), 0), 0, None, [], "") == Stripped(Fields(ps, ""))
    ensures Join(Fields(ps, "")) == text[open + 1..open + 1 + n] && !Clamps(From(Text(ps), 0), 0, None)
  {
    PayloadIsBalanced(text, open, n);
    ps :| Shaped(ps) && Text(ps) == text[open + 1..open + 1 + n];
    SplitIsFields(ps);
    SplitNeverClamps(ps);
  }
}
