/**
  The quoting of a byte string as C source, and its inverse by sections 5.1.1.2, 6.4.4.4 and 6.4.5 of
  ISO C11: escape sequences are decoded, then adjacent literals are joined. A byte is a character below 256.
  Trigraphs, which the first of these sections replaces beforehand, are the subject of the module after this.
 */
module CString {
  import opened Prelude

  const BACKSLASH := '\\'
  const QUOTE := '\"'

  predicate Octets(s: string) {
    forall k :: 0 <= k < |s| ==> s[k] as int < 256
  }

  function HexDigit(n: nat): char
    requires n < 16
  {
    if n < 10 then ('0' as int + n) as char else ('a' as int + n - 10) as char
  }

  predicate IsHexDigit(c: char) {
    '0' <= c <= '9' || 'a' <= c <= 'f' || 'A' <= c <= 'F'
  }

  function HexValue(c: char): (n: nat)
    requires IsHexDigit(c)
    ensures n < 16
  {
    if c <= '9' then c as int - '0' as int
    else if c <= 'F' then c as int - 'A' as int + 10
    else c as int - 'a' as int + 10
  }

  // ----- Writing -----

  /** The letter of a one-letter escape sequence. */
  function Letter(c: char): Option<char> {
    match c
    case '\"' => Some(QUOTE)
    case '\\' => Some(BACKSLASH)
    case '\U{07}' => Some('a')
    case '\U{08}' => Some('b')
    case '\U{09}' => Some('t')
    case '\U{0a}' => Some('n')
    case '\U{0b}' => Some('v')
    case '\U{0c}' => Some('f')
    case '\U{0d}' => Some('r')
    case _ => None
  }

  predicate IsPrintable(c: char) {
    ' ' <= c <= '~'
  }

  /** Bytes written as `\x` and two digits. */
  predicate NeedsHex(c: char) {
    Letter(c).None? && !IsPrintable(c)
  }

  function Emit(c: char): string
    requires c as int < 256
  {
    if Letter(c).Some? then [BACKSLASH, Letter(c).value]
    else if IsPrintable(c) then [c]
    else [BACKSLASH, 'x', HexDigit(c as int / 16), HexDigit(c as int % 16)]
  }

  /** The text with the first `i` bytes written and a literal open; a newline ends its literal and its line. */
  function Text(s: string, i: nat): string
    requires i <= |s| && Octets(s)
  {
    if i == 0 then [QUOTE]
    else if s[i - 1] == '\n' then Text(s, i - 1) + Emit('\n') + [QUOTE] + ['\n'] + [QUOTE]
    else Text(s, i - 1) + Emit(s[i - 1])
  }

  /** The last byte and the end of the text. */
  function Finish(text: string, c: char): string
    requires c as int < 256
  {
    text + Emit(c) + [QUOTE] + ['\n']
  }

  function Encode(s: string): string
    requires Octets(s)
  {
    if s == "" then [QUOTE, QUOTE] else Finish(Text(s, |s| - 1), s[|s| - 1])
  }

  method WriteByte(text: string, c: char) returns (r: string)
    requires c as int < 256 && c != '\n'
    ensures r == text + Emit(c)
  {
    match c {
      case '\"' => r := text + [BACKSLASH, QUOTE];
      case '\\' => r := text + [BACKSLASH, BACKSLASH];
      case '\U{07}' => r := text + [BACKSLASH, 'a'];
      case '\U{08}' => r := text + [BACKSLASH, 'b'];
      case '\U{09}' => r := text + [BACKSLASH, 't'];
      case '\U{0b}' => r := text + [BACKSLASH, 'v'];
      case '\U{0c}' => r := text + [BACKSLASH, 'f'];
      case '\U{0d}' => r := text + [BACKSLASH, 'r'];
      case _ =>
        if ' ' <= c <= '~' {
          r := text + [c];
        } else {
          r := text + [BACKSLASH, 'x', HexDigit(c as int / 16), HexDigit(c as int % 16)];
        }
    }
  }

  method EncodeStringToCString(s: string) returns (text: string)
    requires Octets(s)
    ensures text == Encode(s)
  {
    var n := |s|;
    if n == 0 {
      return [QUOTE, QUOTE];
    }
    text := "";
    var inLiteral := false;
    for i := 0 to n
      invariant inLiteral == (0 < i && !(i == n && s[n - 1] == '\n'))
      invariant i == 0 ==> text == ""
      invariant inLiteral ==> text == Text(s, i)
      invariant i == n && !inLiteral ==> text == Text(s, n - 1) + Emit('\n') + [QUOTE]
    {
      var c := s[i];
      if !inLiteral {
        text := text + [QUOTE];
        inLiteral := true;
      }
      assert text == Text(s, i);
      if c == '\n' {
        text := text + [BACKSLASH, 'n'];
        text := text + [QUOTE];
        inLiteral := false;
        if i < n - 1 {
          text := text + ['\n'];
          text := text + [QUOTE];
          inLiteral := true;
        }
      } else {
        text := WriteByte(text, c);
      }
    }
    if inLiteral {
      text := text + [QUOTE];
    }
    text := text + ['\n'];
  }

  // ----- Reading -----

  /** A reader of literals: between them, in one, after a backslash, or among the digits of an escape. */
  datatype Reader =
    | Between(out: string)
    | Inside(out: string)
    | Escaped(out: string)
    | Digits(out: string, value: nat, count: nat)
    | Octal(out: string, value: nat, count: nat)
    | Bad
  {
    /** `greedy`: as in C, a `\x` takes every digit that follows; otherwise it takes two. */
    function Step(greedy: bool, c: char): Reader {
      match this
      case Between(out) => if c == QUOTE then Inside(out) else if IsSpace(c) then this else Bad
      case Inside(out) => StepInside(out, c)
      case Escaped(out) => StepEscaped(out, c)
      case Digits(out, value, count) =>
        if IsHexDigit(c) && (greedy || count < 2) then
          var v := 16 * value + HexValue(c);
          if v < 256 then Digits(out, v, count + 1) else Bad
        else if count == 0 || value >= 256 then Bad
        else StepInside(out + [value as char], c)
      case Octal(out, value, count) =>
        if '0' <= c <= '7' && count < 3 then Octal(out, 8 * value + (c as int - '0' as int), count + 1)
        else if value >= 256 then Bad
        else StepInside(out + [value as char], c)
      case Bad => Bad
    }
  }

  function StepInside(out: string, c: char): Reader {
    if c == QUOTE then Between(out)
    else if c == BACKSLASH then Escaped(out)
    else if c == '\n' then Bad
    else Inside(out + [c])
  }

  function StepEscaped(out: string, c: char): Reader {
    match c
    case 'n' => Inside(out + ['\n'])
    case 'a' => Inside(out + ['\U{07}'])
    case 'b' => Inside(out + ['\U{08}'])
    case 't' => Inside(out + ['\U{09}'])
    case 'v' => Inside(out + ['\U{0b}'])
    case 'f' => Inside(out + ['\U{0c}'])
    case 'r' => Inside(out + ['\U{0d}'])
    case '\"' => Inside(out + [QUOTE])
    case '\'' => Inside(out + ['\''])
    case '?' => Inside(out + ['?'])
    case '\\' => Inside(out + [BACKSLASH])
    case 'x' => Digits(out, 0, 0)
    case _ => if '0' <= c <= '7' then Octal(out, c as int - '0' as int, 1) else Bad
  }

  /** The reader after the first `i` characters. */
  function ReadTo(greedy: bool, text: string, i: nat): Reader
    requires i <= |text|
  {
    if i == 0 then Between("") else ReadTo(greedy, text, i - 1).Step(greedy, text[i - 1])
  }

  function Read(greedy: bool, text: string): Reader {
    ReadTo(greedy, text, |text|)
  }

  function Decode(greedy: bool, text: string): Option<string> {
    match Read(greedy, text)
    case Between(out) => Some(out)
    case _ => None
  }

  lemma {:induction false} ReadPrefix(greedy: bool, text: string, c: char, i: nat)
    requires i <= |text|
    ensures ReadTo(greedy, text + [c], i) == ReadTo(greedy, text, i)
    decreases i
  {
    if i > 0 {
      ReadPrefix(greedy, text, c, i - 1);
    }
  }

  lemma ReadSnoc(greedy: bool, text: string, c: char)
    ensures Read(greedy, text + [c]) == Read(greedy, text).Step(greedy, c)
  {
    ReadPrefix(greedy, text, c, |text|);
  }

  // ----- What the reader makes of the writer's text -----

  /** The states in which a byte may be written. */
  predicate Open(r: Reader) {
    r.Inside? || r.Bad? || (r.Digits? && r.count >= 2 && r.value < 256)
  }

  /** The bytes read so far, the ones under way included. */
  function Got(r: Reader): string
    requires Open(r) && !r.Bad?
  {
    if r.Digits? then r.out + [r.value as char] else r.out
  }

  /** The reader after one written byte. */
  function After(greedy: bool, r: Reader, c: char): Reader
    requires Open(r) && c as int < 256
  {
    if r.Bad? then Bad
    else if NeedsHex(c) then Digits(Got(r), c as int, 2)
    else if r.Digits? && greedy && IsHexDigit(c) then r.Step(greedy, c)
    else Inside(Got(r) + [c])
  }

  lemma HexDigits(c: char)
    requires c as int < 256
    ensures IsHexDigit(HexDigit(c as int / 16)) && IsHexDigit(HexDigit(c as int % 16))
    ensures 16 * HexValue(HexDigit(c as int / 16)) + HexValue(HexDigit(c as int % 16)) == c as int
  {
  }

  lemma ReadTwo(greedy: bool, text: string, a: char, b: char)
    ensures Read(greedy, text + [a, b]) == Read(greedy, text).Step(greedy, a).Step(greedy, b)
  {
    ReadSnoc(greedy, text, a);
    ReadSnoc(greedy, text + [a], b);
    assert text + [a, b] == text + [a] + [b];
  }

  lemma ReadFour(greedy: bool, text: string, a: char, b: char, c: char, d: char)
    ensures Read(greedy, text + [a, b, c, d]) ==
      Read(greedy, text).Step(greedy, a).Step(greedy, b).Step(greedy, c).Step(greedy, d)
  {
    ReadTwo(greedy, text, a, b);
    ReadTwo(greedy, text + [a, b], c, d);
    assert text + [a, b, c, d] == text + [a, b] + [c, d];
  }

  lemma StepLetter(greedy: bool, r: Reader, c: char)
    requires Open(r) && c as int < 256 && Letter(c).Some?
    ensures r.Step(greedy, BACKSLASH).Step(greedy, Letter(c).value) == After(greedy, r, c)
  {
  }

  lemma StepHex(greedy: bool, r: Reader, c: char)
    requires Open(r) && c as int < 256 && NeedsHex(c)
    ensures
      r.Step(greedy, BACKSLASH).Step(greedy, 'x')
      .Step(greedy, HexDigit(c as int / 16)).Step(greedy, HexDigit(c as int % 16))
      == After(greedy, r, c)
  {
    HexDigits(c);
    if !r.Bad? {
      assert r.Step(greedy, BACKSLASH) == Escaped(Got(r));
    }
  }

  lemma ReadByte(greedy: bool, text: string, c: char)
    requires Open(Read(greedy, text)) && c as int < 256
    ensures Read(greedy, text + Emit(c)) == After(greedy, Read(greedy, text), c)
  {
    var r := Read(greedy, text);
    if Letter(c).Some? {
      ReadTwo(greedy, text, BACKSLASH, Letter(c).value);
      StepLetter(greedy, r, c);
    } else if IsPrintable(c) {
      ReadSnoc(greedy, text, c);
    } else {
      ReadFour(greedy, text, BACKSLASH, 'x', HexDigit(c as int / 16), HexDigit(c as int % 16));
      StepHex(greedy, r, c);
    }
  }

  /** A newline in the middle: the literal is closed and another one opened on the next line. */
  lemma ReadNewline(greedy: bool, text: string)
    requires Open(Read(greedy, text))
    ensures Read(greedy, text + Emit('\n') + [QUOTE] + ['\n'] + [QUOTE]) == After(greedy, Read(greedy, text), '\n')
  {
    var t := text + Emit('\n');
    ReadByte(greedy, text, '\n');
    ReadSnoc(greedy, t, QUOTE);
    ReadSnoc(greedy, t + [QUOTE], '\n');
    ReadSnoc(greedy, t + [QUOTE] + ['\n'], QUOTE);
  }

  /** Among the first `i` bytes, none written in hex has a hexadecimal digit right after it. */
  predicate Safe(s: string, i: nat)
    requires i <= |s|
  {
    forall k :: 0 < k < i ==> !(NeedsHex(s[k - 1]) && IsHexDigit(s[k]))
  }

  /** Either the bytes are there, or the text is malformed, or a byte is lost for good. */
  ghost predicate Follows(greedy: bool, s: string, i: nat, r: Reader)
    requires i <= |s|
  {
    && Open(r)
    && (if !greedy || Safe(s, i) then
      !r.Bad? && Got(r) == s[..i] && (r.Digits? <==> i > 0 && NeedsHex(s[i - 1])) && (r.Digits? ==> r.count == 2)
    else r.Bad? || |Got(r)| < i)
  }

  lemma FollowsStep(greedy: bool, s: string, i: nat, r: Reader)
    requires i < |s| && Octets(s) && Follows(greedy, s, i, r)
    ensures Follows(greedy, s, i + 1, After(greedy, r, s[i]))
  {
    var r' := After(greedy, r, s[i]);
    assert s[..i + 1] == s[..i] + [s[i]];
    if !greedy || Safe(s, i + 1) {
      assert !greedy || Safe(s, i);
    } else if Safe(s, i) {
      assert NeedsHex(s[i - 1]) && IsHexDigit(s[i]);
    }
  }

  lemma ReadStart(greedy: bool)
    ensures Read(greedy, [QUOTE]) == Inside("") && Read(greedy, [QUOTE, QUOTE]) == Between("")
  {
    ReadSnoc(greedy, "", QUOTE);
    ReadTwo(greedy, "", QUOTE, QUOTE);
    assert "" + [QUOTE] == [QUOTE] && "" + [QUOTE, QUOTE] == [QUOTE, QUOTE];
  }

  lemma TextStep(greedy: bool, s: string, i: nat)
    requires i < |s| && Octets(s) && Open(Read(greedy, Text(s, i)))
    ensures Read(greedy, Text(s, i + 1)) == After(greedy, Read(greedy, Text(s, i)), s[i])
  {
    if s[i] == '\n' {
      ReadNewline(greedy, Text(s, i));
    } else {
      ReadByte(greedy, Text(s, i), s[i]);
    }
  }

  lemma {:induction false} ReadText(greedy: bool, s: string, i: nat)
    requires i <= |s| && Octets(s)
    ensures Follows(greedy, s, i, Read(greedy, Text(s, i)))
    decreases i
  {
    if i == 0 {
      ReadStart(greedy);
    } else {
      ReadText(greedy, s, i - 1);
      TextStep(greedy, s, i - 1);
      FollowsStep(greedy, s, i - 1, Read(greedy, Text(s, i - 1)));
    }
  }

  lemma ReadFinish(greedy: bool, text: string, c: char)
    requires Open(Read(greedy, text)) && c as int < 256
    ensures var r := After(greedy, Read(greedy, text), c);
      Open(r) && Read(greedy, Finish(text, c)) == if r.Bad? then Bad else Between(Got(r))
  {
    ReadByte(greedy, text, c);
    ReadSnoc(greedy, text + Emit(c), QUOTE);
    ReadSnoc(greedy, text + Emit(c) + [QUOTE], '\n');
  }

  lemma FollowsWhole(greedy: bool, s: string, r: Reader)
    requires Follows(greedy, s, |s|, r)
    ensures if !greedy || Safe(s, |s|) then !r.Bad? && Got(r) == s else r.Bad? || |Got(r)| < |s|
  {
    assert s[..|s|] == s;
  }

  lemma ReadEnd(greedy: bool, s: string)
    requires |s| > 0 && Octets(s)
    ensures if !greedy || Safe(s, |s|) then Decode(greedy, Encode(s)) == Some(s)
            else Decode(greedy, Encode(s)).None? || |Decode(greedy, Encode(s)).value| < |s|
  {
    var n := |s| - 1;
    var text := Text(s, n);
    ReadText(greedy, s, n);
    FollowsStep(greedy, s, n, Read(greedy, text));
    FollowsWhole(greedy, s, After(greedy, Read(greedy, text), s[n]));
    ReadFinish(greedy, text, s[n]);
  }

  /**
    A C compiler reads the string back exactly when no byte written in hex is followed by a hexadecimal
    digit; a reader that takes two digits always does.
   */
  lemma RoundTrip(greedy: bool, s: string)
    requires Octets(s)
    ensures Decode(greedy, Encode(s)) == Some(s) <==> !greedy || Safe(s, |s|)
  {
    if s == "" {
      ReadStart(greedy);
    } else {
      ReadEnd(greedy, s);
    }
  }

  /** A NUL followed by the letter `A`: C reads one byte, 10. */
  lemma DigitIsSwallowed()
    ensures Decode(true, Encode("\U{00}A")) != Some("\U{00}A") && Decode(false, Encode("\U{00}A")) == Some("\U{00}A")
  {
    var s := "\U{00}A";
    assert NeedsHex(s[0]) && IsHexDigit(s[1]);
    RoundTrip(true, s);
    RoundTrip(false, s);
  }
}
