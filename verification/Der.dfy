/**
  The distinguished encoding of lengths, integers and nested values, written as the certificate builder
  does and read back by the rules of ITU-T X.690.
 */
module Der {
  import opened Prelude
  import opened Binary

  // ----- Numbers, most significant octet first -----

  function Big(s: seq<byte>): nat {
    if s == [] then 0 else 256 * Big(s[..|s| - 1]) + s[|s| - 1] as nat
  }

  /** The shortest digits of a number; none for zero. */
  function Digits(n: nat): (s: seq<byte>)
    ensures s == [] <==> n == 0
  {
    if n == 0 then [] else Digits(n / 256) + [(n % 256) as byte]
  }

  lemma {:induction false} BigDigits(n: nat)
    ensures Big(Digits(n)) == n && (n > 0 ==> Digits(n)[0] != 0)
    decreases n
  {
    if n > 0 {
      BigDigits(n / 256);
    }
  }

  lemma {:induction false} DigitsBig(s: seq<byte>)
    requires s == [] || s[0] != 0
    ensures Digits(Big(s)) == s
    decreases |s|
  {
    if s != [] {
      var front, last := s[..|s| - 1], s[|s| - 1];
      DigitsBig(front);
      if front == [] {
        assert s == [last];
      } else {
        assert Big(front) > 0;
      }
      assert Big(s) / 256 == Big(front) && Big(s) % 256 == last as nat;
      assert s == front + [last];
    }
  }

  lemma {:induction false} BigBelow(s: seq<byte>)
    ensures Big(s) < Limit(|s|)
    decreases |s|
  {
    if s != [] {
      BigBelow(s[..|s| - 1]);
    }
  }

  lemma {:induction false} DigitsCount(n: nat, k: nat)
    requires n < Limit(k)
    ensures |Digits(n)| <= k
    decreases k
  {
    if n > 0 {
      DigitsCount(n / 256, k - 1);
    }
  }

  // ----- Lengths: sections 8.1.3 and 10.1 -----

  function EncodeLength(n: nat): (s: seq<byte>)
    ensures |s| > 0
  {
    if n < 128 then [n as byte] else [((128 + |Digits(n)|) % 256) as byte] + Digits(n)
  }

  datatype Length = Length(value: nat, next: nat)

  /** A length that starts at `at`. With `strict`, only in the shortest form. */
  function DecodeLength(s: seq<byte>, at: nat, strict: bool): Option<Length> {
    if at >= |s| then None
    else if s[at] < 128 then Some(Length(s[at] as nat, at + 1))
    else
      var k := s[at] as nat - 128;
      var next := at + 1 + k;
      if k == 0 || k == 127 || next > |s| then None
      else
        var digits := s[at + 1..next];
        if strict && (digits[0] == 0 || Big(digits) < 128) then None else Some(Length(Big(digits), next))
  }

  /** Lengths with up to 126 digits can be written; 64-bit ones have at most eight. */
  predicate Writable(n: nat) {
    |Digits(n)| <= 126
  }

  lemma SixtyFourBits(n: nat)
    requires n < Limit(8)
    ensures Writable(n) && |EncodeLength(n)| <= 9
  {
    DigitsCount(n, 8);
  }

  /** Wherever it stands, a written length reads back as itself, by either reader. */
  lemma LengthRoundTrip(s: seq<byte>, at: nat, n: nat, strict: bool)
    requires Writable(n) && at + |EncodeLength(n)| <= |s| && s[at..at + |EncodeLength(n)|] == EncodeLength(n)
    ensures DecodeLength(s, at, strict) == Some(Length(n, at + |EncodeLength(n)|))
  {
    var next := at + |EncodeLength(n)|;
    var e := s[at..next];
    assert s[at] == e[0];
    if n >= 128 {
      BigDigits(n);
      assert s[at + 1..next] == e[1..];
      assert e[1..] == Digits(n);
    }
  }

  /** The strict reader takes nothing else. */
  lemma LengthIsCanonical(s: seq<byte>, at: nat)
    requires DecodeLength(s, at, true).Some?
    ensures var l := DecodeLength(s, at, true).value;
      Writable(l.value) && l.next == at + |EncodeLength(l.value)| <= |s| && s[at..l.next] == EncodeLength(l.value)
  {
    var l := DecodeLength(s, at, true).value;
    if s[at] >= 128 {
      DigitsBig(s[at + 1..l.next]);
      assert s[at..l.next] == [s[at]] + s[at + 1..l.next];
    }
  }

  /** No other form that the basic rules allow is shorter. */
  lemma LengthIsShortest(s: seq<byte>, at: nat)
    requires DecodeLength(s, at, false).Some?
    ensures var l := DecodeLength(s, at, false).value;
      at + |EncodeLength(l.value)| <= l.next
  {
    var l := DecodeLength(s, at, false).value;
    if s[at] >= 128 {
      BigBelow(s[at + 1..l.next]);
      DigitsCount(l.value, l.next - at - 1);
    }
  }

  /** The digits in `buf[1..i]`, last one first. */
  function Down(buf: seq<byte>, i: nat): seq<byte>
    requires i < |buf|
  {
    if i == 0 then [] else [buf[i]] + Down(buf, i - 1)
  }

  lemma {:induction false} DownSame(a: seq<byte>, b: seq<byte>, i: nat)
    requires i < |a| == |b| && forall k :: 0 <= k <= i ==> a[k] == b[k]
    ensures Down(a, i) == Down(b, i)
  {
    if i > 0 {
      DownSame(a, b, i - 1);
    }
  }

  lemma {:induction false} DownLength(buf: seq<byte>, i: nat)
    requires i < |buf|
    ensures |Down(buf, i)| == i
  {
    if i > 0 {
      DownLength(buf, i - 1);
    }
  }

  /** One more digit of `n` goes into the buffer. */
  lemma DigitStep(n: nat, before: seq<byte>, after: seq<byte>, i: nat)
    requires n > 0 && i + 1 < |before| && after == before[i + 1 := (n % 256) as byte]
    ensures Digits(n) + Down(before, i) == Digits(n / 256) + Down(after, i + 1)
    ensures |Digits(n)| == |Digits(n / 256)| + 1
  {
    DownSame(before, after, i);
  }

  method CollectDigits(length: nat, buf: array<byte>) returns (i: nat)
    requires length < Limit(8) && buf.Length == 9
    modifies buf
    ensures i < 9 && Down(buf[..], i) == Digits(length)
  {
    var n := length;
    i := 0;
    DigitsCount(length, 8);
    while n > 0
      invariant |Digits(n)| + i <= 8
      invariant Digits(length) == Digits(n) + Down(buf[..], i)
    {
      DigitStep(n, buf[..], buf[..][i + 1 := (n % 256) as byte], i);
      i := i + 1;
      buf[i] := (n % 256) as byte;
      n := n / 256;
    }
  }

  lemma DownStep(r: seq<byte>, buf: seq<byte>, i: nat)
    requires 0 < i < |buf|
    ensures r + Down(buf, i) == r + [buf[i]] + Down(buf, i - 1)
  {
  }

  method AppendLength(out: seq<byte>, length: nat) returns (r: seq<byte>)
    requires length < Limit(8)
    ensures r == out + EncodeLength(length)
  {
    if length < 0x80 {
      return out + [length as byte];
    }
    var buf := new byte[9];
    var i: nat := CollectDigits(length, buf);
    DownLength(buf[..], i);
    r := out + [((128 + i) % 256) as byte];
    while i > 0
      invariant 0 <= i < 9
      invariant out + EncodeLength(length) == r + Down(buf[..], i)
    {
      DownStep(r, buf[..], i);
      r := r + [buf[i]];
      i := i - 1;
    }
  }

  // ----- Integers: section 8.3 -----

  /** Two's complement. */
  function Signed(s: seq<byte>): int
    requires s != []
  {
    if s[0] < 128 then Big(s) else Big(s) - Limit(|s|)
  }

  function Fixed(v: nat, width: nat): (s: seq<byte>)
    ensures |s| == width
  {
    if width == 0 then [] else Fixed(v / 256, width - 1) + [(v % 256) as byte]
  }

  lemma {:induction false} BigFixed(v: nat, width: nat)
    requires v < Limit(width)
    ensures Big(Fixed(v, width)) == v
    decreases width
  {
    if width > 0 {
      BigFixed(v / 256, width - 1);
    }
  }

  /** Drops leading zeros that the sign does not need. */
  function Trim(s: seq<byte>): (r: seq<byte>)
    requires s != []
    ensures r != []
  {
    if |s| > 1 && s[0] == 0 && s[1] < 128 then Trim(s[1..]) else s
  }

  function Integer(v: nat): seq<byte> {
    Trim([0] + Fixed(v, 8))
  }

  lemma {:induction false} BigCons(b: byte, s: seq<byte>)
    ensures Big([b] + s) == b as nat * Limit(|s|) + Big(s)
    decreases |s|
  {
    if s == [] {
      assert [b] + s == [b];
    } else {
      var front := s[..|s| - 1];
      BigCons(b, front);
      assert ([b] + s)[..|s|] == [b] + front;
      MulSwap(b as nat, Limit(|front|));
    }
  }

  lemma MulSwap(b: nat, n: nat)
    ensures 256 * (b * n) == b * (256 * n)
  {
  }

  /** No octet more than the sign and the value need: section 8.3.2. */
  predicate Minimal(s: seq<byte>)
    requires s != []
  {
    |s| > 1 ==> !(s[0] == 0 && s[1] < 128) && !(s[0] == 255 && s[1] >= 128)
  }

  lemma {:induction false} TrimKeeps(s: seq<byte>)
    requires s != [] && s[0] < 128
    ensures Big(Trim(s)) == Big(s) && Trim(s)[0] < 128 && Minimal(Trim(s))
    decreases |s|
  {
    if |s| > 1 && s[0] == 0 && s[1] < 128 {
      TrimKeeps(s[1..]);
      BigCons(0, s[1..]);
      assert s == [0] + s[1..];
    }
  }

  /** The encoding has the value, and the first two octets are not all alike in their sign. */
  lemma IntegerRoundTrip(v: nat)
    requires v < Limit(8)
    ensures Signed(Integer(v)) == v && Minimal(Integer(v))
  {
    BigFixed(v, 8);
    BigCons(0, Fixed(v, 8));
    TrimKeeps([0] + Fixed(v, 8));
  }

  lemma AtLeastHalf(s: seq<byte>)
    requires |s| > 1 && s[0] < 128 && Minimal(s)
    ensures 2 * Big(s) >= Limit(|s| - 1)
  {
    var rest := s[1..];
    BigCons(s[0], rest);
    assert s == [s[0]] + rest;
    if s[0] == 0 {
      BigCons(rest[0], rest[1..]);
      assert rest == [rest[0]] + rest[1..];
      MulAtLeast(rest[0] as nat, 128, Limit(|rest| - 1));
    } else {
      MulAtLeast(s[0] as nat, 1, Limit(|rest|));
    }
  }

  lemma MulAtLeast(a: nat, b: nat, n: nat)
    requires a >= b
    ensures a * n >= b * n
  {
  }

  lemma BelowHalf(s: seq<byte>)
    requires s != [] && s[0] < 128
    ensures 2 * Big(s) < Limit(|s|)
  {
    var rest := s[1..];
    BigCons(s[0], rest);
    BigBelow(rest);
    assert s == [s[0]] + rest;
    MulAtLeast(127, s[0] as nat, Limit(|rest|));
  }

  /** No other two's complement octets with that value are fewer. */
  lemma IntegerIsShortest(v: nat, s: seq<byte>)
    requires v < Limit(8) && s != [] && Signed(s) == v
    ensures |Integer(v)| <= |s|
  {
    IntegerRoundTrip(v);
    BigBelow(s);
    var t := Integer(v);
    BigFixed(v, 8);
    BigCons(0, Fixed(v, 8));
    TrimKeeps([0] + Fixed(v, 8));
    if |s| < |t| {
      AtLeastHalf(t);
      BelowHalf(s);
      LimitGrows(|s|, |t| - 1);
      assert false;
    }
  }

  /** The octets of `v` from `buf[i + 1]` on. */
  lemma FixedStep(v: nat, width: nat, before: seq<byte>, after: seq<byte>)
    requires width > 0 && |before| == 9 && width <= 8 && after == before[width := (v % 256) as byte]
    ensures Fixed(v / 256, width - 1) + after[width..] == Fixed(v, width) + before[width + 1..]
  {
    assert after[width..] == [after[width]] + before[width + 1..];
  }

  method FillOctets(value: nat, buf: array<byte>)
    requires buf.Length == 9
    modifies buf
    ensures buf[..] == [0] + Fixed(value, 8)
  {
    var v, i := value, 8;
    while i > 0
      invariant 0 <= i <= 8
      invariant Fixed(v, i) + buf[i + 1..] == Fixed(value, 8)
    {
      FixedStep(v, i, buf[..], buf[..][i := (v % 256) as byte]);
      buf[i] := (v % 256) as byte;
      v := v / 256;
      i := i - 1;
    }
    buf[0] := 0;
  }

  method AppendInteger(out: seq<byte>, value: nat) returns (r: seq<byte>)
    requires value < Limit(8)
    ensures r == out + Encode(Leaf(0x02, Integer(value)))
  {
    var buf := new byte[9];
    FillOctets(value, buf);
    var start := 0;
    while start < 8 && buf[start] == 0 && buf[start + 1] < 128
      invariant 0 <= start <= 8
      invariant Integer(value) == Trim(buf[start..])
    {
      assert buf[start..][1..] == buf[start + 1..];
      start := start + 1;
    }
    LimitAbove(9 - start, 8);
    r := AppendTlv(out, 0x02, buf[start..]);
  }

  // ----- Nested values -----

  datatype Node = Leaf(tag: byte, content: seq<byte>) | Branch(tag: byte, children: List<Node>)

  function Encode(node: Node): (s: seq<byte>)
    ensures |s| > 1
  {
    Tlv(node.tag, if node.Leaf? then node.content else EncodeAll(node.children))
  }

  function EncodeAll(nodes: List<Node>): seq<byte> {
    match nodes
    case Nil => []
    case Cons(node, rest) => Encode(node) + EncodeAll(rest)
  }

  /** One-octet tags with bit 6 set on the constructed ones, and lengths that can be written. */
  predicate Proper(node: Node) {
    && node.tag % 32 != 31
    && match node {
      case Leaf(tag, content) => tag % 64 < 32 && Writable(|content|)
      case Branch(tag, children) => tag % 64 >= 32 && ProperAll(children) && Writable(|EncodeAll(children)|)
    }
  }

  predicate ProperAll(nodes: List<Node>) {
    nodes.Nil? || (Proper(nodes.head) && ProperAll(nodes.tail))
  }

  datatype Front = Front(tag: byte, content: seq<byte>, rest: seq<byte>)

  function Tlv(tag: byte, content: seq<byte>): (s: seq<byte>)
    ensures |s| > 1
  {
    [tag] + EncodeLength(|content|) + content
  }

  /** Takes the first value apart. */
  function First(s: seq<byte>): (r: Option<Front>)
    requires s != []
    ensures r.Some? ==> |r.value.content| < |s| && |r.value.rest| < |s|
  {
    var length := DecodeLength(s, 1, true);
    if length.None? || s[0] % 32 == 31 then None
    else
      var at, n := length.value.next, length.value.value;
      if at + n > |s| then None else Some(Front(s[0], s[at..at + n], s[at + n..]))
  }

  /** Reads values until the octets run out. */
  function ReadAll(s: seq<byte>): Option<List<Node>>
    decreases |s|
  {
    if s == [] then Some(Nil)
    else
      var front := First(s);
      if front.None? then None
      else
        var f := front.value;
        var rest := ReadAll(f.rest);
        if rest.None? then None
        else if f.tag % 64 < 32 then Some(Cons(Leaf(f.tag, f.content), rest.value))
        else
          var children := ReadAll(f.content);
          if children.None? then None else Some(Cons(Branch(f.tag, children.value), rest.value))
  }

  lemma FirstReads(f: Front)
    requires Writable(|f.content|) && f.tag % 32 != 31
    ensures First(Tlv(f.tag, f.content) + f.rest) == Some(f)
  {
    var e := EncodeLength(|f.content|);
    var s := Tlv(f.tag, f.content) + f.rest;
    assert s[1..1 + |e|] == e;
    LengthRoundTrip(s, 1, |f.content|, true);
  }

  lemma FirstIsCanonical(s: seq<byte>)
    requires s != [] && First(s).Some?
    ensures var f := First(s).value;
      s == Tlv(f.tag, f.content) + f.rest && Writable(|f.content|) && f.tag % 32 != 31
  {
    LengthIsCanonical(s, 1);
    var l := DecodeLength(s, 1, true).value;
    assert s == [s[0]] + s[1..l.next] + s[l.next..l.next + l.value] + s[l.next + l.value..];
  }

  /** A value in front of others that read back. */
  lemma {:induction false} NodeReads(node: Node, rest: List<Node>)
    requires ProperAll(Cons(node, rest)) && ReadAll(EncodeAll(rest)) == Some(rest)
    requires node.Branch? ==> ReadAll(EncodeAll(node.children)) == Some(node.children)
    ensures ReadAll(EncodeAll(Cons(node, rest))) == Some(Cons(node, rest))
  {
    match node
    case Leaf(tag, content) => FirstReads(Front(tag, content, EncodeAll(rest)));
    case Branch(tag, children) => FirstReads(Front(tag, EncodeAll(children), EncodeAll(rest)));
  }

  /** What is written reads back as the same tree. */
  lemma {:induction false} TreeRoundTrip(nodes: List<Node>)
    requires ProperAll(nodes)
    ensures ReadAll(EncodeAll(nodes)) == Some(nodes)
    decreases nodes
  {
    match nodes
    case Nil =>
    case Cons(node, rest) =>
      TreeRoundTrip(rest);
      if node.Branch? {
        TreeRoundTrip(node.children);
      }
      NodeReads(node, rest);
  }

  /** What can be read is what would be written, octet for octet. */
  lemma {:induction false} TreeIsCanonical(s: seq<byte>)
    requires ReadAll(s).Some?
    ensures ProperAll(ReadAll(s).value) && EncodeAll(ReadAll(s).value) == s
    decreases |s|
  {
    if s != [] {
      FirstIsCanonical(s);
      var f := First(s).value;
      TreeIsCanonical(f.rest);
      if f.tag % 64 >= 32 {
        TreeIsCanonical(f.content);
      }
    }
  }

  method AppendTlv(out: seq<byte>, tag: byte, value: seq<byte>) returns (r: seq<byte>)
    requires |value| < Limit(8)
    ensures r == out + Tlv(tag, value)
  {
    r := out + [tag];
    r := AppendLength(r, |value|);
    if |value| > 0 {
      r := r + value;
    }
  }
}
