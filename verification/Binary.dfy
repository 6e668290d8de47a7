/** Fixed-width numbers and tables inside a file image. */
module Binary {
  import opened Prelude

  /** The number that the bytes spell, least significant first. */
  function Value(s: seq<byte>): nat {
    if s == [] then 0 else s[0] as nat + 256 * Value(s[1..])
  }

  function Encode(n: nat, width: nat): (s: seq<byte>)
    ensures |s| == width
  {
    if width == 0 then [] else [(n % 256) as byte] + Encode(n / 256, width - 1)
  }

  function Limit(width: nat): (n: nat)
    ensures n > 0
  {
    if width == 0 then 1 else 256 * Limit(width - 1)
  }

  lemma {:induction false} LimitGrows(a: nat, b: nat)
    requires a <= b
    ensures Limit(a) <= Limit(b)
    decreases b
  {
    if a < b {
      LimitGrows(a, b - 1);
    }
  }

  lemma LimitAbove(n: nat, width: nat)
    requires n < 256 && width > 0
    ensures n < Limit(width)
  {
    LimitGrows(1, width);
  }

  lemma {:induction false} ValueEncode(n: nat, width: nat)
    requires n < Limit(width)
    ensures Value(Encode(n, width)) == n
    decreases width
  {
    if width > 0 {
      ValueEncode(n / 256, width - 1);
      assert Encode(n, width)[1..] == Encode(n / 256, width - 1);
    }
  }

  lemma LowByte(b: nat, rest: nat)
    requires b < 256
    ensures (b + 256 * rest) % 256 == b && (b + 256 * rest) / 256 == rest
  {
  }

  lemma {:induction false} EncodeValue(s: seq<byte>)
    ensures Encode(Value(s), |s|) == s && Value(s) < Limit(|s|)
  {
    if s != [] {
      EncodeValue(s[1..]);
      LowByte(s[0] as nat, Value(s[1..]));
      assert s == [s[0]] + s[1..];
    }
  }

  // ----- Regions of an image -----

  predicate Inside(image: seq<byte>, at: nat, n: nat) {
    at + n <= |image|
  }

  /** How many of `n` bytes at `at` a file has; a read past its end is cut short. */
  function Available(image: seq<byte>, at: nat, n: nat): (r: nat)
    ensures r <= n && (r > 0 ==> Inside(image, at, r))
  {
    if at >= |image| then 0 else if at + n <= |image| then n else |image| - at
  }

  function Region(image: seq<byte>, at: nat, n: nat): (r: seq<byte>)
    requires Inside(image, at, n)
    ensures |r| == n
  {
    image[at..at + n]
  }

  function Patch(image: seq<byte>, at: nat, bytes: seq<byte>): (r: seq<byte>)
    requires Inside(image, at, |bytes|)
    ensures |r| == |image|
  {
    image[..at] + bytes + image[at + |bytes|..]
  }

  lemma SubRegion(image: seq<byte>, at: nat, n: nat, off: nat, m: nat)
    requires Inside(image, at, n) && off + m <= n
    ensures Region(image, at, n)[off..off + m] == Region(image, at + off, m)
  {
    var whole, part := Region(image, at, n), Region(image, at + off, m);
    assert forall k :: 0 <= k < m ==> part[k] == whole[off + k];
  }

  predicate Apart(a: nat, n: nat, b: nat, m: nat) {
    a + n <= b || b + m <= a
  }

  /** What lies in a patch is the patch, and what lies outside is as before. */
  lemma PatchedRegion(image: seq<byte>, at: nat, bytes: seq<byte>, b: nat, m: nat)
    requires Inside(image, at, |bytes|) && Inside(image, b, m)
    ensures at <= b && b + m <= at + |bytes| ==> Region(Patch(image, at, bytes), b, m) == bytes[b - at..b - at + m]
    ensures Apart(at, |bytes|, b, m) ==> Region(Patch(image, at, bytes), b, m) == Region(image, b, m)
  {
  }

  /** Two patches that lie apart. */
  lemma TwoPatches(image: seq<byte>, a: nat, x: seq<byte>, b: nat, y: seq<byte>)
    requires Inside(image, a, |x|) && Inside(image, b, |y|) && Apart(a, |x|, b, |y|)
    ensures Region(Patch(Patch(image, a, x), b, y), a, |x|) == x
    ensures Region(Patch(Patch(image, a, x), b, y), b, |y|) == y
  {
    var first := Patch(image, a, x);
    PatchedRegion(image, a, x, a, |x|);
    PatchedRegion(first, b, y, a, |x|);
    PatchedRegion(first, b, y, b, |y|);
  }

  lemma PatchedByte(image: seq<byte>, at: nat, bytes: seq<byte>, j: nat)
    requires Inside(image, at, |bytes|) && j < |image|
    ensures Patch(image, at, bytes)[j] == if at <= j < at + |bytes| then bytes[j - at] else image[j]
  {
  }

  lemma SameRegion(a: seq<byte>, b: seq<byte>, at: nat, n: nat)
    requires |a| == |b| && Inside(a, at, n) && forall j :: at <= j < at + n ==> a[j] == b[j]
    ensures Region(a, at, n) == Region(b, at, n)
  {
  }

  lemma PatchSame(image: seq<byte>, at: nat, n: nat)
    requires Inside(image, at, n)
    ensures Patch(image, at, Region(image, at, n)) == image
  {
  }

  /** Overwrites a stretch of an array. */
  method Overwrite(data: array<byte>, at: nat, bytes: seq<byte>)
    requires at + |bytes| <= data.Length
    modifies data
    ensures data[..] == Patch(old(data[..]), at, bytes)
  {
    for k := 0 to |bytes|
      invariant forall j :: 0 <= j < at || at + k <= j < data.Length ==> data[j] == old(data[j])
      invariant forall j :: 0 <= j < k ==> data[at + j] == bytes[j]
    {
      data[at + k] := bytes[k];
    }
    ghost var r := Patch(old(data[..]), at, bytes);
    forall j | 0 <= j < data.Length
      ensures data[j] == r[j]
    {
      if at <= j < at + |bytes| {
        assert data[at + (j - at)] == bytes[j - at];
      }
    }
  }

  // ----- Tables of equal rows -----

  ghost predicate Rows(rows: seq<seq<byte>>, width: nat) {
    forall k :: 0 <= k < |rows| ==> |rows[k]| == width
  }

  lemma SliceShift(a: seq<byte>, b: seq<byte>, i: nat, j: nat)
    requires i <= j <= |b|
    ensures (a + b)[|a| + i..|a| + j] == b[i..j]
  {
  }

  lemma MulStep(width: nat, i: nat)
    ensures width * (i + 1) == width * i + width
  {
  }

  lemma {:induction false} RowAt(rows: seq<seq<byte>>, width: nat, i: nat)
    requires Rows(rows, width) && i < |rows|
    ensures width * i + width <= |Concat(rows)| && Concat(rows)[width * i..width * i + width] == rows[i]
    decreases |rows|
  {
    var rest := rows[1..];
    if i > 0 {
      var at := width * (i - 1);
      RowAt(rest, width, i - 1);
      MulStep(width, i - 1);
      SliceShift(rows[0], Concat(rest), at, at + width);
    }
  }

  lemma {:induction false} RowsLength(rows: seq<seq<byte>>, width: nat)
    requires Rows(rows, width)
    ensures |Concat(rows)| == width * |rows|
    decreases |rows|
  {
    if rows != [] {
      RowsLength(rows[1..], width);
      MulStep(width, |rows| - 1);
    }
  }
}
