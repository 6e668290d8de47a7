/**
  An open file as the operating system presents it. Reads and writes may be short and any call may
  fail; which of these happens is left open, so every result holds for every schedule.
 */
module Descriptor {
  import opened Prelude

  datatype Whence = Set | Cur | End

  /** The file after `data` is written at `pos`; a gap is filled with zeros. */
  function Overwrite(content: seq<byte>, pos: nat, data: seq<byte>): seq<byte> {
    if data == [] then content
    else if pos > |content| then content + seq(pos - |content|, _ => 0) + data
    else content[..pos] + data + After(content, pos + |data|)
  }

  function After(content: seq<byte>, pos: nat): seq<byte> {
    if pos <= |content| then content[pos..] else []
  }

  lemma AfterTwice(content: seq<byte>, a: nat, b: nat)
    ensures After(After(content, a), b) == After(content, a + b)
  {
  }

  /** Writing behind bytes that stand between `front` and `tail`. */
  lemma OverwriteBehind(front: seq<byte>, first: seq<byte>, tail: seq<byte>, second: seq<byte>)
    requires second != []
    ensures
      Overwrite(front + first + tail, |front| + |first|, second) == front + (first + second) + After(tail, |second|)
  {
    var whole := front + first + tail;
    assert whole[..|front| + |first|] == front + first;
    assert After(whole, |front| + |first|) == tail;
    AfterTwice(whole, |front| + |first|, |second|);
    assert front + first + second == front + (first + second);
  }

  /** Bytes written in two calls land as they would in one. */
  lemma OverwriteTwice(content: seq<byte>, pos: nat, first: seq<byte>, second: seq<byte>)
    ensures Overwrite(Overwrite(content, pos, first), pos + |first|, second) == Overwrite(content, pos, first + second)
  {
    if first == [] {
      assert first + second == second;
    } else if second == [] {
      assert first + second == first;
    } else if pos > |content| {
      var filled := content + seq(pos - |content|, _ => 0 as byte);
      OverwriteBehind(filled, first, [], second);
      assert filled + first + [] == filled + first && filled + (first + second) + [] == filled + (first + second);
    } else {
      OverwriteBehind(content[..pos], first, After(content, pos + |first|), second);
      AfterTwice(content, pos + |first|, |second|);
    }
  }

  /** Where a seek counts from. */
  function Base(whence: Whence, pos: nat, size: nat): nat {
    match whence case Set => 0 case Cur => pos case End => size
  }

  class File {
    var content: seq<byte>
    var pos: nat
    /** The bytes from the offset to the end of the file. */
    ghost var unread: seq<byte>
    /** Every byte accepted by `Write`, in order. */
    ghost var written: seq<byte>
    /** How many calls failed. */
    var failures: nat

    ghost predicate Valid()
      reads this
    {
      unread == After(content, pos)
    }

    constructor (content: seq<byte>)
      ensures Valid() && this.content == content && pos == 0 && written == [] && failures == 0
    {
      this.content, pos, unread, written, failures := content, 0, content, [], 0;
    }

    /** The next bytes, at least one unless none are left; `None` is a failed call. */
    method Read(count: nat) returns (data: Option<seq<byte>>)
      requires Valid() && count > 0
      modifies this`pos, this`unread, this`failures
      ensures Valid()
      ensures data.None? ==> unread == old(unread) && pos == old(pos) && failures == old(failures) + 1
      ensures data.Some? ==> |data.value| <= count && failures == old(failures)
      ensures data.Some? ==> old(unread) == data.value + unread && pos == old(pos) + |data.value|
      ensures data.Some? && |data.value| == 0 ==> unread == []
    {
      var fail: bool := *;
      if fail {
        failures := failures + 1;
        return None;
      }
      var next := After(content, pos);
      var most := if |next| < count then |next| else count;
      var k: nat :| k <= most && (most > 0 ==> k > 0);
      pos, unread := pos + k, unread[k..];
      return Some(next[..k]);
    }

    /** Accepts the first `n` bytes; a write that succeeds makes progress. */
    method Write(data: seq<byte>) returns (n: int)
      requires Valid() && |data| > 0
      modifies this
      ensures Valid()
      ensures n == -1 ==> content == old(content) && pos == old(pos)
      ensures n == -1 ==> written == old(written) && failures == old(failures) + 1
      ensures n != -1 ==> 0 < n <= |data| && failures == old(failures)
      ensures n != -1 ==> written == old(written) + data[..n] && pos == old(pos) + n
      ensures n != -1 ==> content == Overwrite(old(content), old(pos), data[..n])
    {
      var fail: bool := *;
      if fail {
        failures := failures + 1;
        return -1;
      }
      var k: nat :| 0 < k <= |data|;
      content := Overwrite(content, pos, data[..k]);
      written := written + data[..k];
      pos := pos + k;
      unread := After(content, pos);
      return k;
    }

    /** Moves to an offset from the start, from the current place or from the end of the file. */
    method Seek(offset: int, whence: Whence) returns (r: int)
      requires Valid()
      modifies this`pos, this`unread, this`failures
      ensures Valid()
      ensures r == -1 ==> pos == old(pos) && failures == old(failures) + 1
      ensures r != -1 ==> r == pos && failures == old(failures)
      ensures r != -1 ==> pos == offset + Base(whence, old(pos), |content|)
    {
      var target := offset + Base(whence, pos, |content|);
      var fail: bool := *;
      if fail || target < 0 {
        failures := failures + 1;
        return -1;
      }
      pos, unread := target, After(content, target);
      return pos;
    }
  }
}
