/**
  Buffered streams: a read buffer, a write buffer and a small pushback stack in front of a file. The
  specification is a plain byte stream: `Pending` is what is still to be read, `Output` is what has
  been accepted for writing.
 */
module Stdio {
  import opened Prelude
  import opened Descriptor

  datatype Mode = Unbuffered | Full | Line

  const BUFFER_SIZE: nat := 4096
  const LINE_INITIAL_SIZE: nat := 128
  const PUSHBACK_SIZE: nat := 8
  const NEWLINE: byte := 10
  const EOF: int := -1

  /** Products are taken in 64 bits. */
  const SIZES: nat := 0x1_0000_0000_0000_0000

  /** How many bytes `nmemb` items of the given size take, and how many whole items a byte count holds. */
  function Bytes(size: nat, nmemb: nat): nat { (size * nmemb) % SIZES }

  function Items(bytes: nat, size: nat): nat { if size == 0 then 0 else bytes / size }

  lemma MulGrows(size: nat, a: nat, b: nat)
    requires a <= b
    ensures size * a <= size * b
  {
  }

  lemma QuotientBelow(bytes: nat, size: nat, n: nat)
    requires size > 0 && bytes < size * n
    ensures bytes / size < n
  {
    if n <= bytes / size {
      MulGrows(size, n, bytes / size);
    }
  }

  lemma {:induction false} WholeQuotient(size: nat, n: nat)
    requires size > 0
    ensures (size * n) / size == n
  {
    var q := (size * n) / size;
    QuotientBelow(size * n, size, n + 1);
    if q + 1 <= n {
      MulGrows(size, q + 1, n);
    }
  }

  /** All bytes of so many items hold so many items exactly when the product does not wrap around. */
  lemma {:induction false} ItemsWrap(size: nat, nmemb: nat)
    requires size > 0
    ensures Items(Bytes(size, nmemb), size) == nmemb <==> size * nmemb < SIZES
  {
    var total := size * nmemb;
    if total < SIZES {
      assert total % SIZES == total;
      WholeQuotient(size, nmemb);
    } else {
      QuotientBelow(total % SIZES, size, nmemb);
    }
  }

  /** Items of 2^33 bytes, 2^31 of them: no byte is asked for, and no item comes. */
  lemma WrapLosesItems()
    ensures Bytes(0x2_0000_0000, 0x8000_0000) == 0 && Items(Bytes(0x2_0000_0000, 0x8000_0000), 0x2_0000_0000) == 0
  {
  }

  /** What a stream holds for its reader: bytes pushed back, bytes read ahead, and the file behind them. */
  datatype View = View(ungot: seq<byte>, ready: seq<byte>, unread: seq<byte>, content: seq<byte>,
                       pos: nat, failures: nat, err: bool) {

    /** The bytes still to be read. */
    ghost function Pending(): seq<byte> {
      ungot + (ready + unread)
    }

    /** The position that `ftell` reports. */
    ghost function Position(): int {
      pos - |ready| - |ungot|
    }

    /** The bytes read ahead are those just before the file's offset. */
    ghost predicate Coherent() {
      |ready| <= pos && After(content, pos - |ready|) == ready + unread
    }
  }

  /** From `a` to `b` the bytes `taken` were read off the front, and the position moved with them. */
  ghost predicate Took(a: View, taken: seq<byte>, b: View) {
    && a.Pending() == taken + b.Pending()
    && b.Position() == a.Position() + |taken|
    && (a.Coherent() ==> b.Coherent())
    && b.failures >= a.failures
    && (b.failures > a.failures || a.err ==> b.err)
    && |b.ungot| == if |taken| < |a.ungot| then |a.ungot| - |taken| else 0
  }

  lemma TookBoth(a: View, first: seq<byte>, b: View, second: seq<byte>, c: View)
    requires Took(a, first, b) && Took(b, second, c)
    ensures Took(a, first + second, c)
  {
    assert first + (second + c.Pending()) == (first + second) + c.Pending();
  }

  lemma TookPushed(v: View)
    requires v.ungot != []
    ensures Took(v, [v.ungot[0]], v.(ungot := v.ungot[1..]))
  {
  }

  lemma TookReady(v: View, data: seq<byte>, rest: seq<byte>)
    requires v.ungot == [] && v.ready == data + rest
    ensures Took(v, data, v.(ready := rest))
  {
    var u := rest + v.unread;
    assert data + rest + v.unread == data + u;
    assert [] + (data + u) == data + ([] + u);
    if v.Coherent() && data != [] {
      DropFront(v.content, v.pos - |v.ready|, data, u);
    }
  }

  lemma DropFront(content: seq<byte>, at: nat, front: seq<byte>, rest: seq<byte>)
    requires at <= |content| && content[at..] == front + rest
    ensures After(content, at + |front|) == rest
  {
    assert content[at..][|front|..] == content[at + |front|..];
  }

  /** Bytes that move from the file to the read buffer stay pending. */
  lemma TookNone(v: View, data: seq<byte>, rest: seq<byte>)
    requires v.ready == [] && v.unread == data + rest && v.unread == After(v.content, v.pos)
    ensures Took(v, [], v.(ready := data, unread := rest, pos := v.pos + |data|))
  {
    assert [] + (data + rest) == data + rest;
  }

  lemma TookFailed(v: View)
    ensures Took(v, [], v.(failures := v.failures + 1, err := true)) && Took(v, [], v)
  {
    assert [] + v.Pending() == v.Pending();
  }

  /** The bytes a call read from the file are read ahead, if it did not fail. */
  lemma TookAhead(v: View, data: Option<seq<byte>>, rest: seq<byte>)
    requires v.ready == [] && v.unread == After(v.content, v.pos)
    requires v.unread == if data.None? then rest else data.value + rest
    ensures Took(v, [],
      if data.None? then v.(failures := v.failures + 1, err := true)
      else v.(ready := data.value, unread := rest, pos := v.pos + |data.value|))
  {
    if data.None? {
      TookFailed(v);
    } else {
      TookNone(v, data.value, rest);
    }
  }

  /** The bytes a call read from the file are taken. */
  lemma TookDirect(v: View, data: seq<byte>, rest: seq<byte>)
    requires v.ungot == [] && v.ready == [] && v.unread == data + rest && v.unread == After(v.content, v.pos)
    ensures Took(v, data, v.(unread := rest, pos := v.pos + |data|))
  {
    assert [] + rest == rest && [] + ([] + rest) == rest && [] + ([] + (data + rest)) == data + rest;
    if |data| > 0 {
      DropFront(v.content, v.pos, data, rest);
    }
  }

  /** After a seek everything pending is still in the file. */
  lemma NothingBuffered(v: View)
    requires v.ungot == [] && v.ready == [] && v.unread == After(v.content, v.pos)
    ensures v.Coherent() && v.Position() == v.pos && v.Pending() == After(v.content, v.pos)
  {
    assert [] + v.unread == v.unread && [] + ([] + v.unread) == v.unread;
  }

  /** What a stream holds for its writer: the file, every byte delivered to it, and the bytes kept back. */
  datatype Sink = Sink(content: seq<byte>, pos: nat, written: seq<byte>, kept: seq<byte>) {

    /** The bytes accepted for writing since the file was opened. */
    ghost function Output(): seq<byte> {
      written + kept
    }

    /** The file as it will be when what is kept back is delivered, and the place after that. */
    ghost function Landed(): seq<byte> {
      Overwrite(content, pos, kept)
    }

    ghost function End(): nat {
      pos + |kept|
    }
  }

  /** From `a` to `b` the bytes `data` were accepted; they land behind those accepted before. */
  ghost predicate Gave(a: Sink, data: seq<byte>, b: Sink) {
    && b.Output() == a.Output() + data
    && b.Landed() == Overwrite(a.Landed(), a.End(), data)
    && b.End() == a.End() + |data|
  }

  lemma LandsTwice(landed: seq<byte>, end: nat, first: seq<byte>, mid: seq<byte>, second: seq<byte>, last: seq<byte>)
    requires mid == Overwrite(landed, end, first) && last == Overwrite(mid, end + |first|, second)
    ensures last == Overwrite(landed, end, first + second)
  {
    OverwriteTwice(landed, end, first, second);
  }

  lemma AddsTwice(output: seq<byte>, first: seq<byte>, mid: seq<byte>, second: seq<byte>, last: seq<byte>)
    requires mid == output + first && last == mid + second
    ensures last == output + (first + second)
  {
  }

  lemma GaveNothing(a: Sink)
    ensures Gave(a, [], a)
  {
    assert a.Output() + [] == a.Output();
  }

  lemma GaveBoth(a: Sink, first: seq<byte>, b: Sink, second: seq<byte>, c: Sink)
    requires Gave(a, first, b) && Gave(b, second, c)
    ensures Gave(a, first + second, c)
  {
    LandsTwice(a.Landed(), a.End(), first, b.Landed(), second, c.Landed());
    AddsTwice(a.Output(), first, b.Output(), second, c.Output());
  }

  /** Bytes that are kept back. */
  lemma GaveKept(a: Sink, data: seq<byte>)
    ensures Gave(a, data, a.(kept := a.kept + data))
  {
    assert a.written + (a.kept + data) == a.written + a.kept + data;
    OverwriteTwice(a.content, a.pos, a.kept, data);
  }

  /** Bytes that go to the file while none are kept back. */
  lemma GaveDirect(a: Sink, data: seq<byte>)
    requires a.kept == []
    ensures Gave(a, data, Sink(Overwrite(a.content, a.pos, data), a.pos + |data|, a.written + data, []))
  {
    assert a.written + [] == a.written && a.written + data + [] == a.written + data;
  }

  /** What is kept back is delivered. */
  function Flushed(a: Sink): Sink {
    Sink(Overwrite(a.content, a.pos, a.kept), a.pos + |a.kept|, a.written + a.kept, [])
  }

  lemma FlushedGives(a: Sink)
    ensures Gave(a, [], Flushed(a)) && Flushed(a).Output() == a.Output() && Flushed(a).Landed() == a.Landed()
  {
    assert a.Output() + [] == a.Output();
  }

  /** What is pending can be found in the file at the reported position. */
  lemma PendingInFile(v: View)
    requires v.ungot == [] && v.Coherent()
    ensures v.Position() >= 0 && v.Pending() == After(v.content, v.Position())
  {
    assert [] + (v.ready + v.unread) == v.ready + v.unread;
  }

  // ----- Where the byte stream shows its buffers -----

  /** After a change of buffering what was read ahead is gone. */
  ghost function Rebuffered(v: View): View {
    v.(ready := [])
  }

  lemma RebufferedKeeps(v: View)
    ensures Rebuffered(v).Pending() == v.Pending() <==> v.ready == []
  {
    assert |v.Pending()| == |Rebuffered(v).Pending()| + |v.ready|;
  }

  /** After a seek; a relative one counts from the offset of the file. */
  ghost function Sought(v: View, offset: int, whence: Whence): View
    requires Landing(v, offset, whence) >= 0
  {
    var at := Landing(v, offset, whence);
    v.(ungot := [], ready := [], unread := After(v.content, at), pos := at)
  }

  /** Without what was read ahead or pushed back less is pending. */
  lemma SoughtKeeps(v: View)
    ensures v.unread == v.Pending() <==> v.ready == [] && v.ungot == []
    ensures [] + ([] + v.unread) == v.unread
  {
    assert |v.Pending()| == |v.ungot| + |v.ready| + |v.unread|;
  }

  function Landing(v: View, offset: int, whence: Whence): int {
    offset + Base(whence, v.pos, |v.content|)
  }

  /** What a flush that failed after `sent` bytes will have put out when it is made up for. */
  function HalfFlushed(written: seq<byte>, buffered: seq<byte>, sent: nat): seq<byte>
    requires sent <= |buffered|
  {
    written + buffered[..sent] + buffered
  }

  /** Two bytes of three read ahead: changing the buffering loses them. */
  lemma SetvbufLosesInput()
    ensures var v := View([], [8, 9], [], [7, 8, 9], 3, 0, false);
      v.Coherent() && v.Pending() == [8, 9] && Rebuffered(v).Pending() == []
  {
    assert [7, 8, 9][1..] == [8, 9];
  }

  /** In the same state a relative seek by nothing goes to the end of the file. */
  lemma SeekByNothingSkips()
    ensures var v := View([], [8, 9], [], [7, 8, 9], 3, 0, false);
      v.Position() == 1 && Sought(v, 0, Cur).Position() == 3 && Sought(v, 0, Cur).Pending() == []
  {
  }

  /** One of two bytes out before the failure: it goes out again. */
  lemma HalfFlushRepeats()
    ensures HalfFlushed([1], [2, 3], 1) == [1, 2, 2, 3] != [1] + [2, 3]
  {
  }

  /** `data` stands at the front of the buffer. */
  ghost predicate Holds(buf: array<byte>, data: seq<byte>)
    reads buf
  {
    |data| <= buf.Length && forall k :: 0 <= k < |data| ==> buf[k] == data[k]
  }

  /** The delimiter, if it occurs at all, is the last byte. */
  ghost predicate UpTo(data: seq<byte>, delimiter: int) {
    forall k :: 0 <= k < |data| - 1 ==> data[k] as int != delimiter
  }

  ghost predicate EndsWith(data: seq<byte>, delimiter: int) {
    |data| > 0 && data[|data| - 1] as int == delimiter
  }

  /** Copies `data` into the buffer behind what it holds already. */
  method Place(buf: array<byte>, at: nat, data: seq<byte>, ghost before: seq<byte>)
    requires at == |before| && at + |data| <= buf.Length && Holds(buf, before)
    modifies buf
    ensures Holds(buf, before + data)
  {
    for j := 0 to |data|
      invariant forall k :: 0 <= k < at ==> buf[k] == before[k]
      invariant forall k :: 0 <= k < j ==> buf[at + k] == data[k]
    {
      buf[at + j] := data[j];
    }
    assert forall k :: at <= k < at + |data| ==> buf[k] == buf[at + (k - at)];
  }

  /** A buffer of the given size with the same first bytes. */
  method Grow(buf: array<byte>, size: nat, ghost data: seq<byte>, len: nat) returns (r: array<byte>)
    requires len == |data| <= size && Holds(buf, data)
    ensures fresh(r) && r.Length == size && Holds(r, data)
  {
    r := new byte[size];
    for k := 0 to len
      invariant forall j :: 0 <= j < k ==> r[j] == data[j]
    {
      r[k] := buf[k];
    }
  }

  /** Makes room for one more byte and the terminating zero, doubling the buffer. */
  method Reserve(buf: array<byte>, n: nat, len: nat, ghost data: seq<byte>) returns (r: array<byte>, size: nat)
    requires len == |data| && n <= buf.Length && Holds(buf, data)
    ensures r == buf || fresh(r)
    ensures len + 2 <= size <= r.Length && Holds(r, data)
    ensures size == if len + 2 <= n then n else if n * 2 < len + 2 then len + 2 else n * 2
  {
    r, size := buf, n;
    if len + 2 > n {
      size := if n * 2 < len + 2 then len + 2 else n * 2;
      r := Grow(buf, size, data, len);
    }
  }

  /** Adds one byte, with room left for the terminating zero. */
  method Append(buf: array<byte>, n: nat, len: nat, b: byte, ghost data: seq<byte>) returns (r: array<byte>, size: nat)
    requires len == |data| && n <= buf.Length && Holds(buf, data)
    modifies buf
    ensures (r == buf || fresh(r)) && len + 2 <= size <= r.Length && Holds(r, data + [b])
  {
    r, size := Reserve(buf, n, len, data);
    Place(r, len, [b], data);
  }

  lemma TakeMore(data: seq<byte>, off: nat, n: nat)
    requires off + n <= |data|
    ensures data[..off] + data[off..][..n] == data[..off + n]
  {
  }

  /** `data` has gone to the file. */
  ghost predicate Sent(a: Sink, data: seq<byte>, b: Sink) {
    && b.content == Overwrite(a.content, a.pos, data) && b.pos == a.pos + |data|
    && b.written == a.written + data && b.kept == a.kept
  }

  lemma SentNothing(a: Sink)
    ensures Sent(a, [], a)
  {
    assert a.written + [] == a.written;
  }

  lemma SentBoth(a: Sink, first: seq<byte>, b: Sink, second: seq<byte>, c: Sink)
    requires Sent(a, first, b) && Sent(b, second, c)
    ensures Sent(a, first + second, c)
  {
    assert a.written + first + second == a.written + (first + second);
    OverwriteTwice(a.content, a.pos, first, second);
  }

  /** A prefix of what was handed over is one of what was handed over with more behind it. */
  lemma PrefixOfMore(written: seq<byte>, before: seq<byte>, first: seq<byte>, second: seq<byte>)
    requires written <= before + first + second
    ensures written <= before + (first + second)
  {
    assert before + first + second == before + (first + second);
  }

  lemma UpToPush(data: seq<byte>, b: byte, delimiter: int)
    requires UpTo(data, delimiter) && !EndsWith(data, delimiter)
    ensures UpTo(data + [b], delimiter) && (EndsWith(data + [b], delimiter) <==> b as int == delimiter)
  {
  }

  class Stream {
    const file: File
    var mode: Mode
    var eof: bool
    var err: bool

    /** The read buffer, filled up to its length, of which the bytes before `rpos` are used up. */
    var rbuf: seq<byte>
    var rpos: nat
    var rcap: nat

    /** The bytes read ahead. */
    ghost var ready: seq<byte>

    /** The write buffer, filled up to its length. */
    var wbuf: seq<byte>
    var wcap: nat

    /** Whether the write buffer is the stream's own; the caller may have supplied it. */
    var ownsWrite: bool

    /** The pushback stack, its top first. */
    var ungot: seq<byte>

    /** The indices are in range, and a buffered stream has room to buffer in. */
    ghost predicate Valid()
      reads this, file
    {
      && file.Valid()
      && rpos <= |rbuf| <= rcap && ready == rbuf[rpos..] && |wbuf| <= wcap && |ungot| <= PUSHBACK_SIZE
      && (if mode.Unbuffered? then rcap == wcap == 0 else rcap > 0 && wcap > 0)
    }

    ghost function Look(): View
      reads this, file
    {
      View(ungot, ready, file.unread, file.content, file.pos, file.failures, err)
    }

    ghost function Pending(): seq<byte>
      reads this, file
    {
      Look().Pending()
    }

    ghost function Drain(): Sink
      reads this, file
    {
      Sink(file.content, file.pos, file.written, wbuf)
    }

    /** The bytes accepted for writing since the file was opened. */
    ghost function Output(): seq<byte>
      reads this, file
    {
      Drain().Output()
    }

    constructor (file: File, mode: Mode)
      requires file.Valid()
      ensures Valid() && this.file == file && this.mode == mode && !eof && !err
      ensures rbuf == ready == wbuf == ungot == [] && rpos == 0
    {
      this.file, this.mode := file, mode;
      eof, err, ownsWrite := false, false, !mode.Unbuffered?;
      rbuf, rpos, ready, wbuf, ungot := [], 0, [], [], [];
      rcap, wcap := if mode.Unbuffered? then 0 else BUFFER_SIZE, if mode.Unbuffered? then 0 else BUFFER_SIZE;
    }

    // ----- Reading -----

    /** At the end of the file, unless a call has failed. */
    ghost predicate Exhausted(before: View)
      reads this, file
    {
      file.failures == before.failures ==> Pending() == [] && eof
    }

    /** Refills an empty read buffer. Nothing is lost, and 0 means that the file has no more. */
    method FillRead() returns (n: int)
      requires Valid() && !mode.Unbuffered? && rpos == |rbuf|
      modifies this`rbuf, this`ready, this`rpos, this`eof, this`err, file`pos, file`unread, file`failures
      ensures Valid() && Took(old(Look()), [], Look())
      ensures n == EOF ==> rbuf == [] && file.failures > old(file.failures) && eof == old(eof)
      ensures n != EOF ==> n == |rbuf| && rpos == 0
      ensures n == 0 ==> eof && file.unread == []
    {
      var data := Fetch();
      TookAhead(old(Look()), data, file.unread);
      n := if data.None? then EOF else |data.value|;
    }

    /** One call to fill the read buffer. */
    method Fetch() returns (data: Option<seq<byte>>)
      requires Valid() && !mode.Unbuffered? && ready == []
      modifies this`rbuf, this`ready, this`rpos, this`eof, this`err, file`pos, file`unread, file`failures
      ensures Valid() && rpos == 0
      ensures data.None? ==> rbuf == [] && eof == old(eof) && file.unread == old(file.unread)
      ensures data.None? ==> Look() == old(Look()).(failures := old(file.failures) + 1, err := true)
      ensures data.Some? ==> rbuf == data.value && old(file.unread) == data.value + file.unread
      ensures data.Some? ==>
        Look() == old(Look()).(ready := data.value, unread := file.unread, pos := old(file.pos) + |data.value|)
      ensures data.Some? && data.value == [] ==> eof && file.unread == []
    {
      data := file.Read(rcap);
      if data.None? {
        rbuf, rpos, ready, err := [], 0, [], true;
      } else {
        rbuf, rpos, ready, eof := data.value, 0, data.value, eof || |data.value| == 0;
      }
    }

    method TakePushed() returns (b: byte)
      requires Valid() && |ungot| != 0
      modifies this`ungot
      ensures Valid() && Took(old(Look()), [b], Look())
    {
      TookPushed(Look());
      b := ungot[0];
      ungot := ungot[1..];
    }

    /** Takes bytes from the read buffer. */
    method TakeReady(k: nat) returns (data: seq<byte>)
      requires Valid() && ungot == [] && k <= |rbuf| - rpos
      modifies this`rpos, this`ready
      ensures Valid() && |data| == k && Took(old(Look()), data, Look())
    {
      ghost var v, rest := Look(), rbuf[rpos + k..];
      data := rbuf[rpos..rpos + k];
      assert ready == data + rest;
      TookReady(v, data, rest);
      rpos, ready := rpos + k, rest;
    }

    /** Up to `count` bytes: from the pushback stack, from the file, or from the read buffer. */
    method ReadSome(count: nat) returns (data: seq<byte>)
      requires Valid() && count > 0
      modifies this`rbuf, this`ready, this`rpos, this`eof, this`err, this`ungot, file`pos, file`unread, file`failures
      ensures Valid() && |data| <= count && Took(old(Look()), data, Look())
      ensures |data| == 0 ==> Exhausted(old(Look()))
    {
      if |ungot| != 0 {
        var b := TakePushed();
        return [b];
      }
      if mode.Unbuffered? {
        data := ReadDirect(count);
        return;
      }
      if rpos == |rbuf| {
        var n := FillRead();
        if n == EOF {
          return [];
        }
        if |rbuf| == 0 {
          return [];
        }
      }
      data := TakeReady(if count < |rbuf| - rpos then count else |rbuf| - rpos);
    }

    method ReadDirect(count: nat) returns (data: seq<byte>)
      requires Valid() && mode.Unbuffered? && ungot == [] && count > 0
      modifies this`eof, this`err, file`pos, file`unread, file`failures
      ensures Valid() && |data| <= count && Took(old(Look()), data, Look())
      ensures |data| == 0 ==> Exhausted(old(Look()))
    {
      ghost var v := Look();
      var some := file.Read(count);
      if some.None? {
        err, data := true, [];
        TookFailed(v);
        assert Look() == v.(failures := v.failures + 1, err := true);
      } else {
        data := some.value;
        eof := eof || |data| == 0;
        TookDirect(v, data, file.unread);
        assert Look() == v.(unread := file.unread, pos := v.pos + |data|);
      }
    }

    /** The next byte, or end of file. */
    method Getc() returns (c: int)
      requires Valid()
      modifies this`rbuf, this`ready, this`rpos, this`eof, this`err, this`ungot, file`pos, file`unread, file`failures
      ensures Valid() && (c == EOF || 0 <= c < 256)
      ensures Took(old(Look()), if c == EOF then [] else [c as byte], Look())
      ensures c == EOF ==> Exhausted(old(Look()))
    {
      var data := ReadSome(1);
      if |data| == 0 {
        return EOF;
      }
      assert data == [data[0]];
      return data[0] as int;
    }

    /**
      Reads items into `out`. What is then in `out`, `taken`, is exactly what comes next, the last item
      possibly incomplete; a short count means that nothing is left or that a read failed.
     */
    method Fread(out: array<byte>, size: nat, nmemb: nat) returns (items: nat, taken: seq<byte>)
      requires Valid() && Bytes(size, nmemb) <= out.Length
      modifies this`rbuf, this`ready, this`rpos, this`eof, this`err, this`ungot
      modifies file`pos, file`unread, file`failures, out
      ensures Valid() && Took(old(Look()), taken, Look()) && Holds(out, taken)
      ensures |taken| <= Bytes(size, nmemb) && items == Items(|taken|, size)
      ensures |taken| < Bytes(size, nmemb) ==> Exhausted(old(Look()))
    {
      if size == 0 || nmemb == 0 {
        return 0, [];
      }
      ghost var bytes;
      var got: nat;
      got, bytes := ReadFully(out, Bytes(size, nmemb));
      taken := out[..got];
      assert taken == bytes;
      items := Items(got, size);
    }

    method ReadFully(out: array<byte>, want: nat) returns (got: nat, ghost taken: seq<byte>)
      requires Valid() && want <= out.Length
      modifies this`rbuf, this`ready, this`rpos, this`eof, this`err, this`ungot
      modifies file`pos, file`unread, file`failures, out
      ensures Valid() && Took(old(Look()), taken, Look()) && Holds(out, taken)
      ensures got == |taken| <= want && (got < want ==> Exhausted(old(Look())))
    {
      got, taken := 0, [];
      while got != want
        invariant Valid() && got == |taken| <= want
        invariant Took(old(Look()), taken, Look()) && Holds(out, taken)
        decreases want - got
      {
        var more := got;
        got, taken := ReadMore(out, got, want, old(Look()), taken);
        if got == more {
          break;
        }
      }
    }

    /** One round: bytes go behind those in the buffer, unless there are none. */
    method ReadMore(out: array<byte>, got: nat, want: nat, ghost start: View, ghost taken: seq<byte>)
      returns (got': nat, ghost taken': seq<byte>)
      requires Valid() && got == |taken| < want <= out.Length && Took(start, taken, Look()) && Holds(out, taken)
      modifies this`rbuf, this`ready, this`rpos, this`eof, this`err, this`ungot, file`pos, file`unread, file`failures
      modifies out
      ensures Valid() && got <= got' == |taken'| <= want && Took(start, taken', Look()) && Holds(out, taken')
      ensures got' == got ==> Exhausted(start)
    {
      ghost var before := Look();
      var data := ReadSome(want - got);
      TookBoth(start, taken, before, data, Look());
      Place(out, got, data, taken);
      got', taken' := got + |data|, taken + data;
    }

    /** One line, at most `size - 1` bytes, with the terminating zero added. */
    method Fgets(s: array<byte>, size: int) returns (ok: bool, line: seq<byte>)
      requires Valid() && size <= s.Length
      modifies this`rbuf, this`ready, this`rpos, this`eof, this`err, this`ungot, file`pos, file`unread, file`failures, s
      ensures Valid() && Took(old(Look()), line, Look()) && UpTo(line, NEWLINE as int)
      ensures ok <==> |line| > 0
      ensures ok ==> |line| < size && Holds(s, line + [0])
      ensures |line| < size - 1 && !EndsWith(line, NEWLINE as int) ==> Exhausted(old(Look()))
    {
      ghost var bytes;
      var i: nat;
      i, bytes := CollectLine(s, size);
      line := s[..i];
      assert line == bytes;
      if i == 0 {
        return false, line;
      }
      Place(s, i, [0], line);
      return true, line;
    }

    /** One more byte of a line that is not complete yet. */
    method NextOfLine(delimiter: int, ghost start: View, ghost line: seq<byte>) returns (c: int, ghost line': seq<byte>)
      requires Valid() && Took(start, line, Look()) && UpTo(line, delimiter) && !EndsWith(line, delimiter)
      modifies this`rbuf, this`ready, this`rpos, this`eof, this`err, this`ungot, file`pos, file`unread, file`failures
      ensures Valid() && Took(start, line', Look()) && UpTo(line', delimiter)
      ensures c == EOF || 0 <= c < 256
      ensures c == EOF ==> line' == line && Exhausted(start)
      ensures c != EOF ==> line' == line + [c as byte] && (EndsWith(line', delimiter) <==> c == delimiter)
      ensures c != EOF ==> |Pending()| < old(|Pending()|)
    {
      ghost var before := Look();
      c := Getc();
      line' := line + if c == EOF then [] else [c as byte];
      TookBoth(start, line, before, if c == EOF then [] else [c as byte], Look());
      if c != EOF {
        UpToPush(line, c as byte, delimiter);
      }
    }

    method CollectLine(s: array<byte>, size: int) returns (i: nat, ghost line: seq<byte>)
      requires Valid() && size <= s.Length
      modifies this`rbuf, this`ready, this`rpos, this`eof, this`err, this`ungot, file`pos, file`unread, file`failures, s
      ensures Valid() && Took(old(Look()), line, Look()) && UpTo(line, NEWLINE as int)
      ensures i == |line| && (i == 0 || i < size) && Holds(s, line)
      ensures i < size - 1 && !EndsWith(line, NEWLINE as int) ==> Exhausted(old(Look()))
    {
      i, line := 0, [];
      var more := true;
      while more && i < size - 1
        invariant Valid() && i == |line| && (i == 0 || i < size)
        invariant Took(old(Look()), line, Look()) && UpTo(line, NEWLINE as int) && Holds(s, line)
        invariant more ==> !EndsWith(line, NEWLINE as int)
        invariant !more ==> EndsWith(line, NEWLINE as int) || Exhausted(old(Look()))
        decreases more, size - i
      {
        i, line, more := LineStep(s, i, old(Look()), line);
      }
    }

    /** One round: a byte goes behind those in the buffer, unless there is none. */
    method LineStep(s: array<byte>, i: nat, ghost start: View, ghost line: seq<byte>)
      returns (i': nat, ghost line': seq<byte>, more: bool)
      requires Valid() && Took(start, line, Look()) && UpTo(line, NEWLINE as int) && !EndsWith(line, NEWLINE as int)
      requires i == |line| < s.Length && Holds(s, line)
      modifies this`rbuf, this`ready, this`rpos, this`eof, this`err, this`ungot, file`pos, file`unread, file`failures, s
      ensures Valid() && Took(start, line', Look()) && UpTo(line', NEWLINE as int)
      ensures i' == |line'| <= i + 1 && Holds(s, line') && (more ==> i' == i + 1)
      ensures if more then !EndsWith(line', NEWLINE as int) else EndsWith(line', NEWLINE as int) || Exhausted(start)
    {
      var c;
      c, line' := NextOfLine(NEWLINE as int, start, line);
      i', more := i, false;
      if c != EOF {
        Place(s, i, [c as byte], line);
        i', more := i + 1, c != NEWLINE as int;
      }
    }

    /** Everything up to and including the delimiter, in a buffer that grows as needed. */
    method Getdelim(line: array?<byte>, n: nat, delimiter: int)
      returns (len: int, line': array<byte>, n': nat, taken: seq<byte>)
      requires Valid() && (line != null ==> n <= line.Length)
      modifies this`rbuf, this`ready, this`rpos, this`eof, this`err, this`ungot
      modifies file`pos, file`unread, file`failures, line
      ensures Valid() && Took(old(Look()), taken, Look()) && UpTo(taken, delimiter)
      ensures len == if |taken| == 0 then -1 else |taken|
      ensures (line' == line || fresh(line')) && n' <= line'.Length
      ensures len > 0 ==> len < n' && Holds(line', taken + [0])
      ensures !EndsWith(taken, delimiter) ==> Exhausted(old(Look()))
    {
      if line == null || n == 0 {
        n' := LINE_INITIAL_SIZE;
        line' := new byte[n'];
      } else {
        line', n' := line, n;
      }
      ghost var bytes;
      len, line', n', bytes := CollectDelimited(line', n', delimiter);
      taken := line'[..len];
      assert taken == bytes;
      if len == 0 {
        return -1, line', n', taken;
      }
      Place(line', len, [0], taken);
    }

    method CollectDelimited(line: array<byte>, n: nat, delimiter: int)
      returns (len: nat, line': array<byte>, n': nat, ghost taken: seq<byte>)
      requires Valid() && n <= line.Length
      modifies this`rbuf, this`ready, this`rpos, this`eof, this`err, this`ungot
      modifies file`pos, file`unread, file`failures, line
      ensures Valid() && Took(old(Look()), taken, Look()) && UpTo(taken, delimiter)
      ensures len == |taken| && (line' == line || fresh(line')) && Holds(line', taken)
      ensures n' <= line'.Length && (len > 0 ==> len < n')
      ensures !EndsWith(taken, delimiter) ==> Exhausted(old(Look()))
    {
      len, line', n', taken := 0, line, n, [];
      var more := true;
      while more
        invariant Valid() && len == |taken| && (line' == line || fresh(line'))
        invariant n' <= line'.Length && (len > 0 ==> len < n')
        invariant Took(old(Look()), taken, Look()) && UpTo(taken, delimiter) && Holds(line', taken)
        invariant if more then !EndsWith(taken, delimiter) else EndsWith(taken, delimiter) || Exhausted(old(Look()))
        decreases more, |Pending()|
      {
        len, line', n', taken, more := DelimitedStep(line', n', len, delimiter, old(Look()), taken);
      }
    }

    /** One round: a byte goes behind those in the buffer, unless there is none. */
    method DelimitedStep(line: array<byte>, n: nat, len: nat, delimiter: int, ghost start: View, ghost taken: seq<byte>)
      returns (len': nat, line': array<byte>, n': nat, ghost taken': seq<byte>, more: bool)
      requires Valid() && Took(start, taken, Look()) && UpTo(taken, delimiter) && !EndsWith(taken, delimiter)
      requires len == |taken| && n <= line.Length && Holds(line, taken) && (len > 0 ==> len < n)
      modifies this`rbuf, this`ready, this`rpos, this`eof, this`err, this`ungot, file`pos, file`unread, file`failures
      modifies line
      ensures Valid() && Took(start, taken', Look()) && UpTo(taken', delimiter)
      ensures len' == |taken'| && n' <= line'.Length && Holds(line', taken') && (len' > 0 ==> len' < n')
      ensures line' == line || fresh(line')
      ensures if more then !EndsWith(taken', delimiter) else EndsWith(taken', delimiter) || Exhausted(start)
      ensures more ==> |Pending()| < old(|Pending()|)
    {
      var c;
      c, taken' := NextOfLine(delimiter, start, taken);
      len', line', n', more := len, line, n, false;
      if c != EOF {
        line', n' := Append(line, n, len, c as byte, taken);
        len', more := len + 1, c != delimiter;
      }
    }

    /** Pushes one byte on the front of what is still to be read, unless the pushback stack is full. */
    method Ungetc(c: int) returns (r: int)
      requires Valid()
      modifies this`ungot, this`eof
      ensures Valid()
      ensures r == if c == EOF || old(|ungot|) == PUSHBACK_SIZE then EOF else c
      ensures r == EOF ==> ungot == old(ungot) && eof == old(eof)
      ensures r != EOF ==> Pending() == [(c % 256) as byte] + old(Pending())
      ensures r != EOF ==> Look().Position() == old(Look().Position()) - 1 && !eof
    {
      if c == EOF {
        return EOF;
      }
      if |ungot| == PUSHBACK_SIZE {
        return EOF;
      }
      ungot := [(c % 256) as byte] + ungot;
      eof := false;
      return c;
    }

    // ----- Writing -----

    /**
      Writes the buffer out. On failure the buffer stays as it was even if part of it has gone out, so
      that part, `sent`, would be sent again.
     */
    method FlushWrite() returns (r: int, ghost sent: nat)
      requires Valid()
      modifies this`wbuf, this`err, file
      ensures Valid() && file.failures >= old(file.failures) && (old(err) ==> err)
      ensures r == 0 ==> Drain() == Flushed(old(Drain())) && file.failures == old(file.failures) && err == old(err)
      ensures r != 0 ==> r == EOF && err && file.failures > old(file.failures)
      ensures r != 0 ==> wbuf == old(wbuf) && sent <= |wbuf| && file.written == old(file.written) + wbuf[..sent]
      ensures old(wbuf) == [] ==> r == 0 && file.unread == old(file.unread)
    {
      var ok, off := SendAll(wbuf);
      if !ok {
        return EOF, off;
      }
      assert wbuf[..off] == wbuf;
      wbuf := [];
      return 0, off;
    }

    /** Sends `data` in as many calls as it takes. */
    method SendAll(data: seq<byte>) returns (ok: bool, off: nat)
      requires Valid()
      modifies this`err, file
      ensures Valid() && off <= |data| && Sent(old(Drain()), data[..off], Drain())
      ensures ok <==> file.failures == old(file.failures)
      ensures ok ==> off == |data| && err == old(err)
      ensures !ok ==> err && file.failures > old(file.failures)
      ensures data == [] ==> ok && file.unread == old(file.unread)
    {
      ghost var start := Drain();
      ok, off := true, 0;
      SentNothing(start);
      while ok && off != |data|
        invariant Valid() && off <= |data| && Sent(start, data[..off], Drain())
        invariant if ok then file.failures == old(file.failures) && err == old(err)
                  else err && file.failures > old(file.failures)
        invariant data == [] ==> ok && file.unread == old(file.unread)
        decreases ok, |data| - off
      {
        var n := SendSome(start, data, off);
        ok := n != EOF;
        off := if ok then off + n else off;
      }
    }

    /** One call of a loop that sends `data`. */
    method SendSome(ghost start: Sink, data: seq<byte>, off: nat) returns (n: int)
      requires Valid() && off < |data| && Sent(start, data[..off], Drain())
      modifies this`err, file
      ensures Valid()
      ensures n == EOF ==> err && file.failures > old(file.failures) && Sent(start, data[..off], Drain())
      ensures n != EOF ==> 0 < n <= |data| - off && file.failures == old(file.failures) && err == old(err)
      ensures n != EOF ==> Sent(start, data[..off + n], Drain())
    {
      ghost var before := Drain();
      n := file.Write(data[off..]);
      if n == EOF {
        err := true;
      } else {
        SentBoth(start, data[..off], before, data[off..][..n], Drain());
        TakeMore(data, off, n);
      }
    }

    /** What is delivered and what is buffered make up what was accepted, unless a flush failed half-way. */
    method Fflush() returns (r: int, ghost sent: nat)
      requires Valid()
      modifies this`wbuf, this`err, file
      ensures Valid() && (r == 0 || (r == EOF && err && file.failures > old(file.failures)))
      ensures r == 0 ==> Drain() == Flushed(old(Drain())) && Output() == old(Output()) && file.written == old(Output())
      ensures r != 0 ==> wbuf == old(wbuf) && sent <= |wbuf| && file.written == old(file.written) + wbuf[..sent]
      ensures r != 0 ==> Output() == HalfFlushed(old(file.written), old(wbuf), sent)
      ensures r != 0 ==> (Output() == old(Output()) <==> sent == 0)
    {
      r, sent := FlushWrite();
      if r == 0 {
        FlushedGives(old(Drain()));
      } else {
        assert |Output()| == |old(Output())| + sent;
        assert sent == 0 ==> wbuf[..sent] == [];
      }
    }

    /** The stream has accepted exactly `data` since `before`, or a call failed and only a prefix went out. */
    ghost predicate Accepted(before: Sink, failures: nat, data: seq<byte>)
      reads this, file
    {
      && file.failures >= failures
      && (file.failures == failures ==> Gave(before, data, Drain()))
      && (file.failures > failures ==> err && file.written <= before.Output() + data)
    }

    /** Writes whole items: every byte is delivered or buffered, in order, once. */
    method Fwrite(data: seq<byte>, size: nat, nmemb: nat) returns (items: nat, ghost off: nat)
      requires Valid() && Bytes(size, nmemb) == |data|
      modifies this`wbuf, this`err, file
      ensures Valid() && off <= |data| && items == Items(off, size)
      ensures Accepted(old(Drain()), old(file.failures), data[..off])
      ensures file.failures == old(file.failures) ==> off == |data|
      ensures file.failures == old(file.failures) && mode.Line? && NEWLINE !in old(wbuf) ==> NEWLINE !in wbuf
    {
      if size == 0 || nmemb == 0 {
        GaveNothing(Drain());
        return 0, 0;
      }
      var done: nat;
      if mode.Unbuffered? {
        done := WriteDirect(data);
      } else {
        done := WriteBuffered(data);
      }
      return Items(done, size), done;
    }

    method WriteDirect(data: seq<byte>) returns (off: nat)
      requires Valid() && mode.Unbuffered?
      modifies this`err, file
      ensures Valid() && off <= |data| && Accepted(old(Drain()), old(file.failures), data[..off])
      ensures file.failures == old(file.failures) ==> off == |data|
    {
      var ok;
      ok, off := SendAll(data);
      GaveDirect(old(Drain()), data[..off]);
    }

    /** Makes room in the write buffer. */
    method MakeRoom() returns (ok: bool)
      requires Valid() && !mode.Unbuffered?
      modifies this`wbuf, this`err, file
      ensures Valid() && Accepted(old(Drain()), old(file.failures), [])
      ensures ok <==> file.failures == old(file.failures)
      ensures ok ==> |wbuf| < wcap && (wbuf == old(wbuf) || wbuf == [])
    {
      GaveNothing(Drain());
      if |wbuf| < wcap {
        return true;
      }
      ok := FlushAccepted(old(Drain()), old(file.failures), []);
    }

    /** A flush, after `data` was accepted. */
    method FlushAccepted(ghost before: Sink, ghost failures: nat, ghost data: seq<byte>) returns (ok: bool)
      requires Valid() && Gave(before, data, Drain()) && file.failures == failures
      modifies this`wbuf, this`err, file
      ensures Valid() && Accepted(before, failures, data)
      ensures ok <==> file.failures == failures
      ensures ok ==> wbuf == []
    {
      ghost var mid := Drain();
      var r, sent := FlushWrite();
      if r == 0 {
        FlushedGives(mid);
        GaveBoth(before, data, mid, [], Drain());
        assert data + [] == data;
      }
      return r == 0;
    }

    /** One round of a buffered write: makes room, takes what fits, and flushes a completed line. */
    method BufferSome(rest: seq<byte>) returns (ok: bool, take: nat)
      requires Valid() && !mode.Unbuffered? && |rest| > 0
      modifies this`wbuf, this`err, file
      ensures Valid() && take <= |rest| && Accepted(old(Drain()), old(file.failures), rest[..take])
      ensures ok <==> file.failures == old(file.failures)
      ensures ok ==> take > 0
      ensures ok && mode.Line? && NEWLINE !in old(wbuf) ==> NEWLINE !in wbuf
    {
      ok := MakeRoom();
      if !ok {
        return false, 0;
      }
      take := if |rest| < wcap - |wbuf| then |rest| else wcap - |wbuf|;
      var chunk := rest[..take];
      ghost var mid := Drain();
      GaveKept(mid, chunk);
      wbuf := wbuf + chunk;
      GaveBoth(old(Drain()), [], mid, chunk, Drain());
      assert [] + chunk == chunk;
      if mode.Line? && NEWLINE in chunk {
        ok := FlushAccepted(old(Drain()), old(file.failures), chunk);
      }
    }

    method WriteBuffered(data: seq<byte>) returns (off: nat)
      requires Valid() && !mode.Unbuffered?
      modifies this`wbuf, this`err, file
      ensures Valid() && off <= |data| && Accepted(old(Drain()), old(file.failures), data[..off])
      ensures file.failures == old(file.failures) ==> off == |data|
      ensures file.failures == old(file.failures) && mode.Line? && NEWLINE !in old(wbuf) ==> NEWLINE !in wbuf
    {
      GaveNothing(Drain());
      off := 0;
      var ok := true;
      while ok && off != |data|
        invariant Valid() && off <= |data|
        invariant Accepted(old(Drain()), old(file.failures), data[..off])
        invariant ok <==> file.failures == old(file.failures)
        invariant ok && mode.Line? && NEWLINE !in old(wbuf) ==> NEWLINE !in wbuf
        decreases ok, |data| - off
      {
        ok, off := BufferMore(old(Drain()), old(file.failures), data, off);
      }
    }

    /** One round, for the bytes of `data` from `off` on. */
    method BufferMore(ghost start: Sink, ghost failures: nat, data: seq<byte>, off: nat) returns (ok: bool, off': nat)
      requires Valid() && !mode.Unbuffered? && off < |data|
      requires file.failures == failures && Gave(start, data[..off], Drain())
      modifies this`wbuf, this`err, file
      ensures Valid() && off <= off' <= |data| && Accepted(start, failures, data[..off'])
      ensures ok <==> file.failures == failures
      ensures ok ==> off' > off
      ensures ok && mode.Line? && NEWLINE !in old(wbuf) ==> NEWLINE !in wbuf
    {
      ghost var mid := Drain();
      var take: nat;
      ok, take := BufferSome(data[off..]);
      ghost var first, second := data[..off], data[off..][..take];
      if ok {
        GaveBoth(start, first, mid, second, Drain());
      } else {
        PrefixOfMore(file.written, start.Output(), first, second);
      }
      TakeMore(data, off, take);
      off' := off + take;
    }

    // ----- Buffering and position -----

    /**
      Changes the buffering after a flush. Bytes read ahead are dropped: with no output pending, what
      is still to be read stays the same exactly when nothing was read ahead.
     */
    method Setvbuf(supplied: bool, mode': Mode, size: nat, default: nat) returns (r: int)
      requires Valid() && default > 0
      modifies this`mode, this`ownsWrite, this`rbuf, this`ready, this`rpos, this`rcap, this`wbuf, this`wcap
      modifies this`err, file
      ensures Valid() && (r == 0 || (r == EOF && err && file.failures > old(file.failures)))
      ensures r == 0 ==> mode == mode' && rbuf == [] && Drain() == Flushed(old(Drain()))
      ensures r == 0 ==> file.failures == old(file.failures) && err == old(err)
      ensures r == 0 ==> rcap == wcap == if mode'.Unbuffered? then 0 else if size == 0 then default else size
      ensures r == 0 ==> ownsWrite == (!mode'.Unbuffered? && !supplied)
      ensures r != 0 ==> mode == old(mode) && ownsWrite == old(ownsWrite) && wbuf == old(wbuf)
      ensures r != 0 ==> rbuf == old(rbuf) && rpos == old(rpos)
      ensures r == 0 && old(wbuf) == [] ==> Look() == Rebuffered(old(Look()))
      ensures r == 0 && old(wbuf) == [] ==> (Pending() == old(Pending()) <==> old(rpos) == |old(rbuf)|)
    {
      r := Rebuffer(supplied, mode', if mode'.Unbuffered? then 0 else if size == 0 then default else size);
      RebufferedKeeps(old(Look()));
    }

    method Rebuffer(supplied: bool, mode': Mode, cap: nat) returns (r: int)
      requires Valid() && (mode'.Unbuffered? <==> cap == 0)
      modifies this`mode, this`ownsWrite, this`rbuf, this`ready, this`rpos, this`rcap, this`wbuf, this`wcap
      modifies this`err, file
      ensures Valid()
      ensures r == 0 ==> mode == mode' && rcap == wcap == cap && ownsWrite == (!mode'.Unbuffered? && !supplied)
      ensures r == 0 ==> rbuf == [] && Drain() == Flushed(old(Drain()))
      ensures r == 0 ==> file.failures == old(file.failures) && err == old(err)
      ensures r != 0 ==> r == EOF && err && file.failures > old(file.failures) && wbuf == old(wbuf)
      ensures r != 0 ==> mode == old(mode) && ownsWrite == old(ownsWrite) && rbuf == old(rbuf) && rpos == old(rpos)
      ensures old(wbuf) == [] ==> file.unread == old(file.unread)
    {
      ghost var sent;
      r, sent := FlushWrite();
      if r == 0 {
        SetBuffers(mode', cap, !mode'.Unbuffered? && !supplied);
      }
    }

    method SetBuffers(mode': Mode, cap: nat, owns: bool)
      requires Valid() && wbuf == [] && (mode'.Unbuffered? <==> cap == 0)
      modifies this`mode, this`ownsWrite, this`rbuf, this`ready, this`rpos, this`rcap, this`wcap
      ensures Valid() && mode == mode' && rcap == wcap == cap && ownsWrite == owns && rbuf == []
    {
      mode, rcap, wcap, ownsWrite := mode', cap, cap, owns;
      rbuf, rpos, ready := [], 0, [];
    }

    /** Reports the position of the next byte to be read; output that is still buffered is not counted. */
    method Ftell() returns (pos: int)
      requires Valid()
      modifies this`err, file`pos, file`unread, file`failures
      ensures Valid() && file.failures >= old(file.failures)
      ensures file.pos == old(file.pos) && file.unread == old(file.unread)
      ensures pos == Look().Position() || (pos == EOF && err && file.failures > old(file.failures))
    {
      pos := file.Seek(0, Cur);
      if pos == EOF {
        err := true;
        return EOF;
      }
      if !mode.Unbuffered? {
        pos := pos - (|rbuf| - rpos);
      }
      pos := pos - |ungot|;
    }

    /**
      Moves in the file after a flush. A relative seek starts from the file's own offset, which is where
      the reader stands exactly when nothing is read ahead or pushed back.
     */
    method Fseek(offset: int, whence: Whence) returns (r: int)
      requires Valid()
      modifies this`rbuf, this`ready, this`rpos, this`ungot, this`eof, this`wbuf, this`err, file
      ensures Valid() && (r == 0 || (r == EOF && err && file.failures > old(file.failures)))
      ensures r == 0 ==> !eof && ungot == [] && ready == [] && file.failures == old(file.failures)
      ensures r == 0 ==> file.pos == offset + Base(whence, old(Drain().End()), |file.content|)
      ensures r == 0 ==> Drain() == Flushed(old(Drain())).(pos := file.pos)
      ensures r == 0 && old(wbuf) == [] ==>
        Landing(old(Look()), offset, whence) >= 0 && Look() == Sought(old(Look()), offset, whence)
      ensures r == 0 && whence == Cur && old(wbuf) == [] ==>
        (file.pos == old(Look().Position()) + offset <==> old(ready) == [] && old(ungot) == [])
      ensures old(wbuf) == [] ==> file.content == old(file.content)
      ensures r != 0 && old(wbuf) == [] ==> (Pending() == old(Pending()) <==> old(ready) == [] && old(ungot) == [])
      ensures r != 0 && wbuf != [] ==> wbuf == old(wbuf) && ready == old(ready) && ungot == old(ungot)
      ensures r != 0 && wbuf == [] ==> ready == [] && ungot == []
    {
      r := Reposition(offset, whence);
      SoughtKeeps(old(Look()));
    }

    method Reposition(offset: int, whence: Whence) returns (r: int)
      requires Valid()
      modifies this`rbuf, this`ready, this`rpos, this`ungot, this`eof, this`wbuf, this`err, file
      ensures Valid() && (old(err) ==> err) && (r == 0 ==> err == old(err))
      ensures r == 0 ==> !eof && ungot == [] && ready == [] && file.failures == old(file.failures)
      ensures r == 0 ==> file.pos == offset + Base(whence, old(Drain().End()), |file.content|)
      ensures r == 0 ==> Drain() == Flushed(old(Drain())).(pos := file.pos)
      ensures r != 0 ==> r == EOF && err && file.failures > old(file.failures)
      ensures r != 0 && wbuf != [] ==> wbuf == old(wbuf) && ready == old(ready) && ungot == old(ungot)
      ensures r != 0 && wbuf == [] ==> ready == [] && ungot == []
      ensures r != 0 && old(wbuf) == [] ==>
        wbuf == [] && file.content == old(file.content) && file.unread == old(file.unread)
    {
      ghost var sent;
      r, sent := FlushWrite();
      if r == 0 {
        rbuf, rpos, ready, ungot, eof := [], 0, [], [], false;
        r := MoveTo(offset, whence);
      }
    }

    method MoveTo(offset: int, whence: Whence) returns (r: int)
      requires Valid()
      modifies this`err, file`pos, file`unread, file`failures
      ensures Valid()
      ensures r == 0 ==> file.pos == offset + Base(whence, old(file.pos), |file.content|)
      ensures r == 0 ==> file.failures == old(file.failures) && err == old(err)
      ensures r != 0 ==> r == EOF && err && file.failures > old(file.failures)
      ensures r != 0 ==> file.pos == old(file.pos) && file.unread == old(file.unread)
    {
      var at := file.Seek(offset, whence);
      if at == EOF {
        err := true;
        return EOF;
      }
      return 0;
    }
  }
}
