/**
  Runs that read, write, seek and change the buffering of one stream. The specification is a file without
  buffers: its contents, one place for reading and writing alike, and the bytes put back before it.
 */
module StdioMixed {
  import opened Prelude
  import opened Descriptor
  import opened Stdio
  import opened StdioRuns

  datatype Op =
    | Reading(read: ReadOp)
    | Writing(write: WriteOp)
    | Moving(offset: int, whence: Whence)
    | Rebuffering(supplied: bool, mode: Mode, size: nat)

  datatype Direct = Direct(content: seq<byte>, at: nat, returned: seq<byte>)

  /** Where the next byte is read, counted as `ftell` does. */
  function Tell(d: Direct): int {
    d.at - |d.returned|
  }

  ghost function Reader(d: Direct): Plain {
    Plain(d.returned + After(d.content, d.at), |d.returned|)
  }

  /** What an operation does to a file without buffers, and the event it amounts to. */
  ghost predicate Acts(d: Direct, op: Op, event: Option<Event>, d': Direct) {
    match op
    case Reading(r) =>
      && d'.content == d.content && Tell(d') == Tell(d) + Moved(Listed(event))
      && Explains(Reader(d), [r], Listed(event), true, Reader(d'))
    case Writing(w) => event.None? && d' == Direct(Overwrite(d.content, d.at, Data(w)), d.at + |Data(w)|, d.returned)
    case Moving(offset, whence) =>
      && event.None? && d'.content == d.content && d'.returned == []
      && d'.at == offset + (if whence == Cur then Tell(d) else Base(whence, 0, |d.content|))
    case Rebuffering(_, _, _) => event.None? && d' == d
  }

  /** A run, with the states of the file before, between and after its operations. */
  ghost predicate Follows(trace: seq<Direct>, ops: seq<Op>, events: seq<Option<Event>>) {
    && |trace| == |ops| + 1 && |events| == |ops|
    && forall k :: 0 <= k < |ops| ==> Acts(trace[k], ops[k], events[k], trace[k + 1])
  }

  /** Not both buffers are in use, and what was read ahead is what stands in the file. */
  ghost predicate Tidy(s: Stream)
    reads s, s.file
  {
    s.Valid() && s.Look().Coherent() && (s.wbuf == [] || (s.ready == [] && s.ungot == []))
  }

  /** The file that the stream stands for. */
  ghost function Stands(s: Stream): Direct
    requires Tidy(s)
    reads s, s.file
  {
    Direct(s.Drain().Landed(), s.Drain().End() - |s.ready|, s.ungot)
  }

  /**
    The stream acts where its caller stands: it reads with no output kept back, it writes or seeks from the
    current place with nothing read ahead or put back, and it changes buffers with nothing read ahead.
   */
  predicate InPlace(s: Stream, op: Op)
    reads s
  {
    match op
    case Reading(_) => |s.wbuf| == 0
    case Writing(w) => w.Flush? || (s.rpos == |s.rbuf| && |s.ungot| == 0)
    case Moving(_, whence) => whence != Cur || (s.rpos == |s.rbuf| && |s.ungot| == 0)
    case Rebuffering(_, _, _) => s.rpos == |s.rbuf|
  }

  /** The offset at which the code acts, or from which it reads next; `None` for an absolute or no place. */
  ghost function ActsAt(s: Stream, op: Op): Option<int>
    reads s, s.file
  {
    match op
    case Reading(_) => Some(s.file.pos - |s.ready| - |s.ungot|)
    case Writing(w) => if w.Flush? then None else Some(s.file.pos + |s.wbuf|)
    case Moving(_, whence) => if whence != Cur then None else Some(s.file.pos + |s.wbuf|)
    case Rebuffering(_, _, _) => Some(s.file.pos + |s.wbuf| - |s.ungot|)
  }

  lemma InPlaceIff(s: Stream, op: Op)
    requires Tidy(s)
    ensures InPlace(s, op) <==> ActsAt(s, op).None? || ActsAt(s, op).value == Tell(Stands(s))
  {
  }

  predicate Sized(op: Op) {
    op.Writing? ==> |Data(op.write)| < SIZES
  }

  /** With no output kept back the reader of the stream is the reader of the file. */
  lemma ReaderSeen(v: View, d: Direct)
    requires v.Coherent() && d == Direct(v.content, v.pos - |v.ready|, v.ungot)
    ensures Reader(d) == Seen(v) && Tell(d) == v.Position()
  {
  }

  method Read(s: Stream, r: ReadOp) returns (event: Option<Event>)
    requires Tidy(s) && s.wbuf == []
    modifies s`rbuf, s`ready, s`rpos, s`eof, s`err, s`ungot, s.file`pos, s.file`unread, s.file`failures
    ensures Tidy(s) && s.file.failures >= old(s.file.failures)
    ensures s.file.failures == old(s.file.failures) ==> Acts(old(Stands(s)), Reading(r), event, Stands(s))
  {
    ReaderSeen(s.Look(), Stands(s));
    event := Step(s, r);
    ReaderSeen(s.Look(), Stands(s));
  }

  /** A write with nothing read ahead or put back. */
  method WriteClear(s: Stream, w: WriteOp)
    requires Tidy(s) && s.ready == [] && s.ungot == [] && Sized(Writing(w))
    modifies s`wbuf, s`err, s.file
    ensures s.Valid() && s.file.failures >= old(s.file.failures)
    ensures s.file.failures == old(s.file.failures) ==> Tidy(s) && Acts(old(Stands(s)), Writing(w), None, Stands(s))
  {
    StepWrite(s, w);
    NothingAhead(s.Look());
  }

  method Write(s: Stream, w: WriteOp)
    requires Tidy(s) && InPlace(s, Writing(w)) && Sized(Writing(w))
    modifies s`wbuf, s`err, s.file
    ensures s.Valid() && s.file.failures >= old(s.file.failures)
    ensures s.file.failures == old(s.file.failures) ==> Tidy(s) && Acts(old(Stands(s)), Writing(w), None, Stands(s))
  {
    if s.rpos == |s.rbuf| && |s.ungot| == 0 {
      WriteClear(s, w);
    } else {
      FlushIdle(s);
    }
  }

  /** A flush with nothing kept back. */
  method FlushIdle(s: Stream)
    requires Tidy(s) && s.wbuf == []
    modifies s`wbuf, s`err, s.file
    ensures Tidy(s) && s.file.failures == old(s.file.failures) && s.wbuf == [] && Stands(s) == old(Stands(s))
  {
    var r, sent := s.FlushWrite();
    assert s.Look() == old(s.Look());
  }

  lemma NothingAhead(v: View)
    requires v.ready == [] && v.unread == After(v.content, v.pos)
    ensures v.Coherent()
  {
    assert [] + v.unread == v.unread;
  }

  method Move(s: Stream, offset: int, whence: Whence)
    requires Tidy(s) && InPlace(s, Moving(offset, whence))
    modifies s`rbuf, s`ready, s`rpos, s`ungot, s`eof, s`wbuf, s`err, s.file
    ensures s.Valid() && s.file.failures >= old(s.file.failures)
    ensures s.file.failures == old(s.file.failures) ==>
      Tidy(s) && Acts(old(Stands(s)), Moving(offset, whence), None, Stands(s))
  {
    var r := s.Fseek(offset, whence);
    NothingAhead(s.Look());
  }

  method Rebuffer(s: Stream, supplied: bool, mode: Mode, size: nat)
    requires Tidy(s) && InPlace(s, Rebuffering(supplied, mode, size))
    modifies s`mode, s`ownsWrite, s`rbuf, s`ready, s`rpos, s`rcap, s`wbuf, s`wcap, s`err, s.file
    ensures s.Valid() && s.file.failures >= old(s.file.failures)
    ensures s.file.failures == old(s.file.failures) ==>
      Tidy(s) && Acts(old(Stands(s)), Rebuffering(supplied, mode, size), None, Stands(s))
  {
    var r := s.Setvbuf(supplied, mode, size, BUFFER_SIZE);
    FlushedGives(old(s.Drain()));
    NothingAhead(s.Look());
  }

  /** One operation that acts in place. */
  method StepMixed(s: Stream, op: Op) returns (event: Option<Event>)
    requires Tidy(s) && InPlace(s, op) && Sized(op)
    modifies s, s.file
    ensures s.Valid() && s.file.failures >= old(s.file.failures)
    ensures s.file.failures == old(s.file.failures) ==> Tidy(s) && Acts(old(Stands(s)), op, event, Stands(s))
  {
    event := None;
    match op {
      case Reading(r) => event := Read(s, r);
      case Writing(w) => Write(s, w);
      case Moving(offset, whence) => Move(s, offset, whence);
      case Rebuffering(supplied, mode, size) => Rebuffer(s, supplied, mode, size);
    }
  }

  /**
    Every run, up to the first operation that is out of place or fails: bytes handed out, contents and
    place are those of a file without buffers, whatever is read ahead or kept back in between.
   */
  method RunMixed(s: Stream, ops: seq<Op>) returns (n: nat, events: seq<Option<Event>>, ghost trace: seq<Direct>)
    requires Tidy(s) && forall k :: 0 <= k < |ops| ==> Sized(ops[k])
    modifies s, s.file
    ensures s.Valid() && s.file.failures >= old(s.file.failures)
    ensures n <= |ops| && Follows(trace, ops[..n], events) && trace[0] == old(Stands(s))
    ensures s.file.failures == old(s.file.failures) ==> Tidy(s) && Stands(s) == trace[n]
    ensures n < |ops| ==> s.file.failures > old(s.file.failures) || !InPlace(s, ops[n])
  {
    var failures := s.file.failures;
    n, events, trace := 0, [], [Stands(s)];
    while n < |ops| && InPlace(s, ops[n])
      invariant n <= |ops| && Follows(trace, ops[..n], events) && trace[0] == old(Stands(s))
      invariant s.file.failures == old(s.file.failures) && Tidy(s) && Stands(s) == trace[n]
    {
      var event := StepMixed(s, ops[n]);
      if s.file.failures > failures {
        return;
      }
      FollowsMore(trace, ops, n, events, event, Stands(s));
      n, events, trace := n + 1, events + [event], trace + [Stands(s)];
    }
  }

  lemma FollowsMore(trace: seq<Direct>, ops: seq<Op>, n: nat, events: seq<Option<Event>>, event: Option<Event>,
                    d: Direct)
    requires n < |ops| && Follows(trace, ops[..n], events) && Acts(trace[n], ops[n], event, d)
    ensures Follows(trace + [d], ops[..n + 1], events + [event])
  {
    forall k | 0 <= k < n + 1
      ensures Acts((trace + [d])[k], ops[..n + 1][k], (events + [event])[k], (trace + [d])[k + 1])
    {
      if k < n {
        assert ops[..n][k] == ops[k];
        assert Acts(trace[k], ops[..n][k], events[k], trace[k + 1]);
      }
    }
  }

  // ----- Operations that are out of place -----

  /** The file after a write that is delivered at once. */
  ghost function Put(v: View, data: seq<byte>): View {
    var content := Overwrite(v.content, v.pos, data);
    v.(content := content, pos := v.pos + |data|, unread := After(content, v.pos + |data|))
  }

  /** One byte of three was read and the other two ahead: a byte written then lands behind them all. */
  lemma WriteAfterReadMisses()
    ensures var v := View([], [8, 9], [], [7, 8, 9], 3, 0, false);
      && v.Coherent() && v.Position() == 1
      && Put(v, [5]).content == [7, 8, 9, 5] != Overwrite(v.content, 1, [5]) && !Put(v, [5]).Coherent()
  {
    var v := View([], [8, 9], [], [7, 8, 9], 3, 0, false);
    assert [7, 8, 9][1..] == [8, 9];
    assert Overwrite(v.content, 3, [5]) == [7, 8, 9, 5];
    assert Overwrite(v.content, 1, [5]) == [7, 5, 9];
    assert Put(v, [5]).content[3] == 5;
    assert After(Put(v, [5]).content, 2)[0] == 9 && ([8, 9] + Put(v, [5]).unread)[0] == 8;
  }

  /** One byte was written and is kept back: a byte read then is the one it replaces. */
  lemma ReadAfterWriteMisses()
    ensures var v, a := View([], [], [7, 8, 9], [7, 8, 9], 0, 0, false), Sink([7, 8, 9], 0, [], [5]);
      v.Pending()[0] == 7 && After(a.Landed(), a.End()) == [8, 9]
  {
    assert Overwrite([7, 8, 9], 0, [5]) == [5, 8, 9];
    assert [5, 8, 9][1..] == [8, 9];
  }
}
