/** Whole runs of a stream: any sequence of operations, under any schedule of short and failed calls. */
module StdioRuns {
  import opened Prelude
  import opened Descriptor
  import opened Stdio

  // ----- Reading -----

  datatype ReadOp =
    | GetByte
    | PushBack(c: int)
    | GetItems(size: nat, nmemb: nat)
    | GetString(size: nat)
    /** With no buffer, or with one that has room for so many bytes. */
    | GetDelimited(delimiter: int, room: Option<nat>)

  /** What an operation did to the bytes: took some, or put one back. */
  datatype Event = Took(bytes: seq<byte>) | Returned(b: byte)

  /** The specification: a plain sequence of bytes. */
  function Replay(pending: seq<byte>, events: List<Event>): Option<seq<byte>>
    decreases events
  {
    match events
    case Nil => Some(pending)
    case Cons(Took(bytes), rest) => if bytes <= pending then Replay(pending[|bytes|..], rest) else None
    case Cons(Returned(b), rest) => Replay([b] + pending, rest)
  }

  function Moved(events: List<Event>): int {
    match events
    case Nil => 0
    case Cons(Took(bytes), rest) => |bytes| + Moved(rest)
    case Cons(Returned(_), rest) => Moved(rest) - 1
  }

  function AllTaken(events: List<Event>): seq<byte> {
    match events
    case Nil => []
    case Cons(Took(bytes), rest) => bytes + AllTaken(rest)
    case Cons(Returned(_), rest) => AllTaken(rest)
  }

  predicate NoneReturned(events: List<Event>) {
    events.Cons? ==> events.head.Took? && NoneReturned(events.tail)
  }

  /** Without pushback a run reads the pending bytes in order, each once. */
  lemma {:induction false} ReplayTakesInOrder(pending: seq<byte>, events: List<Event>)
    requires NoneReturned(events) && Replay(pending, events).Some?
    ensures pending == AllTaken(events) + Replay(pending, events).value
    decreases events
  {
    if events.Cons? {
      var bytes := events.head.bytes;
      ReplayTakesInOrder(pending[|bytes|..], events.tail);
      assert pending == bytes + pending[|bytes|..];
    }
  }

  /** No byte appears or disappears: what is left grows and shrinks with the position. */
  lemma {:induction false} ReplayConserves(pending: seq<byte>, events: List<Event>)
    requires Replay(pending, events).Some?
    ensures |Replay(pending, events).value| == |pending| - Moved(events)
    decreases events
  {
    match events
    case Nil =>
    case Cons(Took(bytes), rest) => ReplayConserves(pending[|bytes|..], rest);
    case Cons(Returned(b), rest) => ReplayConserves([b] + pending, rest);
  }

  /** What an operation may take: no more than it asks for, and nothing behind a delimiter. */
  ghost predicate Asked(op: ReadOp, bytes: seq<byte>)
    requires !op.PushBack?
  {
    match op
    case GetByte => |bytes| <= 1
    case GetItems(size, nmemb) => |bytes| <= Bytes(size, nmemb)
    case GetString(size) => UpTo(bytes, NEWLINE as int) && (|bytes| == 0 || |bytes| < size)
    case GetDelimited(delimiter, _) => UpTo(bytes, delimiter)
  }

  /** It got less than it asked for. */
  ghost predicate Short(op: ReadOp, bytes: seq<byte>)
    requires !op.PushBack?
  {
    match op
    case GetByte => |bytes| < 1
    case GetItems(size, nmemb) => |bytes| < Bytes(size, nmemb)
    case GetString(size) => |bytes| < size - 1 && !EndsWith(bytes, NEWLINE as int)
    case GetDelimited(delimiter, _) => !EndsWith(bytes, delimiter)
  }

  /** An operation that takes bytes, and the bytes it hands to its caller. */
  method StepTake(s: Stream, op: ReadOp) returns (taken: seq<byte>)
    requires s.Valid() && !op.PushBack?
    modifies s`rbuf, s`ready, s`rpos, s`eof, s`err, s`ungot, s.file`pos, s.file`unread, s.file`failures
    ensures s.Valid() && Stdio.Took(old(s.Look()), taken, s.Look())
    ensures Asked(op, taken) && (Short(op, taken) ==> s.Exhausted(old(s.Look())))
  {
    match op {
      case GetByte =>
        var c := s.Getc();
        taken := if c == EOF then [] else [c as byte];
      case GetItems(size, nmemb) =>
        var out := new byte[Bytes(size, nmemb)];
        var items;
        items, taken := s.Fread(out, size, nmemb);
      case GetString(size) =>
        var out := new byte[size];
        var ok;
        ok, taken := s.Fgets(out, size);
      case GetDelimited(delimiter, room) =>
        var buf: array?<byte>, n := null, 0;
        if room.Some? {
          n := room.value;
          buf := new byte[n];
        }
        var len, line;
        len, line, n, taken := s.Getdelim(buf, n, delimiter);
    }
  }

  lemma ReplayTake(pending: seq<byte>, taken: seq<byte>, rest: seq<byte>)
    requires pending == taken + rest
    ensures taken <= pending && pending[|taken|..] == rest
  {
  }

  /** A reader of plain bytes: what is left, and how many of the first were put back. */
  datatype Plain = Plain(pending: seq<byte>, returned: nat)

  ghost function Without(p: Plain, bytes: seq<byte>): Plain
    requires bytes <= p.pending
  {
    Plain(p.pending[|bytes|..], if |bytes| < p.returned then p.returned - |bytes| else 0)
  }

  /** A byte is put back unless it is the end mark or eight are there already. */
  predicate Refused(p: Plain, c: int) {
    c == EOF || p.returned == PUSHBACK_SIZE
  }

  ghost function With(p: Plain, c: int): Plain {
    Plain([(c % 256) as byte] + p.pending, p.returned + 1)
  }

  /**
    The specification of a run: every operation takes from the front what it may take, and all that is left
    if it comes up short (unless a call has failed), or puts its byte in front unless that is refused.
   */
  ghost predicate Explains(p: Plain, ops: seq<ReadOp>, events: List<Event>, faultless: bool, left: Plain)
    decreases |ops|
  {
    if ops == [] then events.Nil? && left == p
    else if ops[0].PushBack? then
      var c := ops[0].c;
      if Refused(p, c) then Explains(p, ops[1..], events, faultless, left)
      else
        && events.Cons? && events.head == Returned((c % 256) as byte)
        && Explains(With(p, c), ops[1..], events.tail, faultless, left)
    else
      && events.Cons? && events.head.Took? && Takes(p, ops[0], events.head.bytes, faultless)
      && Explains(Without(p, events.head.bytes), ops[1..], events.tail, faultless, left)
  }

  ghost predicate Takes(p: Plain, op: ReadOp, bytes: seq<byte>, faultless: bool)
    requires !op.PushBack?
  {
    Asked(op, bytes) && bytes <= p.pending && (faultless && Short(op, bytes) ==> bytes == p.pending)
  }

  /** A run with a failure promises no more than one without. */
  lemma {:induction false} FaultPromisesLess(p: Plain, ops: seq<ReadOp>, events: List<Event>, left: Plain)
    requires Explains(p, ops, events, true, left)
    ensures Explains(p, ops, events, false, left)
    decreases |ops|
  {
    if ops != [] {
      if !ops[0].PushBack? {
        FaultPromisesLess(Without(p, events.head.bytes), ops[1..], events.tail, left);
      } else if Refused(p, ops[0].c) {
        FaultPromisesLess(p, ops[1..], events, left);
      } else {
        FaultPromisesLess(With(p, ops[0].c), ops[1..], events.tail, left);
      }
    }
  }

  /** Whatever explains a run also replays it. */
  lemma {:induction false} ExplainsReplays(p: Plain, ops: seq<ReadOp>, events: List<Event>, faultless: bool,
                                           left: Plain)
    requires Explains(p, ops, events, faultless, left)
    ensures Replay(p.pending, events) == Some(left.pending)
    decreases |ops|
  {
    if ops != [] {
      if !ops[0].PushBack? {
        ExplainsReplays(Without(p, events.head.bytes), ops[1..], events.tail, faultless, left);
      } else if Refused(p, ops[0].c) {
        ExplainsReplays(p, ops[1..], events, faultless, left);
      } else {
        ExplainsReplays(With(p, ops[0].c), ops[1..], events.tail, faultless, left);
      }
    }
  }

  lemma {:induction false} NothingReturned(p: Plain, ops: seq<ReadOp>, events: List<Event>, faultless: bool,
                                           left: Plain)
    requires Explains(p, ops, events, faultless, left) && forall k :: 0 <= k < |ops| ==> !ops[k].PushBack?
    ensures NoneReturned(events)
    decreases |ops|
  {
    if ops != [] {
      NothingReturned(Without(p, events.head.bytes), ops[1..], events.tail, faultless, left);
    }
  }

  /** Without pushback the bytes handed out, one after another, and those left are what there was. */
  lemma RunTakesInOrder(p: Plain, ops: seq<ReadOp>, events: List<Event>, faultless: bool, left: Plain)
    requires Explains(p, ops, events, faultless, left) && forall k :: 0 <= k < |ops| ==> !ops[k].PushBack?
    ensures p.pending == AllTaken(events) + left.pending
  {
    ExplainsReplays(p, ops, events, faultless, left);
    NothingReturned(p, ops, events, faultless, left);
    ReplayTakesInOrder(p.pending, events);
  }

  /** The stream as a plain reader. */
  ghost function Seen(v: View): Plain {
    Plain(v.Pending(), |v.ungot|)
  }

  function Listed(event: Option<Event>): List<Event> {
    if event.None? then Nil else Cons(event.value, Nil)
  }

  method StepPush(s: Stream, c: int) returns (event: Option<Event>)
    requires s.Valid()
    modifies s`eof, s`ungot
    ensures s.Valid() && (old(s.Look().Coherent()) ==> s.Look().Coherent())
    ensures event.None? <==> Refused(old(Seen(s.Look())), c)
    ensures event.None? ==> Seen(s.Look()) == old(Seen(s.Look()))
    ensures event.Some? ==> event.value == Returned((c % 256) as byte)
    ensures event.Some? ==> Seen(s.Look()) == With(old(Seen(s.Look())), c)
    ensures s.Look().Position() == old(s.Look().Position()) + Moved(Listed(event))
  {
    var r := s.Ungetc(c);
    event := if r == EOF then None else Some(Returned((c % 256) as byte));
  }

  /** One operation, and the event it amounts to: the bytes it hands to its caller, or the byte put back. */
  method Step(s: Stream, op: ReadOp) returns (event: Option<Event>)
    requires s.Valid()
    modifies s`rbuf, s`ready, s`rpos, s`eof, s`err, s`ungot, s.file`pos, s.file`unread, s.file`failures
    ensures s.Valid() && s.file.failures >= old(s.file.failures)
    ensures old(s.Look().Coherent()) ==> s.Look().Coherent()
    ensures Explains(old(Seen(s.Look())), [op], Listed(event), s.file.failures == old(s.file.failures), Seen(s.Look()))
    ensures s.Look().Position() == old(s.Look().Position()) + Moved(Listed(event))
  {
    ghost var start := s.Look();
    if op.PushBack? {
      event := StepPush(s, op.c);
      ExplainsPush(Seen(start), op, true);
    } else {
      var taken := StepTake(s, op);
      event := Some(Event.Took(taken));
      ReplayTake(start.Pending(), taken, s.Pending());
      ExplainsTake(Seen(start), op, taken, s.file.failures == start.failures);
    }
  }

  lemma ExplainsPush(p: Plain, op: ReadOp, faultless: bool)
    requires op.PushBack?
    ensures if Refused(p, op.c) then Explains(p, [op], Nil, faultless, p)
            else Explains(p, [op], Cons(Returned((op.c % 256) as byte), Nil), faultless, With(p, op.c))
  {
    assert [op][1..] == [];
    assert Explains(p, [], Nil, faultless, p) && Explains(With(p, op.c), [], Nil, faultless, With(p, op.c));
  }

  lemma ExplainsTake(p: Plain, op: ReadOp, bytes: seq<byte>, faultless: bool)
    requires !op.PushBack? && Takes(p, op, bytes, faultless)
    ensures Explains(p, [op], Cons(Event.Took(bytes), Nil), faultless, Without(p, bytes))
  {
    assert [op][1..] == [];
    assert Explains(Without(p, bytes), [], Nil, faultless, Without(p, bytes));
  }

  lemma ExplainsLess(p: Plain, ops: seq<ReadOp>, events: List<Event>, faultless: bool, less: bool, left: Plain)
    requires Explains(p, ops, events, faultless, left) && (less ==> faultless)
    ensures Explains(p, ops, events, less, left)
  {
    if faultless && !less {
      FaultPromisesLess(p, ops, events, left);
    }
  }

  /** An operation and then a run. */
  lemma ExplainsCons(p: Plain, ops: seq<ReadOp>, event: Option<Event>, first: bool, mid: Plain, events: List<Event>,
                     rest: bool, left: Plain)
    requires ops != [] && Explains(p, [ops[0]], Listed(event), first, mid)
    requires Explains(mid, ops[1..], events, rest, left)
    ensures Explains(p, ops, if event.None? then events else Cons(event.value, events), first && rest, left)
  {
    ExplainsLess(p, [ops[0]], Listed(event), first, first && rest, mid);
    ExplainsLess(mid, ops[1..], events, rest, first && rest, left);
    assert [ops[0]][1..] == [];
  }

  /**
    Every interleaving of the read operations behaves like one sequence of bytes, whatever reads are short
    or fail: `events` are the bytes the operations hand to their callers, in order, and the bytes put back.
   */
  method RunReads(s: Stream, ops: seq<ReadOp>) returns (events: List<Event>)
    requires s.Valid()
    modifies s`rbuf, s`ready, s`rpos, s`eof, s`err, s`ungot, s.file`pos, s.file`unread, s.file`failures
    ensures s.Valid() && s.file.failures >= old(s.file.failures)
    ensures Explains(old(Seen(s.Look())), ops, events, s.file.failures == old(s.file.failures), Seen(s.Look()))
    ensures s.Look().Position() == old(s.Look().Position()) + Moved(events)
    ensures old(s.Look().Coherent()) ==> s.Look().Coherent()
    decreases |ops|
  {
    if |ops| == 0 {
      return Nil;
    }
    ghost var start := s.Look();
    var event := Step(s, ops[0]);
    ghost var mid := s.Look();
    events := RunReads(s, ops[1..]);
    ExplainsCons(Seen(start), ops, event, mid.failures == start.failures, Seen(mid), events,
                 s.file.failures == mid.failures, Seen(s.Look()));
    if event.Some? {
      events := Cons(event.value, events);
    }
  }

  /**
    With nothing pushed back and no output pending, asking for the position and seeking to it leaves
    the bytes still to be read as they were.
   */
  method TellThenSeek(s: Stream) returns (ok: bool)
    requires s.Valid() && s.Look().Coherent() && s.ungot == [] && s.wbuf == []
    modifies s`rbuf, s`ready, s`rpos, s`ungot, s`eof, s`wbuf, s`err, s.file
    ensures s.Valid() && (ok || s.file.failures > old(s.file.failures))
    ensures ok ==> s.Pending() == old(s.Pending())
    ensures ok ==> s.Look().Position() == old(s.Look().Position()) && s.Look().Coherent()
  {
    ghost var start := s.Look();
    PendingInFile(start);
    var pos := s.Ftell();
    if pos == EOF {
      return false;
    }
    var r := s.Fseek(pos, Set);
    if r != 0 {
      return false;
    }
    NothingBuffered(s.Look());
    assert s.Look().content == start.content && s.Look().pos == start.Position();
    return true;
  }

  // ----- Writing -----

  datatype WriteOp = Put(data: seq<byte>) | Flush

  function Data(op: WriteOp): seq<byte> {
    match op case Put(data) => data case Flush => []
  }

  /** The bytes a run of writes hands to the stream. */
  function Handed(ops: seq<WriteOp>): seq<byte> {
    if ops == [] then [] else Handed(ops[..|ops| - 1]) + Data(ops[|ops| - 1])
  }

  method StepWrite(s: Stream, op: WriteOp)
    requires s.Valid() && |Data(op)| < SIZES
    modifies s`wbuf, s`err, s.file
    ensures s.Valid() && s.file.failures >= old(s.file.failures)
    ensures s.file.failures == old(s.file.failures) ==> Gave(old(s.Drain()), Data(op), s.Drain())
    ensures s.file.failures == old(s.file.failures) && op.Flush? ==> s.wbuf == []
    ensures s.file.failures == old(s.file.failures) && s.mode.Line? && NEWLINE !in old(s.wbuf) ==> NEWLINE !in s.wbuf
  {
    match op {
      case Put(data) =>
        var items, off := s.Fwrite(data, 1, |data|);
        assert s.file.failures == old(s.file.failures) ==> data[..off] == data;
      case Flush =>
        var r, sent := s.FlushWrite();
        FlushedGives(old(s.Drain()));
    }
  }

  /**
    Until a write fails, what was delivered followed by what is buffered is what was handed over, and it
    lands in the file where the first byte was to go; and a line-buffered stream keeps no complete line back.
   */
  method RunWrites(s: Stream, ops: seq<WriteOp>)
    requires s.Valid() && forall k :: 0 <= k < |ops| ==> |Data(ops[k])| < SIZES
    modifies s`wbuf, s`err, s.file
    ensures s.Valid() && s.file.failures >= old(s.file.failures)
    ensures s.file.failures == old(s.file.failures) ==> Gave(old(s.Drain()), Handed(ops), s.Drain())
    ensures s.file.failures == old(s.file.failures) && |ops| > 0 && ops[|ops| - 1].Flush? ==>
      && s.wbuf == [] && s.file.written == old(s.Output()) + Handed(ops)
      && s.file.content == Overwrite(old(s.Drain().Landed()), old(s.Drain().End()), Handed(ops))
    ensures s.file.failures == old(s.file.failures) && s.mode.Line? && NEWLINE !in old(s.wbuf) ==> NEWLINE !in s.wbuf
    decreases |ops|
  {
    if |ops| == 0 {
      GaveNothing(s.Drain());
      return;
    }
    var n := |ops| - 1;
    RunWrites(s, ops[..n]);
    ghost var mid, failures := s.Drain(), s.file.failures;
    StepWrite(s, ops[n]);
    if s.file.failures == old(s.file.failures) {
      GaveBoth(old(s.Drain()), Handed(ops[..n]), mid, Data(ops[n]), s.Drain());
      GaveAll(old(s.Drain()), Handed(ops), s.Drain());
    }
  }

  lemma GaveAll(a: Sink, data: seq<byte>, b: Sink)
    requires Gave(a, data, b)
    ensures b.kept == [] ==> b.written == a.Output() + data && b.content == Overwrite(a.Landed(), a.End(), data)
  {
    assert b.written + [] == b.written;
  }
}
