/**
  Reordering the constructors and destructors of an ELF module: the pointers of `.init_array` and
  `.fini_array` are read, moved about, and written back, both to the section itself and to the addends
  of the `.rela.dyn` entries that fill it at load time.
 */
module FunctionPointers {
  import opened Prelude
  import opened Binary

  datatype FunctionPointer = FunctionPointer(value: nat, name: string)

  // ----- Moving -----

  datatype Move = First(name: string) | Last(name: string)

  function PositionFrom(es: seq<FunctionPointer>, name: string, from: nat): (i: nat)
    requires from <= |es|
    ensures from <= i <= |es| && (i < |es| ==> es[i].name == name)
    ensures forall k :: from <= k < i ==> es[k].name != name
    decreases |es| - from
  {
    if from == |es| || es[from].name == name then from else PositionFrom(es, name, from + 1)
  }

  /** The first index with that name, or the length. */
  function Position(es: seq<FunctionPointer>, name: string): (i: nat)
    ensures i <= |es| && (i < |es| ==> es[i].name == name)
    ensures forall k :: 0 <= k < i ==> es[k].name != name
  {
    PositionFrom(es, name, 0)
  }

  function ApplyMove(es: seq<FunctionPointer>, m: Move): Result<seq<FunctionPointer>> {
    var i := Position(es, m.name);
    if i == |es| then Err
    else
      var rest := es[..i] + es[i + 1..];
      Ok(if m.First? then [es[i]] + rest else rest + [es[i]])
  }

  function ApplyMoves(es: seq<FunctionPointer>, moves: seq<Move>): Result<seq<FunctionPointer>>
    decreases |moves|
  {
    if moves == [] then Ok(es)
    else
      var next :- ApplyMove(es, moves[0]);
      ApplyMoves(next, moves[1..])
  }

  /** The elements that no move names. */
  function Others(es: seq<FunctionPointer>, names: set<string>): seq<FunctionPointer> {
    if es == [] then [] else (if es[0].name in names then [] else [es[0]]) + Others(es[1..], names)
  }

  lemma {:induction false} OthersAppend(a: seq<FunctionPointer>, b: seq<FunctionPointer>, names: set<string>)
    ensures Others(a + b, names) == Others(a, names) + Others(b, names)
    decreases |a|
  {
    if a == [] {
      assert a + b == b;
    } else {
      OthersAppend(a[1..], b, names);
      assert (a + b)[1..] == a[1..] + b;
    }
  }

  lemma OthersSkip(a: seq<FunctionPointer>, e: FunctionPointer, b: seq<FunctionPointer>, names: set<string>)
    requires e.name in names
    ensures Others(a + [e] + b, names) == Others(a, names) + Others(b, names)
  {
    OthersAppend(a + [e], b, names);
    OthersAppend(a, [e], names);
  }

  lemma OthersMoved(a: seq<FunctionPointer>, e: FunctionPointer, b: seq<FunctionPointer>, names: set<string>)
    requires e.name in names
    ensures Others([e] + (a + b), names) == Others(a + [e] + b, names) == Others(a + b + [e], names)
  {
    OthersSkip(a, e, b, names);
    OthersAppend(a, b, names);
    OthersAppend([e], a + b, names);
    OthersAppend(a + b, [e], names);
  }

  lemma BagMoved(a: seq<FunctionPointer>, e: FunctionPointer, b: seq<FunctionPointer>)
    ensures multiset([e] + (a + b)) == multiset(a + [e] + b) == multiset(a + b + [e])
  {
  }

  lemma MoveKeeps(es: seq<FunctionPointer>, m: Move, names: set<string>)
    requires ApplyMove(es, m).Ok? && m.name in names
    ensures var r := ApplyMove(es, m).value;
      |r| == |es| && multiset(r) == multiset(es) && Others(r, names) == Others(es, names)
  {
    var i := Position(es, m.name);
    var a, e, b := es[..i], es[i], es[i + 1..];
    assert es == a + [e] + b;
    BagMoved(a, e, b);
    OthersMoved(a, e, b, names);
  }

  /** Any run of moves permutes the vector and keeps everything it does not name in order. */
  lemma {:induction false} MovesKeep(es: seq<FunctionPointer>, moves: seq<Move>, names: set<string>)
    requires ApplyMoves(es, moves).Ok? && forall k :: 0 <= k < |moves| ==> moves[k].name in names
    ensures var r := ApplyMoves(es, moves).value;
      |r| == |es| && multiset(r) == multiset(es) && Others(r, names) == Others(es, names)
    decreases |moves|
  {
    if moves != [] {
      MoveKeeps(es, moves[0], names);
      MovesKeep(ApplyMove(es, moves[0]).value, moves[1..], names);
    }
  }

  class Vector {
    var elements: seq<FunctionPointer>

    constructor (elements: seq<FunctionPointer>)
      ensures this.elements == elements
    {
      this.elements := elements;
    }

    method IndexOf(name: string) returns (r: Result<nat>)
      ensures r.Err? <==> forall k :: 0 <= k < |elements| ==> elements[k].name != name
      ensures r.Ok? ==> r.value == Position(elements, name) < |elements|
    {
      var i := 0;
      while i < |elements|
        invariant i <= |elements|
        invariant forall k :: 0 <= k < i ==> elements[k].name != name
      {
        if elements[i].name == name {
          return Ok(i);
        }
        i := i + 1;
      }
      r := Err;
    }

    method MoveFirst(name: string) returns (ok: bool)
      modifies this
      ensures ok <==> ApplyMove(old(elements), First(name)).Ok?
      ensures elements == if ok then ApplyMove(old(elements), First(name)).value else old(elements)
    {
      var i := IndexOf(name);
      if i.Err? {
        return false;
      }
      var e := elements[i.value];
      elements := elements[..i.value] + elements[i.value + 1..];
      elements := [e] + elements;
      ok := true;
    }

    method MoveLast(name: string) returns (ok: bool)
      modifies this
      ensures ok <==> ApplyMove(old(elements), Last(name)).Ok?
      ensures elements == if ok then ApplyMove(old(elements), Last(name)).value else old(elements)
    {
      var i := IndexOf(name);
      if i.Err? {
        return false;
      }
      var e := elements[i.value];
      elements := elements[..i.value] + elements[i.value + 1..];
      elements := elements + [e];
      ok := true;
    }
  }

  // ----- Where the pointers are -----

  datatype Section = Section(at: nat, va: nat, size: nat)

  /** `rela` is the `.rela.dyn` section, if there is one. */
  datatype Layout = Layout(wide: bool, big: bool, rela: Option<Section>)

  function Word(l: Layout): nat {
    if l.wide then 8 else 4
  }

  /** The size of `k` words. */
  function Words(l: Layout, k: nat): nat {
    if l.wide then 8 * k else 4 * k
  }

  /** How many words, or triples of words, there are in `bytes`. */
  function Groups(l: Layout, triple: bool, bytes: nat): (k: nat)
    ensures Words(l, if triple then 3 * k else k) <= bytes < Words(l, if triple then 3 * k + 3 else k + 1)
  {
    match (l.wide, triple)
    case (true, true) => bytes / 24
    case (true, false) => bytes / 8
    case (false, true) => bytes / 12
    case (false, false) => bytes / 4
  }

  function Reversed(s: seq<byte>): (r: seq<byte>)
    ensures |r| == |s|
  {
    if s == [] then [] else Reversed(s[1..]) + [s[0]]
  }

  lemma {:induction false} ReversedSnoc(s: seq<byte>, b: byte)
    ensures Reversed(s + [b]) == [b] + Reversed(s)
    decreases |s|
  {
    if s != [] {
      ReversedSnoc(s[1..], b);
      assert (s + [b])[1..] == s[1..] + [b];
    }
  }

  lemma {:induction false} ReversedTwice(s: seq<byte>)
    ensures Reversed(Reversed(s)) == s
  {
    if s != [] {
      ReversedTwice(s[1..]);
      ReversedSnoc(Reversed(s[1..]), s[0]);
    }
  }

  function Get(image: seq<byte>, l: Layout, at: nat): nat
    requires Inside(image, at, Word(l))
  {
    var s := Region(image, at, Word(l));
    Value(if l.big then Reversed(s) else s)
  }

  function Put(l: Layout, v: nat): (s: seq<byte>)
    ensures |s| == Word(l)
  {
    var s := Encode(v, Word(l));
    if l.big then Reversed(s) else s
  }

  lemma GetPut(image: seq<byte>, l: Layout, at: nat, v: nat)
    requires Inside(image, at, Word(l)) && v < Limit(Word(l)) && Region(image, at, Word(l)) == Put(l, v)
    ensures Get(image, l, at) == v
  {
    ValueEncode(v, Word(l));
    ReversedTwice(Encode(v, Word(l)));
  }

  lemma GetIsBounded(image: seq<byte>, l: Layout, at: nat)
    requires Inside(image, at, Word(l))
    ensures Get(image, l, at) < Limit(Word(l))
  {
    var s := Region(image, at, Word(l));
    EncodeValue(if l.big then Reversed(s) else s);
  }

  // ----- Reading -----

  function Slots(image: seq<byte>, l: Layout, s: Section): nat {
    Groups(l, false, Available(image, s.at, s.size))
  }

  function Address(l: Layout, s: Section, i: nat): nat {
    s.va + Words(l, i)
  }

  function SlotAt(l: Layout, s: Section, i: nat): nat {
    s.at + Words(l, i)
  }

  /** The size of the relocation table. */
  function Table(image: seq<byte>, l: Layout): nat
    requires l.rela.Some?
  {
    Available(image, l.rela.value.at, l.rela.value.size)
  }

  function Relocs(image: seq<byte>, l: Layout): nat {
    if l.rela.None? then 0 else Groups(l, true, Table(image, l))
  }

  function AddendAt(l: Layout, k: nat): nat {
    if l.rela.None? then 0 else l.rela.value.at + Words(l, 3 * k + 2)
  }

  /** The addresses that the relocations fill, in table order. */
  function Targets(image: seq<byte>, l: Layout): (r: seq<nat>)
    ensures |r| == Relocs(image, l)
  {
    seq(Relocs(image, l), k requires 0 <= k < Relocs(image, l) => Get(image, l, l.rela.value.at + Words(l, 3 * k)))
  }

  /** The first index of `x` from `from` on, or the length. */
  function FindFrom(xs: seq<nat>, x: nat, from: nat): (k: nat)
    requires from <= |xs|
    ensures from <= k <= |xs| && (k < |xs| ==> xs[k] == x)
    ensures forall j :: from <= j < k ==> xs[j] != x
    decreases |xs| - from
  {
    if from == |xs| || xs[from] == x then from else FindFrom(xs, x, from + 1)
  }

  function Find(xs: seq<nat>, x: nat): (k: nat)
    ensures k <= |xs| && (k < |xs| ==> xs[k] == x)
    ensures forall j :: 0 <= j < k ==> xs[j] != x
  {
    FindFrom(xs, x, 0)
  }

  predicate Whole(image: seq<byte>, l: Layout, s: Section) {
    && Available(image, s.at, s.size) == Words(l, Slots(image, l, s))
    && (l.rela.Some? ==> Table(image, l) == Words(l, 3 * Relocs(image, l)))
  }

  /** Every slot has a relocation, when there are any. */
  predicate Resolved(l: Layout, s: Section, n: nat, targets: seq<nat>) {
    l.rela.Some? ==> forall i :: 0 <= i < n ==> Find(targets, Address(l, s, i)) < |targets|
  }

  function Pointer(image: seq<byte>, l: Layout, s: Section, i: nat): nat
    requires i < Slots(image, l, s) && Resolved(l, s, Slots(image, l, s), Targets(image, l))
  {
    if l.rela.None? then Get(image, l, SlotAt(l, s, i))
    else Get(image, l, AddendAt(l, Find(Targets(image, l), Address(l, s, i))))
  }

  predicate Readable(image: seq<byte>, l: Layout, s: Section) {
    Whole(image, l, s) && Resolved(l, s, Slots(image, l, s), Targets(image, l))
  }

  function Pointers(image: seq<byte>, l: Layout, s: Section): (r: seq<nat>)
    requires Readable(image, l, s)
    ensures |r| == Slots(image, l, s)
  {
    seq(Slots(image, l, s), i requires 0 <= i < Slots(image, l, s) => Pointer(image, l, s, i))
  }

  // ----- What a written vector looks like -----

  /** The section and the relocation table lie in the file. */
  predicate Fits(l: Layout, s: Section, n: nat, m: nat, size: nat) {
    && (n > 0 ==> s.at + Words(l, n) <= size)
    && (l.rela.None? ==> m == 0)
    && (m > 0 ==> l.rela.value.at + Words(l, 3 * m) <= size)
  }

  /** They lie apart: no byte of an ELF file is in two sections. */
  predicate Clear(l: Layout, s: Section, n: nat, m: nat) {
    m > 0 && l.rela.Some? ==> Apart(s.at, Words(l, n), l.rela.value.at, Words(l, 3 * m))
  }

  lemma AlwaysFits(image: seq<byte>, l: Layout, s: Section)
    ensures Fits(l, s, Slots(image, l, s), Relocs(image, l), |image|)
  {
  }

  ghost predicate InSlots(l: Layout, s: Section, n: nat, j: nat) {
    s.at <= j < s.at + Words(l, n)
  }

  /** Byte `j` belongs to the addend of the first relocation, among the first `k`, of some slot. */
  ghost predicate InAddends(l: Layout, s: Section, n: nat, targets: seq<nat>, k: nat, j: nat) {
    exists i :: 0 <= i < n && Find(targets, Address(l, s, i)) < k
      && AddendAt(l, Find(targets, Address(l, s, i))) <= j < AddendAt(l, Find(targets, Address(l, s, i))) + Word(l)
  }

  ghost predicate SlotsHold(l: Layout, s: Section, vs: seq<nat>, n: nat, out: seq<byte>)
    requires n <= |vs| && (n > 0 ==> s.at + Words(l, n) <= |out|)
  {
    forall i :: 0 <= i < n ==> Region(out, SlotAt(l, s, i), Word(l)) == Put(l, vs[i])
  }

  ghost predicate AddendsHold(l: Layout, s: Section, targets: seq<nat>, vs: seq<nat>, k: nat, out: seq<byte>)
    requires k <= |targets| && Fits(l, s, |vs|, |targets|, |out|)
  {
    forall i :: 0 <= i < |vs| && Find(targets, Address(l, s, i)) < k ==>
      Region(out, AddendAt(l, Find(targets, Address(l, s, i))), Word(l)) == Put(l, vs[i])
  }

  ghost predicate RestSame(l: Layout, s: Section, n: nat, targets: seq<nat>, k: nat, before: seq<byte>,
                           out: seq<byte>) {
    && |out| == |before|
    && forall j :: 0 <= j < |out| && !InSlots(l, s, n, j) && !InAddends(l, s, n, targets, k, j) ==> out[j] == before[j]
  }

  /** The slots hold the pointers, so do their addends among the first `k` relocations, and nothing else changed. */
  ghost predicate Written(l: Layout, s: Section, targets: seq<nat>, vs: seq<nat>, k: nat, before: seq<byte>,
                          out: seq<byte>) {
    && Fits(l, s, |vs|, |targets|, |out|) && k <= |targets|
    && SlotsHold(l, s, vs, |vs|, out)
    && AddendsHold(l, s, targets, vs, k, out)
    && RestSame(l, s, |vs|, targets, k, before, out)
  }

  // ----- Writing -----

  ghost predicate SlotsWritten(l: Layout, s: Section, vs: seq<nat>, n: nat, before: seq<byte>, out: seq<byte>) {
    && n <= |vs| && |out| == |before| && (|vs| > 0 ==> s.at + Words(l, |vs|) <= |out|)
    && SlotsHold(l, s, vs, n, out)
    && forall j :: 0 <= j < |out| && !InSlots(l, s, n, j) ==> out[j] == before[j]
  }

  /** Slot `i` after slot `n` was written. */
  lemma SlotAfter(l: Layout, s: Section, v: nat, i: nat, n: nat, cur: seq<byte>)
    requires i <= n && Inside(cur, SlotAt(l, s, n), Word(l))
    ensures
      var now := Region(Patch(cur, SlotAt(l, s, n), Put(l, v)), SlotAt(l, s, i), Word(l));
      if i == n then now == Put(l, v) else now == Region(cur, SlotAt(l, s, i), Word(l))
  {
    PatchedRegion(cur, SlotAt(l, s, n), Put(l, v), SlotAt(l, s, i), Word(l));
  }

  lemma SlotStep(l: Layout, s: Section, vs: seq<nat>, n: nat, before: seq<byte>, cur: seq<byte>)
    requires SlotsWritten(l, s, vs, n, before, cur) && n < |vs|
    ensures SlotsWritten(l, s, vs, n + 1, before, Patch(cur, SlotAt(l, s, n), Put(l, vs[n])))
  {
    var out := Patch(cur, SlotAt(l, s, n), Put(l, vs[n]));
    assert SlotsHold(l, s, vs, n + 1, out) by {
      forall i | 0 <= i < n + 1
        ensures Region(out, SlotAt(l, s, i), Word(l)) == Put(l, vs[i])
      {
        SlotAfter(l, s, vs[n], i, n, cur);
      }
    }
    forall j | 0 <= j < |out| && !InSlots(l, s, n + 1, j)
      ensures out[j] == before[j]
    {
      PatchedByte(cur, SlotAt(l, s, n), Put(l, vs[n]), j);
    }
  }

  method WriteSlots(dest: array<byte>, l: Layout, s: Section, vs: seq<nat>)
    requires |vs| > 0 ==> s.at + Words(l, |vs|) <= dest.Length
    modifies dest
    ensures SlotsWritten(l, s, vs, |vs|, old(dest[..]), dest[..])
  {
    ghost var before := dest[..];
    for i := 0 to |vs|
      invariant SlotsWritten(l, s, vs, i, before, dest[..])
    {
      SlotStep(l, s, vs, i, before, dest[..]);
      Overwrite(dest, SlotAt(l, s, i), Put(l, vs[i]));
    }
  }

  lemma NoAddendsYet(l: Layout, s: Section, targets: seq<nat>, vs: seq<nat>, before: seq<byte>, out: seq<byte>)
    requires SlotsWritten(l, s, vs, |vs|, before, out) && Fits(l, s, |vs|, |targets|, |out|)
    ensures Written(l, s, targets, vs, 0, before, out)
  {
  }

  lemma AddressesDiffer(l: Layout, s: Section, i: nat, j: nat)
    requires Address(l, s, i) == Address(l, s, j)
    ensures i == j
  {
  }

  /** Relocation `k` is the first one of slot `i`. */
  lemma AddendStep(l: Layout, s: Section, targets: seq<nat>, vs: seq<nat>, k: nat, i: nat, before: seq<byte>,
                   cur: seq<byte>)
    requires Written(l, s, targets, vs, k, before, cur) && k < |targets| && i < |vs|
    requires Find(targets, Address(l, s, i)) == k && Clear(l, s, |vs|, |targets|)
    ensures Inside(cur, AddendAt(l, k), Word(l))
    ensures Written(l, s, targets, vs, k + 1, before, Patch(cur, AddendAt(l, k), Put(l, vs[i])))
  {
    var out := Patch(cur, AddendAt(l, k), Put(l, vs[i]));
    forall j | 0 <= j < |vs|
      ensures Region(out, SlotAt(l, s, j), Word(l)) == Put(l, vs[j])
    {
      PatchedRegion(cur, AddendAt(l, k), Put(l, vs[i]), SlotAt(l, s, j), Word(l));
    }
    forall j | 0 <= j < |vs| && Find(targets, Address(l, s, j)) < k + 1
      ensures Region(out, AddendAt(l, Find(targets, Address(l, s, j))), Word(l)) == Put(l, vs[j])
    {
      PatchedRegion(cur, AddendAt(l, k), Put(l, vs[i]), AddendAt(l, Find(targets, Address(l, s, j))), Word(l));
      if Find(targets, Address(l, s, j)) == k {
        AddressesDiffer(l, s, i, j);
      }
    }
    AddendRest(l, s, targets, vs, k, i, before, cur);
  }

  lemma AddendRest(l: Layout, s: Section, targets: seq<nat>, vs: seq<nat>, k: nat, i: nat, before: seq<byte>,
                   cur: seq<byte>)
    requires Fits(l, s, |vs|, |targets|, |cur|) && RestSame(l, s, |vs|, targets, k, before, cur)
    requires k < |targets| && i < |vs| && Find(targets, Address(l, s, i)) == k
    ensures RestSame(l, s, |vs|, targets, k + 1, before, Patch(cur, AddendAt(l, k), Put(l, vs[i])))
  {
    var out := Patch(cur, AddendAt(l, k), Put(l, vs[i]));
    forall j | 0 <= j < |out| && !InSlots(l, s, |vs|, j) && !InAddends(l, s, |vs|, targets, k + 1, j)
      ensures out[j] == before[j]
    {
      PatchedByte(cur, AddendAt(l, k), Put(l, vs[i]), j);
      assert !(AddendAt(l, k) <= j < AddendAt(l, k) + Word(l));
      assert !InAddends(l, s, |vs|, targets, k, j);
    }
  }

  /** Relocation `k` is not the first one of any slot. */
  lemma AddendSkip(l: Layout, s: Section, targets: seq<nat>, vs: seq<nat>, k: nat, before: seq<byte>, cur: seq<byte>)
    requires Written(l, s, targets, vs, k, before, cur) && k < |targets|
    requires forall i :: 0 <= i < |vs| ==> Find(targets, Address(l, s, i)) != k
    ensures Written(l, s, targets, vs, k + 1, before, cur)
  {
    forall j | 0 <= j < |cur| && !InAddends(l, s, |vs|, targets, k + 1, j)
      ensures !InAddends(l, s, |vs|, targets, k, j)
    {
    }
  }

  /** The addresses still to be met from relocation `k` on, with their slots. */
  ghost predicate Waiting(l: Layout, s: Section, n: nat, targets: seq<nat>, k: nat, pending: map<nat, nat>) {
    && (forall a :: a in pending ==> pending[a] < n && Address(l, s, pending[a]) == a && k <= Find(targets, a))
    && forall i :: 0 <= i < n && k <= Find(targets, Address(l, s, i)) ==> Address(l, s, i) in pending
  }

  method MakePending(l: Layout, s: Section, n: nat) returns (pending: map<nat, nat>)
    ensures forall targets :: Waiting(l, s, n, targets, 0, pending)
  {
    pending := map[];
    for i := 0 to n
      invariant forall a :: a in pending ==> pending[a] < i && Address(l, s, pending[a]) == a
      invariant forall j :: 0 <= j < i ==> Address(l, s, j) in pending
    {
      pending := pending[Address(l, s, i) := i];
    }
  }

  lemma WaitingStep(l: Layout, s: Section, n: nat, targets: seq<nat>, k: nat, pending: map<nat, nat>)
    requires Waiting(l, s, n, targets, k, pending) && k < |targets|
    ensures Waiting(l, s, n, targets, k + 1, pending - {targets[k]})
    ensures if targets[k] in pending then Find(targets, Address(l, s, pending[targets[k]])) == k
            else forall i :: 0 <= i < n ==> Find(targets, Address(l, s, i)) != k
  {
  }

  lemma WaitingEnd(l: Layout, s: Section, n: nat, targets: seq<nat>, pending: map<nat, nat>)
    requires Waiting(l, s, n, targets, |targets|, pending) && l.rela.Some?
    ensures pending == map[] <==> Resolved(l, s, n, targets)
  {
    if pending != map[] {
      var a :| a in pending;
      assert Address(l, s, pending[a]) == a;
    }
  }

  /** The table at an offset of `k` relocations: the next one, the end, or one that is cut off. */
  lemma TableAt(image: seq<byte>, l: Layout, k: nat)
    requires l.rela.Some? && Words(l, 3 * k) <= Table(image, l)
    ensures Words(l, 3 * k) + Words(l, 3) <= Table(image, l) ==>
      && k < Relocs(image, l) && Inside(image, l.rela.value.at + Words(l, 3 * k), Words(l, 3))
      && Targets(image, l)[k] == Get(image, l, l.rela.value.at + Words(l, 3 * k))
      && AddendAt(l, k) == l.rela.value.at + Words(l, 3 * k) + Words(l, 2)
      && Words(l, 3 * k) + Words(l, 3) == Words(l, 3 * (k + 1))
    ensures Words(l, 3 * k) == Table(image, l) ==> k == Relocs(image, l)
    ensures Table(image, l) < Words(l, 3 * k) + Words(l, 3) ==> k == Relocs(image, l)
  {
  }

  /** The state of the writing loop in front of relocation `k`. */
  ghost predicate Underway(l: Layout, s: Section, targets: seq<nat>, vs: seq<nat>, k: nat, pending: map<nat, nat>,
                           before: seq<byte>, cur: seq<byte>) {
    && Waiting(l, s, |vs|, targets, k, pending)
    && Fits(l, s, |vs|, |targets|, |cur|) && |cur| == |before| && k <= |targets|
    && (Clear(l, s, |vs|, |targets|) ==> Written(l, s, targets, vs, k, before, cur))
  }

  lemma UnderwayStep(l: Layout, s: Section, targets: seq<nat>, vs: seq<nat>, k: nat, pending: map<nat, nat>,
                     before: seq<byte>, cur: seq<byte>)
    requires Underway(l, s, targets, vs, k, pending, before, cur) && k < |targets|
    ensures targets[k] !in pending ==> Underway(l, s, targets, vs, k + 1, pending - {targets[k]}, before, cur)
    ensures targets[k] in pending ==> pending[targets[k]] < |vs| && Inside(cur, AddendAt(l, k), Word(l))
    ensures targets[k] in pending ==>
      var now := Patch(cur, AddendAt(l, k), Put(l, vs[pending[targets[k]]]));
      Underway(l, s, targets, vs, k + 1, pending - {targets[k]}, before, now)
  {
    WaitingStep(l, s, |vs|, targets, k, pending);
    if Clear(l, s, |vs|, |targets|) {
      if targets[k] in pending {
        AddendStep(l, s, targets, vs, k, pending[targets[k]], before, cur);
      } else {
        AddendSkip(l, s, targets, vs, k, before, cur);
      }
    }
  }

  /** Writes the addend at `at` if its relocation is the first one for a slot. */
  method WriteAddend(dest: array<byte>, l: Layout, s: Section, vs: seq<nat>, target: nat, at: nat,
                     pending: map<nat, nat>,
                     ghost targets: seq<nat>, ghost k: nat, ghost before: seq<byte>) returns (rest: map<nat, nat>)
    requires Underway(l, s, targets, vs, k, pending, before, dest[..])
    requires k < |targets| && target == targets[k] && at == AddendAt(l, k)
    modifies dest
    ensures Underway(l, s, targets, vs, k + 1, rest, before, dest[..])
  {
    UnderwayStep(l, s, targets, vs, k, pending, before, dest[..]);
    if target in pending {
      Overwrite(dest, at, Put(l, vs[pending[target]]));
    }
    rest := pending - {target};
  }

  method WriteAddends(image: seq<byte>, dest: array<byte>, l: Layout, s: Section, vs: seq<nat>, ghost before: seq<byte>)
    returns (ok: bool)
    requires l.rela.Some? && dest.Length == |image| && |vs| == Slots(image, l, s)
    requires Written(l, s, Targets(image, l), vs, 0, before, dest[..])
    modifies dest
    ensures ok <==> Table(image, l) == Words(l, 3 * Relocs(image, l)) && Resolved(l, s, |vs|, Targets(image, l))
    ensures ok && Clear(l, s, |vs|, Relocs(image, l)) ==>
      Written(l, s, Targets(image, l), vs, |Targets(image, l)|, before, dest[..])
  {
    ghost var targets := Targets(image, l);
    var pending: map<nat, nat> := MakePending(l, s, |vs|);
    var rela := l.rela.value;
    var size := Table(image, l);
    var offset := 0;
    ghost var k := 0;
    while offset != size
      invariant offset == Words(l, 3 * k) <= size && k <= |targets|
      invariant Underway(l, s, targets, vs, k, pending, before, dest[..])
      decreases size - offset
    {
      TableAt(image, l, k);
      if offset + Words(l, 3) > size {
        return false;
      }
      var target := Get(image, l, rela.at + offset);
      pending := WriteAddend(dest, l, s, vs, target, rela.at + offset + Words(l, 2), pending, targets, k, before);
      offset, k := offset + Words(l, 3), k + 1;
    }
    TableAt(image, l, k);
    WaitingEnd(l, s, |vs|, targets, pending);
    ok := pending == map[];
  }

  method WriteVector(image: seq<byte>, dest: array<byte>, l: Layout, s: Section, vs: seq<nat>) returns (ok: bool)
    requires dest.Length == |image| && |vs| == Slots(image, l, s)
    modifies dest
    ensures ok <==>
      && (l.rela.Some? ==> Table(image, l) == Words(l, 3 * Relocs(image, l)))
      && Resolved(l, s, |vs|, Targets(image, l))
    ensures ok && Clear(l, s, |vs|, Relocs(image, l)) ==>
      Written(l, s, Targets(image, l), vs, |Targets(image, l)|, old(dest[..]), dest[..])
  {
    ghost var before := dest[..];
    AlwaysFits(image, l, s);
    WriteSlots(dest, l, s, vs);
    NoAddendsYet(l, s, Targets(image, l), vs, before, dest[..]);
    ok := true;
    if l.rela.Some? {
      ok := WriteAddends(image, dest, l, s, vs, before);
    }
  }

  method ReadSection(image: seq<byte>, l: Layout, s: Section) returns (r: Result<seq<nat>>)
    ensures r.Ok? <==> Readable(image, l, s)
    ensures r.Ok? ==> r.value == Pointers(image, l, s)
  {
    if Available(image, s.at, s.size) != Words(l, Slots(image, l, s)) {
      return Err;
    }
    var n := Slots(image, l, s);
    var values: seq<nat> := [];
    for i := 0 to n
      invariant |values| == i && forall j :: 0 <= j < i ==> values[j] == Get(image, l, SlotAt(l, s, j))
    {
      values := values + [Get(image, l, SlotAt(l, s, i))];
    }
    if l.rela.None? {
      return Ok(values);
    }
    r := ReadAddends(image, l, s, values);
  }

  /** The state of the reading loop in front of relocation `k`. */
  ghost predicate Filling(image: seq<byte>, l: Layout, s: Section, targets: seq<nat>, k: nat, pending: map<nat, nat>,
                          values: seq<nat>)
  {
    && Waiting(l, s, |values|, targets, k, pending) && k <= |targets| == Relocs(image, l)
    && forall i :: 0 <= i < |values| && Find(targets, Address(l, s, i)) < k ==>
      values[i] == Get(image, l, AddendAt(l, Find(targets, Address(l, s, i))))
  }

  lemma FillingEnd(image: seq<byte>, l: Layout, s: Section, pending: map<nat, nat>, values: seq<nat>)
    requires l.rela.Some? && Filling(image, l, s, Targets(image, l), Relocs(image, l), pending, values)
    requires |values| == Slots(image, l, s) && Whole(image, l, s)
    ensures pending == map[] <==> Readable(image, l, s)
    ensures pending == map[] ==> values == Pointers(image, l, s)
  {
    WaitingEnd(l, s, |values|, Targets(image, l), pending);
  }

  /** Takes the addend at `at` if its relocation is the first one for a slot. */
  method ReadAddend(image: seq<byte>, l: Layout, s: Section, target: nat, at: nat, pending: map<nat, nat>,
                    values: seq<nat>,
                    ghost targets: seq<nat>, ghost k: nat) returns (rest: map<nat, nat>, filled: seq<nat>)
    requires Filling(image, l, s, targets, k, pending, values)
    requires k < |targets| && target == targets[k] && at == AddendAt(l, k) && Inside(image, at, Word(l))
    ensures |filled| == |values| && Filling(image, l, s, targets, k + 1, rest, filled)
  {
    WaitingStep(l, s, |values|, targets, k, pending);
    filled := values;
    if target in pending {
      filled := values[pending[target] := Get(image, l, at)];
    }
    rest := pending - {target};
    forall i | 0 <= i < |values| && Find(targets, Address(l, s, i)) < k + 1
      ensures filled[i] == Get(image, l, AddendAt(l, Find(targets, Address(l, s, i))))
    {
      if target in pending && Find(targets, Address(l, s, i)) == k {
        AddressesDiffer(l, s, i, pending[target]);
      }
    }
  }

  method ReadAddends(image: seq<byte>, l: Layout, s: Section, slots: seq<nat>) returns (r: Result<seq<nat>>)
    requires l.rela.Some? && |slots| == Slots(image, l, s) && Available(image, s.at, s.size) == Words(l, |slots|)
    ensures r.Ok? <==> Readable(image, l, s)
    ensures r.Ok? ==> r.value == Pointers(image, l, s)
  {
    ghost var targets := Targets(image, l);
    var values: seq<nat> := slots;
    var pending: map<nat, nat> := MakePending(l, s, |slots|);
    assert Waiting(l, s, |slots|, targets, 0, pending);
    var rela := l.rela.value;
    var size := Table(image, l);
    var offset := 0;
    ghost var k := 0;
    while offset != size
      invariant offset == Words(l, 3 * k) <= size
      invariant |values| == |slots| && Filling(image, l, s, targets, k, pending, values)
      decreases size - offset
    {
      TableAt(image, l, k);
      if offset + Words(l, 3) > size {
        return Err;
      }
      var target := Get(image, l, rela.at + offset);
      pending, values := ReadAddend(image, l, s, target, rela.at + offset + Words(l, 2), pending, values, targets, k);
      offset, k := offset + Words(l, 3), k + 1;
    }
    TableAt(image, l, k);
    FillingEnd(image, l, s, pending, values);
    if pending != map[] {
      return Err;
    }
    r := Ok(values);
  }

  // ----- Reading what was written -----

  ghost predicate Bounded(l: Layout, vs: seq<nat>) {
    forall i :: 0 <= i < |vs| ==> vs[i] < Limit(Word(l))
  }

  lemma PointersAreBounded(image: seq<byte>, l: Layout, s: Section)
    requires Readable(image, l, s)
    ensures Bounded(l, Pointers(image, l, s))
  {
    forall i | 0 <= i < Slots(image, l, s)
      ensures Pointer(image, l, s, i) < Limit(Word(l))
    {
      if l.rela.None? {
        GetIsBounded(image, l, SlotAt(l, s, i));
      } else {
        GetIsBounded(image, l, AddendAt(l, Find(Targets(image, l), Address(l, s, i))));
      }
    }
  }

  /** A word that is neither a slot nor a written addend is as before. */
  lemma WordKept(l: Layout, s: Section, targets: seq<nat>, vs: seq<nat>, before: seq<byte>, out: seq<byte>, at: nat)
    requires Written(l, s, targets, vs, |targets|, before, out) && Inside(out, at, Word(l))
    requires Apart(s.at, Words(l, |vs|), at, Word(l))
    requires forall i :: 0 <= i < |vs| && Find(targets, Address(l, s, i)) < |targets| ==>
      Apart(AddendAt(l, Find(targets, Address(l, s, i))), Word(l), at, Word(l))
    ensures Get(out, l, at) == Get(before, l, at)
  {
    forall j | at <= j < at + Word(l)
      ensures out[j] == before[j]
    {
      assert !InSlots(l, s, |vs|, j);
      assert !InAddends(l, s, |vs|, targets, |targets|, j);
    }
    SameRegion(out, before, at, Word(l));
  }

  lemma {:induction false} TargetKept(l: Layout, s: Section, targets: seq<nat>, vs: seq<nat>, before: seq<byte>,
                                      out: seq<byte>, k: nat)
    requires Written(l, s, targets, vs, |targets|, before, out) && k < |targets| && Clear(l, s, |vs|, |targets|)
    ensures Inside(out, l.rela.value.at + Words(l, 3 * k), Word(l))
    ensures Get(out, l, l.rela.value.at + Words(l, 3 * k)) == Get(before, l, l.rela.value.at + Words(l, 3 * k))
  {
    var at := l.rela.value.at + Words(l, 3 * k);
    forall i | 0 <= i < |vs| && Find(targets, Address(l, s, i)) < |targets|
      ensures Apart(AddendAt(l, Find(targets, Address(l, s, i))), Word(l), at, Word(l))
    {
      AddendsApart(l, k, Find(targets, Address(l, s, i)));
    }
    WordKept(l, s, targets, vs, before, out, at);
  }

  /** An addend is not the address that a relocation fills. */
  lemma AddendsApart(l: Layout, k: nat, m: nat)
    requires l.rela.Some?
    ensures Apart(AddendAt(l, m), Word(l), l.rela.value.at + Words(l, 3 * k), Word(l))
  {
  }

  lemma {:induction false} TargetsKept(l: Layout, s: Section, vs: seq<nat>, before: seq<byte>, out: seq<byte>)
    requires Written(l, s, Targets(before, l), vs, Relocs(before, l), before, out)
    requires Clear(l, s, |vs|, Relocs(before, l))
    ensures Targets(out, l) == Targets(before, l)
  {
    var targets, now := Targets(before, l), Targets(out, l);
    forall k | 0 <= k < |targets|
      ensures now[k] == targets[k]
    {
      TargetKept(l, s, targets, vs, before, out, k);
    }
    assert now == targets;
  }

  lemma PointerWritten(l: Layout, s: Section, vs: seq<nat>, before: seq<byte>, out: seq<byte>, i: nat)
    requires Written(l, s, Targets(out, l), vs, Relocs(out, l), before, out)
    requires Readable(out, l, s) && |vs| == Slots(out, l, s) && Bounded(l, vs) && i < |vs|
    ensures Pointer(out, l, s, i) == vs[i]
  {
    var at := if l.rela.None? then SlotAt(l, s, i) else AddendAt(l, Find(Targets(out, l), Address(l, s, i)));
    GetPut(out, l, at, vs[i]);
  }

  /** A written vector reads back as itself. */
  lemma ReadBack(l: Layout, s: Section, vs: seq<nat>, before: seq<byte>, out: seq<byte>)
    requires Written(l, s, Targets(before, l), vs, Relocs(before, l), before, out)
    requires Readable(before, l, s) && |vs| == Slots(before, l, s) && Bounded(l, vs)
    requires Clear(l, s, |vs|, Relocs(before, l))
    ensures Readable(out, l, s) && Pointers(out, l, s) == vs
  {
    TargetsKept(l, s, vs, before, out);
    forall i | 0 <= i < |vs|
      ensures Pointer(out, l, s, i) == vs[i]
    {
      PointerWritten(l, s, vs, before, out, i);
    }
  }

  predicate SectionsApart(image: seq<byte>, l: Layout, s: Section, t: Section) {
    var n, m := Words(l, Slots(image, l, s)), Words(l, Slots(image, l, t));
    Apart(s.at, n, t.at, m) && Apart(s.va, n, t.va, m)
  }

  /** The addend of an address that is not in the section. */
  lemma AddendKept(l: Layout, s: Section, targets: seq<nat>, vs: seq<nat>, before: seq<byte>, out: seq<byte>, a: nat)
    requires Written(l, s, targets, vs, |targets|, before, out) && l.rela.Some? && Find(targets, a) < |targets|
    requires Clear(l, s, |vs|, |targets|)
    requires Apart(s.va, Words(l, |vs|), a, Word(l))
    ensures Inside(out, AddendAt(l, Find(targets, a)), Word(l))
    ensures Get(out, l, AddendAt(l, Find(targets, a))) == Get(before, l, AddendAt(l, Find(targets, a)))
  {
    WordKept(l, s, targets, vs, before, out, AddendAt(l, Find(targets, a)));
  }

  /** Writing one vector leaves the other as it was. */
  lemma OtherKept(l: Layout, s: Section, t: Section, vs: seq<nat>, before: seq<byte>, out: seq<byte>)
    requires Written(l, s, Targets(before, l), vs, Relocs(before, l), before, out) && |vs| == Slots(before, l, s)
    requires Readable(before, l, t) && SectionsApart(before, l, s, t) && Clear(l, s, |vs|, Relocs(before, l))
    ensures Readable(out, l, t) && Pointers(out, l, t) == Pointers(before, l, t)
  {
    var targets := Targets(before, l);
    TargetsKept(l, s, vs, before, out);
    forall i | 0 <= i < Slots(before, l, t)
      ensures Pointer(out, l, t, i) == Pointer(before, l, t, i)
    {
      if l.rela.None? {
        WordKept(l, s, targets, vs, before, out, SlotAt(l, t, i));
      } else {
        AddendKept(l, s, targets, vs, before, out, Address(l, t, i));
      }
    }
  }
}
