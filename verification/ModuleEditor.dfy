/** A whole run of the module editor: read both vectors, apply the requested moves, save. */
module ModuleEditor {
  import opened Prelude
  import opened Binary
  import opened FunctionPointers

  /** An ELF module, with its `.init_array` and `.fini_array` sections if it has them. */
  datatype Module =
    Module(image: seq<byte>, layout: Layout, constructors: Option<Section>, destructors: Option<Section>)

  datatype Request = Request(destructor: bool, move: Move)

  predicate InPlace(m: Module, s: Option<Section>) {
    s.Some? ==> Clear(m.layout, s.value, Slots(m.image, m.layout, s.value), Relocs(m.image, m.layout))
  }

  /** The sections do not overlap, in the file or in memory, as the System V ABI asks of every ELF file. */
  predicate WellFormed(m: Module) {
    && InPlace(m, m.constructors) && InPlace(m, m.destructors)
    && (m.constructors.Some? && m.destructors.Some? ==>
      SectionsApart(m.image, m.layout, m.constructors.value, m.destructors.value))
  }

  predicate Opens(m: Module, s: Option<Section>) {
    s.Some? ==> Readable(m.image, m.layout, s.value)
  }

  function Values(m: Module, s: Option<Section>): seq<nat>
    requires Opens(m, s)
  {
    if s.None? then [] else Pointers(m.image, m.layout, s.value)
  }

  /** The pointers with the names that the symbol table gives their targets. */
  function Named(vs: seq<nat>, name: nat -> string): (es: seq<FunctionPointer>)
    ensures |es| == |vs|
  {
    seq(|vs|, i requires 0 <= i < |vs| => FunctionPointer(vs[i], name(vs[i])))
  }

  function Raw(es: seq<FunctionPointer>): (vs: seq<nat>)
    ensures |vs| == |es|
  {
    seq(|es|, i requires 0 <= i < |es| => es[i].value)
  }

  function Elements(m: Module, s: Option<Section>, name: nat -> string): seq<FunctionPointer>
    requires Opens(m, s)
  {
    Named(Values(m, s), name)
  }

  /** The moves meant for one of the two vectors. */
  function Chosen(requests: seq<Request>, destructor: bool): seq<Move> {
    if requests == [] then []
    else (if requests[0].destructor == destructor then [requests[0].move] else []) + Chosen(requests[1..], destructor)
  }

  // ----- Saving -----

  /** Byte `j` is part of the vector: a slot, or the addend that fills one. */
  ghost predicate Owned(m: Module, s: Option<Section>, j: nat) {
    s.Some? &&
    var n := Slots(m.image, m.layout, s.value);
    || InSlots(m.layout, s.value, n, j)
    || InAddends(m.layout, s.value, n, Targets(m.image, m.layout), Relocs(m.image, m.layout), j)
  }

  /** Values that can take the place of a vector. */
  ghost predicate Fitting(m: Module, s: Option<Section>, vs: seq<nat>) {
    if s.None? then vs == [] else Opens(m, s) && |vs| == Slots(m.image, m.layout, s.value) && Bounded(m.layout, vs)
  }

  /** `n` is `m` after one vector was written. */
  ghost predicate WroteOne(m: Module, n: Module, s: Option<Section>, vs: seq<nat>) {
    && n == m.(image := n.image) && |n.image| == |m.image|
    && (s.None? ==> n == m)
    && (s.Some? ==>
      Written(m.layout, s.value, Targets(m.image, m.layout), vs, Relocs(m.image, m.layout), m.image, n.image))
  }

  /** `n` is `m` with the pointers of one vector replaced. */
  ghost predicate Replaced(m: Module, n: Module, s: Option<Section>, vs: seq<nat>) {
    && n == m.(image := n.image) && |n.image| == |m.image|
    && Targets(n.image, n.layout) == Targets(m.image, m.layout)
    && Opens(n, s) && Values(n, s) == vs
    && forall j :: 0 <= j < |m.image| && !Owned(m, s, j) ==> n.image[j] == m.image[j]
  }

  lemma WrittenReplaces(m: Module, n: Module, s: Option<Section>, vs: seq<nat>)
    requires Fitting(m, s, vs) && InPlace(m, s) && WroteOne(m, n, s, vs)
    ensures Replaced(m, n, s, vs)
  {
    if s.Some? {
      TargetsKept(m.layout, s.value, vs, m.image, n.image);
      ReadBack(m.layout, s.value, vs, m.image, n.image);
    }
  }

  /** After one vector is written the other one is still there. */
  lemma {:induction false} OneKeepsOther(m: Module, n: Module, s: Option<Section>, t: Option<Section>, vs: seq<nat>)
    requires Fitting(m, s, vs) && InPlace(m, s) && WroteOne(m, n, s, vs) && Opens(m, t)
    requires s.Some? && t.Some? ==> SectionsApart(m.image, m.layout, s.value, t.value)
    ensures Opens(n, t) && Values(n, t) == Values(m, t)
  {
    if s.Some? && t.Some? {
      OtherKept(m.layout, s.value, t.value, vs, m.image, n.image);
    }
  }

  /** Both vectors read back as given, and no other byte has changed. */
  ghost predicate BothStand(m: Module, cs: seq<nat>, ds: seq<nat>, out: seq<byte>) {
    var n := m.(image := out);
    && |out| == |m.image|
    && Opens(n, n.constructors) && Values(n, n.constructors) == cs
    && Opens(n, n.destructors) && Values(n, n.destructors) == ds
    && forall j :: 0 <= j < |out| && !Owned(m, m.constructors, j) && !Owned(m, m.destructors, j) ==>
      out[j] == m.image[j]
  }

  /** One vector after the other. */
  lemma BothSaved(m: Module, mid: Module, n: Module, cs: seq<nat>, ds: seq<nat>)
    requires WellFormed(m) && Fitting(m, m.constructors, cs) && Fitting(m, m.destructors, ds)
    requires WroteOne(m, mid, m.constructors, cs)
    requires Targets(mid.image, m.layout) == Targets(m.image, m.layout) ==> WroteOne(mid, n, m.destructors, ds)
    ensures n == m.(image := n.image) && BothStand(m, cs, ds, n.image)
  {
    WrittenReplaces(m, mid, m.constructors, cs);
    OneKeepsOther(m, mid, m.constructors, m.destructors, cs);
    WrittenReplaces(mid, n, m.destructors, ds);
    OneKeepsOther(mid, n, m.destructors, m.constructors, ds);
  }

  /** Writes one vector over a copy that may already differ from the module in the other one. */
  method WriteOne(m: Module, dest: array<byte>, s: Option<Section>, vs: seq<nat>)
    requires dest.Length == |m.image| && Fitting(m, s, vs)
    modifies dest
    ensures InPlace(m, s) && Targets(old(dest[..]), m.layout) == Targets(m.image, m.layout) ==>
      WroteOne(m.(image := old(dest[..])), m.(image := dest[..]), s, vs)
  {
    if s.Some? {
      var ok := WriteVector(m.image, dest, m.layout, s.value, vs);
      assert ok;
    }
  }

  method Save(m: Module, cs: seq<nat>, ds: seq<nat>) returns (out: seq<byte>)
    requires Fitting(m, m.constructors, cs) && Fitting(m, m.destructors, ds)
    ensures |out| == |m.image|
    ensures WellFormed(m) ==> BothStand(m, cs, ds, out)
  {
    var dest := new byte[|m.image|](i requires 0 <= i < |m.image| => m.image[i]);
    assert dest[..] == m.image;
    WriteOne(m, dest, m.constructors, cs);
    ghost var mid := m.(image := dest[..]);
    WriteOne(m, dest, m.destructors, ds);
    out := dest[..];
    if WellFormed(m) {
      BothSaved(m, mid, m.(image := out), cs, ds);
    }
  }

  // ----- A run -----

  predicate Succeeds(m: Module, name: nat -> string, requests: seq<Request>) {
    && Opens(m, m.constructors) && Opens(m, m.destructors)
    && ApplyMoves(Elements(m, m.constructors, name), Chosen(requests, false)).Ok?
    && ApplyMoves(Elements(m, m.destructors, name), Chosen(requests, true)).Ok?
  }

  method ReadVector(m: Module, s: Option<Section>, name: nat -> string) returns (r: Result<seq<FunctionPointer>>)
    ensures r.Ok? <==> Opens(m, s)
    ensures r.Ok? ==> r.value == Elements(m, s, name)
  {
    if s.None? {
      return Ok([]);
    }
    var vs := ReadSection(m.image, m.layout, s.value);
    if vs.Err? {
      return Err;
    }
    r := Ok(Named(vs.value, name));
  }

  /** Moves on one vector lead where all of them together lead. */
  ghost predicate Heading(v: seq<FunctionPointer>, start: seq<FunctionPointer>, requests: seq<Request>, i: nat,
                          destructor: bool)
    requires i <= |requests|
  {
    ApplyMoves(v, Chosen(requests[i..], destructor)) == ApplyMoves(start, Chosen(requests, destructor))
  }

  lemma HeadingStep(v: seq<FunctionPointer>, start: seq<FunctionPointer>, requests: seq<Request>, i: nat,
                    destructor: bool)
    requires i < |requests| && Heading(v, start, requests, i, destructor)
    ensures requests[i].destructor != destructor ==> Heading(v, start, requests, i + 1, destructor)
    ensures requests[i].destructor == destructor ==>
      if ApplyMove(v, requests[i].move).Ok?
      then Heading(ApplyMove(v, requests[i].move).value, start, requests, i + 1, destructor)
      else ApplyMoves(start, Chosen(requests, destructor)).Err?
  {
    var rest := requests[i + 1..];
    assert requests[i..][1..] == rest && requests[i..][0] == requests[i];
    if requests[i].destructor == destructor {
      var moves := Chosen(requests[i..], destructor);
      assert moves[0] == requests[i].move && moves[1..] == Chosen(rest, destructor);
    } else {
      assert Chosen(requests[i..], destructor) == Chosen(rest, destructor);
    }
  }

  method MoveOne(v: Vector, m: Move) returns (ok: bool)
    modifies v
    ensures ok <==> ApplyMove(old(v.elements), m).Ok?
    ensures v.elements == if ok then ApplyMove(old(v.elements), m).value else old(v.elements)
  {
    match m {
      case First(name) => ok := v.MoveFirst(name);
      case Last(name) => ok := v.MoveLast(name);
    }
  }

  method ApplyRequests(cs: Vector, ds: Vector, requests: seq<Request>) returns (ok: bool)
    requires cs != ds
    modifies cs, ds
    ensures ok <==>
      && ApplyMoves(old(cs.elements), Chosen(requests, false)).Ok?
      && ApplyMoves(old(ds.elements), Chosen(requests, true)).Ok?
    ensures ok ==> ApplyMoves(old(cs.elements), Chosen(requests, false)) == Ok(cs.elements)
    ensures ok ==> ApplyMoves(old(ds.elements), Chosen(requests, true)) == Ok(ds.elements)
  {
    assert requests[0..] == requests;
    for i := 0 to |requests|
      invariant Heading(cs.elements, old(cs.elements), requests, i, false)
      invariant Heading(ds.elements, old(ds.elements), requests, i, true)
    {
      HeadingStep(cs.elements, old(cs.elements), requests, i, false);
      HeadingStep(ds.elements, old(ds.elements), requests, i, true);
      var moved := MoveOne(if requests[i].destructor then ds else cs, requests[i].move);
      if !moved {
        return false;
      }
    }
    ok := true;
  }

  /** A moved element is one that was read. */
  lemma MovedMember(es: seq<FunctionPointer>, r: seq<FunctionPointer>, i: nat) returns (k: nat)
    requires multiset(r) == multiset(es) && i < |r|
    ensures k < |es| && es[k] == r[i]
  {
    assert r[i] in multiset(es);
    k :| 0 <= k < |es| && es[k] == r[i];
  }

  lemma MovedNamed(vs: seq<nat>, name: nat -> string, r: seq<FunctionPointer>)
    requires multiset(r) == multiset(Named(vs, name))
    ensures forall i :: 0 <= i < |r| ==> r[i].value in vs && r[i].name == name(r[i].value)
  {
    forall i | 0 <= i < |r|
      ensures r[i].value in vs && r[i].name == name(r[i].value)
    {
      var k := MovedMember(Named(vs, name), r, i);
    }
  }

  /** Moved pointers are pointers that were read, so they fit and keep their names. */
  lemma {:induction false} MovedFit(m: Module, s: Option<Section>, name: nat -> string, moves: seq<Move>)
    requires Opens(m, s) && ApplyMoves(Elements(m, s, name), moves).Ok?
    ensures var r := ApplyMoves(Elements(m, s, name), moves).value;
      Fitting(m, s, Raw(r)) && Named(Raw(r), name) == r
  {
    var vs := Values(m, s);
    var r := ApplyMoves(Named(vs, name), moves).value;
    assert |r| == |vs| && multiset(r) == multiset(Named(vs, name)) by {
      MovesKeep(Named(vs, name), moves, set k | 0 <= k < |moves| :: moves[k].name);
    }
    MovedNamed(vs, name, r);
    if s.Some? {
      PointersAreBounded(m.image, m.layout, s.value);
    }
  }

  /**
    The module as a run leaves it: reading it again finds the moved vectors, and no byte outside them
    and the addends that fill them has changed.
   */
  ghost predicate Edited(m: Module, name: nat -> string, requests: seq<Request>, out: seq<byte>)
    requires Succeeds(m, name, requests)
  {
    var n := m.(image := out);
    && |out| == |m.image|
    && Opens(n, n.constructors) && Opens(n, n.destructors)
    && ApplyMoves(Elements(m, m.constructors, name), Chosen(requests, false)) == Ok(Elements(n, n.constructors, name))
    && ApplyMoves(Elements(m, m.destructors, name), Chosen(requests, true)) == Ok(Elements(n, n.destructors, name))
    && forall j :: 0 <= j < |out| && !Owned(m, m.constructors, j) && !Owned(m, m.destructors, j) ==>
      out[j] == m.image[j]
  }

  /** What a run leaves: without requests both vectors are shown, otherwise a module is saved. */
  datatype Outcome =
    | Shown(constructors: seq<FunctionPointer>, destructors: seq<FunctionPointer>)
    | Saved(image: seq<byte>)

  method Edit(m: Module, name: nat -> string, requests: seq<Request>) returns (r: Result<Outcome>)
    ensures r.Ok? <==> Succeeds(m, name, requests)
    ensures r.Ok? && requests == [] ==>
      r.value == Shown(Elements(m, m.constructors, name), Elements(m, m.destructors, name))
    ensures r.Ok? && requests != [] ==> r.value.Saved? && |r.value.image| == |m.image|
    ensures r.Ok? && requests != [] && WellFormed(m) ==> Edited(m, name, requests, r.value.image)
  {
    var constructors := ReadVector(m, m.constructors, name);
    if constructors.Err? {
      return Err;
    }
    var destructors := ReadVector(m, m.destructors, name);
    if destructors.Err? {
      return Err;
    }
    if |requests| == 0 {
      return Ok(Shown(constructors.value, destructors.value));
    }
    var out := MoveAndSave(m, name, requests, constructors.value, destructors.value);
    r := if out.Err? then Err else Ok(Saved(out.value));
  }

  method MoveAndSave(m: Module, name: nat -> string, requests: seq<Request>,
                     constructors: seq<FunctionPointer>, destructors: seq<FunctionPointer>)
    returns (r: Result<seq<byte>>)
    requires Opens(m, m.constructors) && constructors == Elements(m, m.constructors, name)
    requires Opens(m, m.destructors) && destructors == Elements(m, m.destructors, name)
    ensures r.Ok? <==> Succeeds(m, name, requests)
    ensures r.Ok? ==> |r.value| == |m.image|
    ensures r.Ok? && WellFormed(m) ==> Edited(m, name, requests, r.value)
  {
    var cs := new Vector(constructors);
    var ds := new Vector(destructors);
    var ok := ApplyRequests(cs, ds, requests);
    if !ok {
      return Err;
    }
    MovedFit(m, m.constructors, name, Chosen(requests, false));
    MovedFit(m, m.destructors, name, Chosen(requests, true));
    var out := Save(m, Raw(cs.elements), Raw(ds.elements));
    r := Ok(out);
  }

  /** Both vectors are permuted, and what no request names keeps its order, from file to file. */
  lemma EditPermutes(m: Module, name: nat -> string, requests: seq<Request>, out: seq<byte>, destructor: bool,
                     names: set<string>)
    requires Succeeds(m, name, requests) && Edited(m, name, requests, out)
    requires forall k :: 0 <= k < |Chosen(requests, destructor)| ==> Chosen(requests, destructor)[k].name in names
    ensures var n := m.(image := out);
      var s := if destructor then m.destructors else m.constructors;
      && multiset(Elements(n, s, name)) == multiset(Elements(m, s, name))
      && Others(Elements(n, s, name), names) == Others(Elements(m, s, name), names)
  {
    var s := if destructor then m.destructors else m.constructors;
    MovesKeep(Elements(m, s, name), Chosen(requests, destructor), names);
  }
}
