/**
  The sorting of a COFF object's `.pdata` section: twelve-byte entries, three relocations each, ordered
  by the value of the symbol that the first relocation names.
 */
module Pdata {
  import opened Prelude
  import opened Binary

  datatype Reloc = Reloc(va: nat, sym: nat, kind: nat)

  /** An entry with its relocations and sorting key; `origin` is its index in the section that was read. */
  datatype Entry = Entry(bytes: seq<byte>, relocs: seq<Reloc>, key: nat, origin: nat)

  // ----- Stable sorting by key -----

  ghost predicate Sorted(es: seq<Entry>) {
    forall i, j :: 0 <= i < j < |es| ==> es[i].key <= es[j].key
  }

  function WithKey(es: seq<Entry>, k: nat): seq<Entry> {
    if es == [] then [] else (if es[0].key == k then [es[0]] else []) + WithKey(es[1..], k)
  }

  function Insert(e: Entry, es: seq<Entry>): seq<Entry> {
    if es == [] || e.key <= es[0].key then [e] + es else [es[0]] + Insert(e, es[1..])
  }

  function Sort(es: seq<Entry>): seq<Entry> {
    if es == [] then [] else Insert(es[0], Sort(es[1..]))
  }

  ghost predicate AtLeast(es: seq<Entry>, k: nat) {
    forall i :: 0 <= i < |es| ==> k <= es[i].key
  }

  lemma {:induction false} InsertAtLeast(e: Entry, es: seq<Entry>, k: nat)
    requires AtLeast(es, k) && k <= e.key
    ensures AtLeast(Insert(e, es), k)
    decreases |es|
  {
    if es != [] && e.key > es[0].key {
      InsertAtLeast(e, es[1..], k);
    }
  }

  lemma {:induction false} InsertSorts(e: Entry, es: seq<Entry>)
    requires Sorted(es)
    ensures Sorted(Insert(e, es))
    decreases |es|
  {
    if es != [] && e.key > es[0].key {
      InsertSorts(e, es[1..]);
      InsertAtLeast(e, es[1..], es[0].key);
    }
  }

  lemma {:induction false} InsertAdds(e: Entry, es: seq<Entry>)
    ensures multiset(Insert(e, es)) == multiset{e} + multiset(es)
    decreases |es|
  {
    if es != [] && e.key > es[0].key {
      InsertAdds(e, es[1..]);
      assert es == [es[0]] + es[1..];
    }
  }

  lemma {:induction false} InsertKeepsOrder(e: Entry, es: seq<Entry>, k: nat)
    requires Sorted(es)
    ensures WithKey(Insert(e, es), k) == (if e.key == k then [e] else []) + WithKey(es, k)
    decreases |es|
  {
    var r := Insert(e, es);
    if es == [] || e.key <= es[0].key {
      assert r[1..] == es;
    } else {
      var rest := es[1..];
      assert r[1..] == Insert(e, rest);
      InsertKeepsOrder(e, rest, k);
      if e.key == k {
        assert WithKey(es, k) == WithKey(rest, k);
      } else {
        assert [] + WithKey(es, k) == WithKey(es, k) && [] + WithKey(rest, k) == WithKey(rest, k);
      }
    }
  }

  /** The result is ordered, holds the same entries, and keeps the order of entries with equal keys. */
  lemma {:induction false} SortIsStable(es: seq<Entry>, k: nat)
    ensures Sorted(Sort(es)) && multiset(Sort(es)) == multiset(es)
    ensures WithKey(Sort(es), k) == WithKey(es, k)
    decreases |es|
  {
    if es != [] {
      SortIsStable(es[1..], k);
      InsertSorts(es[0], Sort(es[1..]));
      InsertAdds(es[0], Sort(es[1..]));
      InsertKeepsOrder(es[0], Sort(es[1..]), k);
      assert es == [es[0]] + es[1..];
    }
  }

  lemma {:induction false} SortedSortsToItself(es: seq<Entry>)
    requires Sorted(es)
    ensures Sort(es) == es
    decreases |es|
  {
    if es != [] {
      SortedSortsToItself(es[1..]);
      assert es == [es[0]] + es[1..];
    }
  }

  lemma {:induction false} FirstWithKey(es: seq<Entry>, k: nat)
    ensures WithKey(es, k) != [] ==> exists i :: 0 <= i < |es| && es[i].key == k
    ensures forall i :: 0 <= i < |es| && es[i].key == k ==> WithKey(es, k) != []
    decreases |es|
  {
    if es != [] {
      FirstWithKey(es[1..], k);
      if WithKey(es[1..], k) != [] {
        var i :| 0 <= i < |es[1..]| && es[1..][i].key == k;
        assert es[i + 1].key == k;
      }
      assert forall i :: 0 < i < |es| ==> es[i] == es[1..][i - 1];
    }
  }

  /** There is only one such result, so any stable sort computes this one. */
  lemma {:induction false} StableSortIsUnique(a: seq<Entry>, b: seq<Entry>)
    requires Sorted(a) && Sorted(b) && forall k: nat :: WithKey(a, k) == WithKey(b, k)
    ensures a == b
    decreases |a|
  {
    if a == [] || b == [] {
      if a != [] {
        FirstWithKey(a, a[0].key);
      }
      if b != [] {
        FirstWithKey(b, b[0].key);
      }
    } else {
      SameFirstKey(a, b);
      SameFirstKey(b, a);
      var k0 := a[0].key;
      assert WithKey(a, k0)[0] == a[0] && WithKey(b, k0)[0] == b[0];
      forall k: nat
        ensures WithKey(a[1..], k) == WithKey(b[1..], k)
      {
        assert WithKey(a[1..], k) == if k == k0 then WithKey(a, k)[1..] else WithKey(a, k);
        assert WithKey(b[1..], k) == if k == k0 then WithKey(b, k)[1..] else WithKey(b, k);
      }
      StableSortIsUnique(a[1..], b[1..]);
      assert a == [a[0]] + a[1..] && b == [b[0]] + b[1..];
    }
  }

  lemma SameFirstKey(a: seq<Entry>, b: seq<Entry>)
    requires a != [] && b != [] && Sorted(b) && WithKey(a, a[0].key) == WithKey(b, a[0].key)
    ensures b[0].key <= a[0].key
  {
    FirstWithKey(a, a[0].key);
    FirstWithKey(b, a[0].key);
    var i :| 0 <= i < |b| && b[i].key == a[0].key;
    assert i > 0 ==> b[0].key <= b[i].key;
  }

  // ----- Reading the object -----

  /** Where the section, its relocations and the symbol table lie in the file. */
  datatype Layout = Layout(raw: nat, rawSize: nat, relocs: nat, relocCount: nat, symbols: nat, symbolCount: nat)

  const ENTRY: nat := 12
  const RELOC: nat := 10
  const SYMBOL: nat := 18

  /** The bytes of the section that the file has. */
  function Present(image: seq<byte>, l: Layout): nat {
    Available(image, l.raw, l.rawSize)
  }

  function Count(image: seq<byte>, l: Layout): nat {
    Present(image, l) / ENTRY
  }

  /** Nothing that is read is cut off, and every entry has at least its first relocation. */
  predicate Readable(image: seq<byte>, l: Layout) {
    && (l.symbolCount == 0 || l.symbols + SYMBOL * l.symbolCount <= |image|)
    && Present(image, l) % ENTRY == 0
    && (l.relocCount == 0 || l.relocs + RELOC * l.relocCount <= |image|)
    && (Count(image, l) == 0 || 3 * (Count(image, l) - 1) < l.relocCount)
  }

  function Number(image: seq<byte>, at: nat, width: nat): nat
    requires Inside(image, at, width)
  {
    Value(Region(image, at, width))
  }

  function ReadReloc(image: seq<byte>, at: nat): Reloc
    requires Inside(image, at, RELOC)
  {
    Reloc(Number(image, at, 4), Number(image, at + 4, 4), Number(image, at + 8, 2))
  }

  function ReadRelocs(image: seq<byte>, l: Layout): (r: seq<Reloc>)
    requires l.relocCount == 0 || l.relocs + RELOC * l.relocCount <= |image|
    ensures |r| == l.relocCount
  {
    seq(l.relocCount, k requires 0 <= k < l.relocCount => ReadReloc(image, l.relocs + RELOC * k))
  }

  /** The value of the symbol; an index outside the table counts as 0. */
  function Key(image: seq<byte>, l: Layout, sym: nat): nat
    requires l.symbolCount == 0 || l.symbols + SYMBOL * l.symbolCount <= |image|
  {
    if sym < l.symbolCount then Number(image, l.symbols + SYMBOL * sym + 8, 4) else 0
  }

  /** Up to three relocations for entry `i`. */
  function Share(relocs: seq<Reloc>, i: nat): seq<Reloc>
    requires 3 * i <= |relocs|
  {
    relocs[3 * i..if 3 * i + 3 <= |relocs| then 3 * i + 3 else |relocs|]
  }

  function ReadEntry(image: seq<byte>, l: Layout, i: nat): Entry
    requires Readable(image, l) && i < Count(image, l)
  {
    var relocs := Share(ReadRelocs(image, l), i);
    Entry(Region(image, l.raw + ENTRY * i, ENTRY), relocs, Key(image, l, relocs[0].sym), i)
  }

  function ReadEntries(image: seq<byte>, l: Layout): (r: seq<Entry>)
    requires Readable(image, l)
    ensures |r| == Count(image, l)
  {
    seq(Count(image, l), i requires 0 <= i < Count(image, l) => ReadEntry(image, l, i))
  }

  // ----- Writing it back -----

  function Pack(r: Reloc, i: nat): (s: seq<byte>)
    ensures |s| == RELOC
  {
    Encode(ENTRY * i + r.va % ENTRY, 4) + Encode(r.sym, 4) + Encode(r.kind, 2)
  }

  function PackAll(relocs: seq<Reloc>, i: nat): (rows: seq<seq<byte>>)
    ensures |rows| == |relocs| && Rows(rows, RELOC)
  {
    seq(|relocs|, j requires 0 <= j < |relocs| => Pack(relocs[j], i))
  }

  /** The relocation rows of the entries from index `i` on. */
  function RelocRows(es: seq<Entry>, i: nat): (rows: seq<seq<byte>>)
    ensures Rows(rows, RELOC)
  {
    if es == [] then [] else PackAll(es[0].relocs, i) + RelocRows(es[1..], i + 1)
  }

  function EntryRows(es: seq<Entry>): seq<seq<byte>> {
    seq(|es|, i requires 0 <= i < |es| => es[i].bytes)
  }

  function Total(es: seq<Entry>): nat {
    if es == [] then 0 else |es[0].relocs| + Total(es[1..])
  }

  lemma {:induction false} InsertTotal(e: Entry, es: seq<Entry>)
    ensures Total(Insert(e, es)) == |e.relocs| + Total(es)
    decreases |es|
  {
    var r := Insert(e, es);
    if es == [] || e.key <= es[0].key {
      assert r[1..] == es;
    } else {
      assert r[1..] == Insert(e, es[1..]);
      InsertTotal(e, es[1..]);
    }
  }

  lemma {:induction false} SortTotal(es: seq<Entry>)
    ensures Total(Sort(es)) == Total(es) && |Sort(es)| == |es|
    decreases |es|
  {
    if es != [] {
      SortTotal(es[1..]);
      InsertTotal(es[0], Sort(es[1..]));
      InsertAdds(es[0], Sort(es[1..]));
      assert |multiset(Sort(es))| == |Sort(es)|;
    }
  }

  lemma {:induction false} RelocRowsLength(es: seq<Entry>, i: nat)
    ensures |RelocRows(es, i)| == Total(es)
    decreases |es|
  {
    if es != [] {
      RelocRowsLength(es[1..], i + 1);
    }
  }

  /** The shares of the entries from `i` on add up to no more than there is. */
  lemma {:induction false} TotalFits(image: seq<byte>, l: Layout, i: nat)
    requires Readable(image, l) && i <= Count(image, l)
    ensures Total(ReadEntries(image, l)[i..]) <= if 3 * i <= l.relocCount then l.relocCount - 3 * i else 0
    decreases Count(image, l) - i
  {
    var es := ReadEntries(image, l);
    if i < |es| {
      TotalFits(image, l, i + 1);
      assert es[i..][1..] == es[i + 1..] && es[i..][0] == es[i];
    }
  }

  ghost predicate TwelveBytes(es: seq<Entry>) {
    forall i :: 0 <= i < |es| ==> |es[i].bytes| == ENTRY
  }

  lemma SortMembers(es: seq<Entry>, i: nat)
    requires i < |Sort(es)|
    ensures Sort(es)[i] in es
  {
    SortIsStable(es, 0);
    assert Sort(es)[i] in multiset(Sort(es));
  }

  lemma SortedRows(image: seq<byte>, l: Layout)
    requires Readable(image, l)
    ensures TwelveBytes(Sort(ReadEntries(image, l)))
  {
    var es := ReadEntries(image, l);
    forall i | 0 <= i < |Sort(es)|
      ensures |Sort(es)[i].bytes| == ENTRY
    {
      SortMembers(es, i);
    }
  }

  lemma TableLengths(es: seq<Entry>)
    requires TwelveBytes(es)
    ensures |Concat(EntryRows(es))| == ENTRY * |es|
    ensures |Concat(RelocRows(es, 0))| == RELOC * Total(es)
  {
    RowsLength(EntryRows(es), ENTRY);
    RelocRowsLength(es, 0);
    RowsLength(RelocRows(es, 0), RELOC);
  }

  /** The sorted tables have the sizes of the regions they replace. */
  lemma TablesFit(image: seq<byte>, l: Layout)
    requires Readable(image, l)
    ensures var sorted := Sort(ReadEntries(image, l));
      && |sorted| == Count(image, l) && TwelveBytes(sorted)
      && |Concat(EntryRows(sorted))| == Present(image, l)
      && |Concat(RelocRows(sorted, 0))| == RELOC * Total(sorted) && Total(sorted) <= l.relocCount
  {
    var es := ReadEntries(image, l);
    SortTotal(es);
    assert es[0..] == es;
    TotalFits(image, l, 0);
    SortedRows(image, l);
    TableLengths(Sort(es));
  }

  /** The object after a run that got as far as writing. */
  function Rewrite(image: seq<byte>, l: Layout): (r: seq<byte>)
    requires Readable(image, l)
    ensures |r| == |image|
  {
    TablesFit(image, l);
    var sorted := Sort(ReadEntries(image, l));
    if |sorted| == 0 then image
    else Patch(Patch(image, l.raw, Concat(EntryRows(sorted))), l.relocs, Concat(RelocRows(sorted, 0)))
  }

  // ----- The rewritten object -----

  /** The three regions are apart, and offsets fit their field. */
  ghost predicate Separate(image: seq<byte>, l: Layout) {
    var n := Count(image, l);
    && Readable(image, l) && l.rawSize < Limit(4)
    && Apart(l.raw, ENTRY * n, l.relocs, RELOC * l.relocCount)
    && Apart(l.symbols, SYMBOL * l.symbolCount, l.raw, ENTRY * n)
    && Apart(l.symbols, SYMBOL * l.symbolCount, l.relocs, RELOC * l.relocCount)
  }

  /** Besides, no relocation is missing. */
  ghost predicate Proper(image: seq<byte>, l: Layout) {
    Separate(image, l) && 3 * Count(image, l) <= l.relocCount
  }

  /** Everything outside the section and its relocations is as before. */
  lemma RewriteKeepsRest(image: seq<byte>, l: Layout, b: nat, m: nat)
    requires Readable(image, l) && Inside(image, b, m)
    requires Apart(l.raw, ENTRY * Count(image, l), b, m) && Apart(l.relocs, RELOC * l.relocCount, b, m)
    ensures Region(Rewrite(image, l), b, m) == Region(image, b, m)
  {
    TablesFit(image, l);
    var sorted := Sort(ReadEntries(image, l));
    if |sorted| > 0 {
      var entries, relocs := Concat(EntryRows(sorted)), Concat(RelocRows(sorted, 0));
      PatchedRegion(image, l.raw, entries, b, m);
      PatchedRegion(Patch(image, l.raw, entries), l.relocs, relocs, b, m);
    }
  }

  /** The section of the result is the sorted entries, and the relocation table is theirs. */
  lemma RewriteHolds(image: seq<byte>, l: Layout)
    requires Separate(image, l) && Count(image, l) > 0
    ensures var sorted := Sort(ReadEntries(image, l));
      && Region(Rewrite(image, l), l.raw, ENTRY * Count(image, l)) == Concat(EntryRows(sorted))
      && |Concat(RelocRows(sorted, 0))| <= RELOC * l.relocCount
      && Region(Rewrite(image, l), l.relocs, |Concat(RelocRows(sorted, 0))|) == Concat(RelocRows(sorted, 0))
  {
    TablesFit(image, l);
    var sorted := Sort(ReadEntries(image, l));
    TwoPatches(image, l.raw, Concat(EntryRows(sorted)), l.relocs, Concat(RelocRows(sorted, 0)));
  }

  // ----- Reading the result back -----

  function Unpack(row: seq<byte>): Reloc
    requires |row| == RELOC
  {
    Reloc(Value(row[..4]), Value(row[4..8]), Value(row[8..]))
  }

  lemma ReadRelocIsUnpack(image: seq<byte>, at: nat)
    requires Inside(image, at, RELOC)
    ensures ReadReloc(image, at) == Unpack(Region(image, at, RELOC))
  {
    var row := Region(image, at, RELOC);
    SubRegion(image, at, RELOC, 0, 4);
    SubRegion(image, at, RELOC, 4, 4);
    SubRegion(image, at, RELOC, 8, 2);
    assert row[0..4] == row[..4] && row[8..10] == row[8..];
  }

  /** A relocation moved to entry `i`: the same field of it, the same symbol and type. */
  function Moved(r: Reloc, i: nat): Reloc {
    Reloc(ENTRY * i + r.va % ENTRY, r.sym, r.kind)
  }

  ghost predicate Bounded(r: Reloc) {
    r.sym < Limit(4) && r.kind < Limit(2)
  }

  lemma UnpackPack(r: Reloc, i: nat)
    requires Bounded(r) && ENTRY * i + ENTRY <= Limit(4)
    ensures Unpack(Pack(r, i)) == Moved(r, i)
  {
    var row := Pack(r, i);
    assert row[..4] == Encode(ENTRY * i + r.va % ENTRY, 4);
    assert row[4..8] == Encode(r.sym, 4) && row[8..] == Encode(r.kind, 2);
    ValueEncode(ENTRY * i + r.va % ENTRY, 4);
    ValueEncode(r.sym, 4);
    ValueEncode(r.kind, 2);
  }

  /** What reading an entry guarantees. */
  ghost predicate Genuine(image: seq<byte>, l: Layout, e: Entry)
    requires Readable(image, l)
  {
    && |e.bytes| == ENTRY && 1 <= |e.relocs| <= 3
    && (forall j :: 0 <= j < |e.relocs| ==> Bounded(e.relocs[j]))
    && e.key == Key(image, l, e.relocs[0].sym)
  }

  lemma ReadIsBounded(image: seq<byte>, at: nat)
    requires Inside(image, at, RELOC)
    ensures Bounded(ReadReloc(image, at))
  {
    EncodeValue(Region(image, at + 4, 4));
    EncodeValue(Region(image, at + 8, 2));
  }

  /** How many relocations there are for entry `i`. */
  function ShareSize(l: Layout, i: nat): nat
    requires 3 * i <= l.relocCount
  {
    if 3 * i + 3 <= l.relocCount then 3 else l.relocCount - 3 * i
  }

  lemma ShareAt(image: seq<byte>, l: Layout, i: nat, j: nat)
    requires Readable(image, l) && i < Count(image, l) && j < ShareSize(l, i)
    ensures |ReadEntry(image, l, i).relocs| == ShareSize(l, i)
    ensures ReadEntry(image, l, i).relocs[j] == ReadReloc(image, l.relocs + RELOC * (3 * i + j))
    ensures Bounded(ReadEntry(image, l, i).relocs[j])
  {
    ReadIsBounded(image, l.relocs + RELOC * (3 * i + j));
  }

  lemma ReadIsGenuine(image: seq<byte>, l: Layout, i: nat)
    requires Readable(image, l) && i < Count(image, l)
    ensures Genuine(image, l, ReadEntry(image, l, i))
  {
    var relocs := ReadEntry(image, l, i).relocs;
    forall j | 0 <= j < |relocs|
      ensures Bounded(relocs[j])
    {
      ShareAt(image, l, i, j);
    }
  }

  ghost predicate ThreeEach(es: seq<Entry>) {
    forall i :: 0 <= i < |es| ==> |es[i].relocs| == 3
  }

  /** At most the last entry has fewer than three relocations. */
  ghost predicate Compact(es: seq<Entry>) {
    forall i :: 0 <= i < |es| - 1 ==> |es[i].relocs| == 3
  }

  /** Row `3i + j` of the table is the `j`th relocation of entry `i`. */
  lemma {:induction false} RelocRowAt(es: seq<Entry>, from: nat, i: nat, j: nat)
    requires Compact(es) && i < |es| && j < |es[i].relocs|
    ensures 3 * i + j < |RelocRows(es, from)| && RelocRows(es, from)[3 * i + j] == Pack(es[i].relocs[j], from + i)
    decreases i
  {
    if i > 0 {
      RelocRowAt(es[1..], from + 1, i - 1, j);
      assert RelocRows(es, from)[3 * i + j] == RelocRows(es[1..], from + 1)[3 * (i - 1) + j];
    }
  }

  function MovedAll(relocs: seq<Reloc>, i: nat): (r: seq<Reloc>)
    ensures |r| == |relocs| && forall j :: 0 <= j < |relocs| ==> r[j] == Moved(relocs[j], i)
  {
    seq(|relocs|, j requires 0 <= j < |relocs| => Moved(relocs[j], i))
  }

  function Renumber(e: Entry, i: nat): Entry {
    Entry(e.bytes, MovedAll(e.relocs, i), e.key, i)
  }

  ghost predicate AllGenuine(image: seq<byte>, l: Layout, es: seq<Entry>)
    requires Readable(image, l)
  {
    forall i :: 0 <= i < |es| ==> Genuine(image, l, es[i])
  }

  lemma SortedIsGenuine(image: seq<byte>, l: Layout)
    requires Readable(image, l)
    ensures |Sort(ReadEntries(image, l))| == Count(image, l)
    ensures AllGenuine(image, l, Sort(ReadEntries(image, l)))
  {
    var es := ReadEntries(image, l);
    SortTotal(es);
    forall i | 0 <= i < |es|
      ensures Genuine(image, l, Sort(es)[i])
    {
      SortMembers(es, i);
      var k :| 0 <= k < |es| && es[k] == Sort(es)[i];
      ReadIsGenuine(image, l, k);
    }
  }

  /** Row `k` of a table that stands at `at`. */
  lemma TableRow(image: seq<byte>, at: nat, rows: seq<seq<byte>>, width: nat, k: nat)
    requires Rows(rows, width) && k < |rows| && Inside(image, at, |Concat(rows)|)
    requires Region(image, at, |Concat(rows)|) == Concat(rows)
    ensures Inside(image, at + width * k, width) && Region(image, at + width * k, width) == rows[k]
  {
    RowAt(rows, width, k);
    SubRegion(image, at, |Concat(rows)|, width * k, width);
  }

  /** The table `rows` stands at `at`. */
  ghost predicate Stands(image: seq<byte>, at: nat, rows: seq<seq<byte>>) {
    Inside(image, at, |Concat(rows)|) && Region(image, at, |Concat(rows)|) == Concat(rows)
  }

  lemma TableHoldsRow(out: seq<byte>, at: nat, rows: seq<seq<byte>>, q: nat, r: Reloc, j: nat)
    requires Rows(rows, RELOC) && q < |rows| && rows[q] == Pack(r, j) && Stands(out, at, rows)
    requires Bounded(r) && ENTRY * j + ENTRY <= Limit(4)
    ensures Inside(out, at + RELOC * q, RELOC) && ReadReloc(out, at + RELOC * q) == Moved(r, j)
  {
    TableRow(out, at, rows, RELOC, q);
    ReadRelocIsUnpack(out, at + RELOC * q);
    UnpackPack(r, j);
  }

  /** Each entry has the relocations that reading by threes gives the entry at its place. */
  ghost predicate Apportioned(image: seq<byte>, l: Layout, es: seq<Entry>) {
    && Readable(image, l) && |es| == Count(image, l) > 0
    && Compact(es) && |es[|es| - 1].relocs| == ShareSize(l, |es| - 1)
  }

  /** `out` is the object with the entries `es` and their relocations in place. */
  ghost predicate Installed(image: seq<byte>, l: Layout, es: seq<Entry>, out: seq<byte>) {
    && Separate(image, l) && |out| == |image| && Apportioned(image, l, es)
    && AllGenuine(image, l, es) && TwelveBytes(es)
    && |Concat(EntryRows(es))| == Present(image, l)
    && |Concat(RelocRows(es, 0))| <= RELOC * l.relocCount
    && Region(out, l.raw, |Concat(EntryRows(es))|) == Concat(EntryRows(es))
    && Region(out, l.relocs, |Concat(RelocRows(es, 0))|) == Concat(RelocRows(es, 0))
    && (l.symbolCount > 0 ==>
      Region(out, l.symbols, SYMBOL * l.symbolCount) == Region(image, l.symbols, SYMBOL * l.symbolCount))
  }

  lemma RewriteInstalls(image: seq<byte>, l: Layout)
    requires Separate(image, l) && Apportioned(image, l, Sort(ReadEntries(image, l)))
    ensures Installed(image, l, Sort(ReadEntries(image, l)), Rewrite(image, l))
  {
    SortedIsGenuine(image, l);
    TablesFit(image, l);
    RewriteHolds(image, l);
    if l.symbolCount > 0 {
      RewriteKeepsRest(image, l, l.symbols, SYMBOL * l.symbolCount);
    }
  }

  lemma SameKey(image: seq<byte>, l: Layout, out: seq<byte>, sym: nat)
    requires Readable(image, l) && |out| == |image|
    requires l.symbolCount > 0 ==>
      Region(out, l.symbols, SYMBOL * l.symbolCount) == Region(image, l.symbols, SYMBOL * l.symbolCount)
    ensures Key(out, l, sym) == Key(image, l, sym)
  {
    if sym < l.symbolCount {
      SubRegion(image, l.symbols, SYMBOL * l.symbolCount, SYMBOL * sym + 8, 4);
      SubRegion(out, l.symbols, SYMBOL * l.symbolCount, SYMBOL * sym + 8, 4);
    }
  }

  lemma RereadReloc(image: seq<byte>, l: Layout, es: seq<Entry>, out: seq<byte>, i: nat, j: nat)
    requires Installed(image, l, es, out) && i < |es| && j < |es[i].relocs|
    ensures Inside(out, l.relocs + RELOC * (3 * i + j), RELOC)
    ensures ReadReloc(out, l.relocs + RELOC * (3 * i + j)) == Moved(es[i].relocs[j], i)
  {
    assert Genuine(image, l, es[i]);
    RelocRowAt(es, 0, i, j);
    TableHoldsRow(out, l.relocs, RelocRows(es, 0), 3 * i + j, es[i].relocs[j], i);
  }

  lemma RereadShare(image: seq<byte>, l: Layout, es: seq<Entry>, out: seq<byte>, i: nat)
    requires Installed(image, l, es, out) && i < |es|
    ensures Readable(out, l) && Count(out, l) == |es|
    ensures ReadEntry(out, l, i).relocs == Renumber(es[i], i).relocs
  {
    var r := ReadEntry(out, l, i).relocs;
    assert |es[i].relocs| == ShareSize(l, i);
    forall j | 0 <= j < |es[i].relocs|
      ensures |r| == |es[i].relocs| && r[j] == Moved(es[i].relocs[j], i)
    {
      RereadReloc(image, l, es, out, i, j);
      ShareAt(out, l, i, j);
    }
    assert Genuine(image, l, es[i]);
  }

  /**
    Reading the rewritten object gives the installed entries: the same bytes, each with its own
    relocations, moved to the entry's new place, and the same key.
   */
  lemma RereadEntry(image: seq<byte>, l: Layout, es: seq<Entry>, out: seq<byte>, i: nat)
    requires Installed(image, l, es, out) && i < |es|
    ensures Readable(out, l) && Count(out, l) == |es|
    ensures ReadEntry(out, l, i) == Renumber(es[i], i)
  {
    TableRow(out, l.raw, EntryRows(es), ENTRY, i);
    RereadShare(image, l, es, out, i);
    assert Genuine(image, l, es[i]);
    SameKey(image, l, out, es[i].relocs[0].sym);
  }

  /** The entries renumbered in order, the first one as number `from`. */
  function Renumbered(es: seq<Entry>, from: nat): (r: seq<Entry>)
    ensures |r| == |es|
  {
    if es == [] then [] else [Renumber(es[0], from)] + Renumbered(es[1..], from + 1)
  }

  lemma {:induction false} RenumberedAt(es: seq<Entry>, from: nat, i: nat)
    requires i < |es|
    ensures Renumbered(es, from)[i] == Renumber(es[i], from + i)
    decreases i
  {
    if i > 0 {
      RenumberedAt(es[1..], from + 1, i - 1);
    }
  }

  lemma RereadInstalled(image: seq<byte>, l: Layout, es: seq<Entry>, out: seq<byte>)
    requires Installed(image, l, es, out)
    ensures Readable(out, l) && ReadEntries(out, l) == Renumbered(es, 0)
  {
    RereadEntry(image, l, es, out, 0);
    forall i | 0 <= i < |es|
      ensures ReadEntries(out, l)[i] == Renumbered(es, 0)[i]
    {
      RereadEntry(image, l, es, out, i);
      RenumberedAt(es, 0, i);
    }
  }

  // ----- When the table is short -----

  // The relocation count is compared with three per entry, and a difference only draws a warning. With one
  // or two missing, the last entry has a short group; the table has no mark of where a group ends, so a
  // second run may take the groups differently.

  function Chunks<T>(s: seq<T>): seq<seq<T>> {
    if s == [] then [] else if |s| <= 3 then [s] else [s[..3]] + Chunks(s[3..])
  }

  ghost predicate Packed<T>(groups: seq<seq<T>>) {
    forall i :: 0 <= i < |groups| - 1 ==> |groups[i]| == 3
  }

  ghost predicate UpToThree<T>(groups: seq<seq<T>>) {
    forall i :: 0 <= i < |groups| ==> 1 <= |groups[i]| <= 3
  }

  /** Taking the table three rows at a time finds the groups again exactly when only the last is short. */
  lemma {:induction false} ChunksFindGroups<T>(groups: seq<seq<T>>)
    requires UpToThree(groups)
    ensures Chunks(Concat(groups)) == groups <==> Packed(groups)
    decreases |groups|
  {
    if |groups| > 1 {
      var g, rest := groups[0], groups[1..];
      var s := Concat(groups);
      ChunksFindGroups(rest);
      assert groups == [g] + rest && rest[0] == groups[1];
      assert |s| > |g|;
      if |g| == 3 {
        assert s[..3] == g && s[3..] == Concat(rest);
        assert Chunks(s)[1..] == Chunks(Concat(rest));
        assert Packed(rest) ==> Packed(groups) by {
          assert forall i :: 0 < i < |groups| ==> groups[i] == rest[i - 1];
        }
      } else {
        assert |Chunks(s)[0]| > |g|;
      }
    } else if |groups| == 1 {
      assert Concat(groups) == groups[0];
    }
  }

  /** The relocation rows entry by entry. */
  function GroupRows(es: seq<Entry>, i: nat): (r: seq<seq<seq<byte>>>)
    ensures |r| == |es| && forall k :: 0 <= k < |es| ==> |r[k]| == |es[k].relocs|
  {
    if es == [] then [] else [PackAll(es[0].relocs, i)] + GroupRows(es[1..], i + 1)
  }

  lemma {:induction false} RowsAreGroups(es: seq<Entry>, i: nat)
    ensures RelocRows(es, i) == Concat(GroupRows(es, i))
    decreases |es|
  {
    if es != [] {
      RowsAreGroups(es[1..], i + 1);
    }
  }

  ghost predicate NoneAbove(es: seq<Entry>, k: nat) {
    forall i :: 0 <= i < |es| ==> es[i].key <= k
  }

  lemma {:induction false} InsertBefore(e: Entry, es: seq<Entry>, z: Entry)
    requires e.key <= z.key
    ensures Insert(e, es + [z]) == Insert(e, es) + [z]
    decreases |es|
  {
    if es != [] {
      InsertBefore(e, es[1..], z);
      assert (es + [z])[1..] == es[1..] + [z];
    }
  }

  lemma {:induction false} GreatestStaysLast(es: seq<Entry>, z: Entry)
    requires NoneAbove(es, z.key)
    ensures Sort(es + [z]) == Sort(es) + [z]
    decreases |es|
  {
    if es == [] {
      assert es + [z] == [z];
    } else {
      GreatestStaysLast(es[1..], z);
      InsertBefore(es[0], Sort(es[1..]), z);
      assert (es + [z])[1..] == es[1..] + [z];
    }
  }

  /** The shape in which entries are read: three relocations each, but for the last one or two or three. */
  ghost predicate AsRead(es: seq<Entry>, z: Entry) {
    ThreeEach(es) && 1 <= |z.relocs| <= 3
  }

  lemma ThreeEachSorted(es: seq<Entry>)
    requires ThreeEach(es)
    ensures ThreeEach(Sort(es))
  {
    forall i | 0 <= i < |Sort(es)|
      ensures |Sort(es)[i].relocs| == 3
    {
      SortMembers(es, i);
    }
  }

  ghost predicate UpToThreeEach(es: seq<Entry>) {
    forall i :: 0 <= i < |es| ==> 1 <= |es[i].relocs| <= 3
  }

  lemma UpToThreeSorted(es: seq<Entry>)
    requires UpToThreeEach(es)
    ensures UpToThreeEach(Sort(es))
  {
    forall i | 0 <= i < |Sort(es)|
      ensures 1 <= |Sort(es)[i].relocs| <= 3
    {
      SortMembers(es, i);
    }
  }

  lemma SortKeepsMember(es: seq<Entry>, e: Entry) returns (k: nat)
    requires e in es
    ensures k < |Sort(es)| && Sort(es)[k] == e
  {
    SortIsStable(es, 0);
    assert e in multiset(Sort(es));
    k :| 0 <= k < |Sort(es)| && Sort(es)[k] == e;
  }

  lemma PackedMeansGreatest(es: seq<Entry>, z: Entry)
    requires |z.relocs| < 3 && |Sort(es + [z])| == |es| + 1 && ThreeEach(Sort(es + [z])[..|es|])
    ensures NoneAbove(es, z.key)
  {
    var all := es + [z];
    var s := Sort(all);
    assert Sorted(s) by {
      SortIsStable(all, 0);
    }
    assert all[|es|] == z;
    var k := SortKeepsMember(all, z);
    CompactIsFront(s);
    forall i | 0 <= i < |es|
      ensures es[i].key <= z.key
    {
      assert all[i] == es[i];
      var m := SortKeepsMember(all, es[i]);
    }
  }

  /** The short entry comes last exactly when no key is greater. */
  lemma ShortStaysLast(es: seq<Entry>, z: Entry)
    requires AsRead(es, z) && |z.relocs| < 3
    ensures |Sort(es + [z])| == |es| + 1
    ensures ThreeEach(Sort(es + [z])[..|es|]) <==> NoneAbove(es, z.key)
  {
    SortTotal(es + [z]);
    if NoneAbove(es, z.key) {
      GreatestStaysLast(es, z);
      SortTotal(es);
      ThreeEachSorted(es);
      assert (Sort(es) + [z])[..|es|] == Sort(es);
    }
    if ThreeEach(Sort(es + [z])[..|es|]) {
      PackedMeansGreatest(es, z);
    }
  }

  lemma GroupShapes(es: seq<Entry>)
    requires UpToThreeEach(es) && |es| > 0
    ensures UpToThree(GroupRows(es, 0))
    ensures Packed(GroupRows(es, 0)) <==> ThreeEach(es[..|es| - 1])
  {
    var groups := GroupRows(es, 0);
    assert forall i :: 0 <= i < |es| - 1 ==> |groups[i]| == |es[..|es| - 1][i].relocs|;
  }

  /**
    A reader that takes the rows by threes, as the pass itself does, finds what each entry owns exactly when
    no relocation is missing or no entry has a greater key than the last one.
   */
  lemma ShortTableSurvives(es: seq<Entry>, z: Entry)
    requires AsRead(es, z)
    ensures var sorted := Sort(es + [z]);
      Chunks(RelocRows(sorted, 0)) == GroupRows(sorted, 0) <==> |z.relocs| == 3 || NoneAbove(es, z.key)
  {
    var sorted := Sort(es + [z]);
    RowsAreGroups(sorted, 0);
    SortTotal(es + [z]);
    UpToThreeSorted(es + [z]);
    GroupShapes(sorted);
    ChunksFindGroups(GroupRows(sorted, 0));
    if |z.relocs| < 3 {
      ShortStaysLast(es, z);
    } else {
      ThreeEachSorted(es + [z]);
    }
  }

  /** Every readable object gives entries of this shape. */
  lemma ReadAsRead(image: seq<byte>, l: Layout)
    requires Readable(image, l) && Count(image, l) > 0
    ensures var n, es := Count(image, l), ReadEntries(image, l);
      && es == es[..n - 1] + [es[n - 1]] && AsRead(es[..n - 1], es[n - 1])
      && (|es[n - 1].relocs| == 3 <==> 3 * n <= l.relocCount)
  {
    var n, es := Count(image, l), ReadEntries(image, l);
    forall i | 0 <= i < n - 1
      ensures |es[i].relocs| == 3
    {
      ShareAt(image, l, i, 0);
    }
  }

  // ----- The result read back -----

  /** No relocation is missing, or no entry has a greater key than the last one, which is the one to miss some. */
  ghost predicate Orderly(image: seq<byte>, l: Layout)
    requires Readable(image, l)
  {
    var n, es := Count(image, l), ReadEntries(image, l);
    n == 0 || 3 * n <= l.relocCount || NoneAbove(es[..n - 1], es[n - 1].key)
  }

  lemma SortedIsApportioned(image: seq<byte>, l: Layout)
    requires Readable(image, l) && Count(image, l) > 0
    ensures |Sort(ReadEntries(image, l))| == Count(image, l)
    ensures Orderly(image, l) ==> Apportioned(image, l, Sort(ReadEntries(image, l)))
    ensures !Orderly(image, l) ==> !Compact(Sort(ReadEntries(image, l)))
  {
    var n, es := Count(image, l), ReadEntries(image, l);
    var front, z := es[..n - 1], es[n - 1];
    ReadAsRead(image, l);
    SortTotal(es);
    if 3 * n <= l.relocCount {
      ThreeEachSorted(es);
    } else {
      ShortStaysLast(front, z);
      CompactIsFront(Sort(es));
      if Orderly(image, l) {
        GreatestStaysLast(front, z);
      }
    }
  }

  lemma CompactIsFront(es: seq<Entry>)
    requires |es| > 0
    ensures Compact(es) <==> ThreeEach(es[..|es| - 1])
  {
    assert forall i :: 0 <= i < |es| - 1 ==> es[..|es| - 1][i] == es[i];
  }

  /** An entry that lost rows to the one before it, or won some from the one after it. */
  lemma NotCompactDiffers(out: seq<byte>, l: Layout, sorted: seq<Entry>)
    requires Readable(out, l) && |sorted| == Count(out, l) && !Compact(sorted)
    ensures ReadEntries(out, l) != Renumbered(sorted, 0)
  {
    var i :| 0 <= i < |sorted| - 1 && |sorted[i].relocs| != 3;
    ShareAt(out, l, i, 0);
    RenumberedAt(sorted, 0, i);
    assert |ReadEntries(out, l)[i].relocs| == 3;
  }

  lemma RereadOrderly(image: seq<byte>, l: Layout)
    requires Separate(image, l) && Count(image, l) > 0 && Orderly(image, l)
    ensures Readable(Rewrite(image, l), l)
    ensures ReadEntries(Rewrite(image, l), l) == Renumbered(Sort(ReadEntries(image, l)), 0)
  {
    SortedIsApportioned(image, l);
    RewriteInstalls(image, l);
    RereadInstalled(image, l, Sort(ReadEntries(image, l)), Rewrite(image, l));
  }

  lemma RereadMixed(image: seq<byte>, l: Layout)
    requires Separate(image, l) && !Orderly(image, l)
    ensures Readable(Rewrite(image, l), l)
    ensures ReadEntries(Rewrite(image, l), l) != Renumbered(Sort(ReadEntries(image, l)), 0)
  {
    var out, sorted := Rewrite(image, l), Sort(ReadEntries(image, l));
    StaysSeparate(image, l, out);
    SortedIsApportioned(image, l);
    NotCompactDiffers(out, l, sorted);
  }

  /** The regions depend on the length of the object only. */
  lemma StaysSeparate(image: seq<byte>, l: Layout, out: seq<byte>)
    requires Separate(image, l) && |out| == |image|
    ensures Separate(out, l) && Count(out, l) == Count(image, l)
  {
  }

  /** Taking the rows by threes again, the result reads as the sorted entries exactly when it is orderly. */
  lemma Reread(image: seq<byte>, l: Layout)
    requires Separate(image, l)
    ensures Separate(Rewrite(image, l), l)
    ensures |Sort(ReadEntries(image, l))| == Count(image, l)
    ensures ReadEntries(Rewrite(image, l), l) == Renumbered(Sort(ReadEntries(image, l)), 0) <==> Orderly(image, l)
  {
    SortTotal(ReadEntries(image, l));
    StaysSeparate(image, l, Rewrite(image, l));
    if Count(image, l) > 0 {
      if Orderly(image, l) {
        RereadOrderly(image, l);
      } else {
        RereadMixed(image, l);
      }
    }
  }

  // ----- A second run -----

  lemma SameField(va: nat, i: nat)
    ensures (ENTRY * i + va % ENTRY) % ENTRY == va % ENTRY
  {
  }

  lemma PackMoved(e: Entry, i: nat)
    ensures PackAll(Renumber(e, i).relocs, i) == PackAll(e.relocs, i)
  {
    var moved := Renumber(e, i).relocs;
    forall j | 0 <= j < |e.relocs|
      ensures Pack(moved[j], i) == Pack(e.relocs[j], i)
    {
      SameField(e.relocs[j].va, i);
    }
  }

  lemma {:induction false} RenumberedRows(es: seq<Entry>, from: nat)
    ensures RelocRows(Renumbered(es, from), from) == RelocRows(es, from)
    decreases |es|
  {
    if es != [] {
      RenumberedRows(es[1..], from + 1);
      PackMoved(es[0], from);
      assert Renumbered(es, from)[1..] == Renumbered(es[1..], from + 1);
    }
  }

  lemma RenumberedKeepsRest(es: seq<Entry>)
    ensures EntryRows(Renumbered(es, 0)) == EntryRows(es)
    ensures Sorted(es) ==> Sorted(Renumbered(es, 0))
  {
    forall i | 0 <= i < |es|
      ensures Renumbered(es, 0)[i].bytes == es[i].bytes && Renumbered(es, 0)[i].key == es[i].key
    {
      RenumberedAt(es, 0, i);
    }
  }

  /** Running the pass on its own result changes nothing if it finds the entries again. */
  lemma {:induction false} SecondRunIsIdentity(image: seq<byte>, l: Layout)
    requires Separate(image, l) && Orderly(image, l)
    ensures Readable(Rewrite(image, l), l) && Rewrite(Rewrite(image, l), l) == Rewrite(image, l)
  {
    Reread(image, l);
    var out, sorted := Rewrite(image, l), Sort(ReadEntries(image, l));
    SortIsStable(ReadEntries(image, l), 0);
    RenumberedKeepsRest(sorted);
    SortedSortsToItself(Renumbered(sorted, 0));
    RenumberedRows(sorted, 0);
    if |sorted| > 0 {
      RewriteHolds(image, l);
      PatchSame(out, l.raw, ENTRY * Count(image, l));
      PatchSame(out, l.relocs, |Concat(RelocRows(sorted, 0))|);
    }
  }

  // ----- The pass itself -----

  method ReadSymbols(image: seq<byte>, l: Layout) returns (r: Result<seq<nat>>)
    ensures r.Ok? <==> l.symbolCount == 0 || l.symbols + SYMBOL * l.symbolCount <= |image|
    ensures r.Ok? ==> |r.value| == l.symbolCount && forall k :: 0 <= k < |r.value| ==> r.value[k] == Key(image, l, k)
  {
    var values: seq<nat> := [];
    for k := 0 to l.symbolCount
      invariant |values| == k && (k == 0 || l.symbols + SYMBOL * k <= |image|)
      invariant forall j :: 0 <= j < k ==> values[j] == Number(image, l.symbols + SYMBOL * j + 8, 4)
    {
      var at := l.symbols + SYMBOL * k;
      if at + SYMBOL > |image| {
        return Err;
      }
      values := values + [Number(image, at + 8, 4)];
    }
    r := Ok(values);
  }

  method ReadRelocTable(image: seq<byte>, l: Layout) returns (r: Result<seq<Reloc>>)
    ensures r.Ok? <==> l.relocCount == 0 || l.relocs + RELOC * l.relocCount <= |image|
    ensures r.Ok? ==> r.value == ReadRelocs(image, l)
  {
    var relocs: seq<Reloc> := [];
    for k := 0 to l.relocCount
      invariant |relocs| == k && (k == 0 || l.relocs + RELOC * k <= |image|)
      invariant forall j :: 0 <= j < k ==> relocs[j] == ReadReloc(image, l.relocs + RELOC * j)
    {
      var at := l.relocs + RELOC * k;
      if at + RELOC > |image| {
        return Err;
      }
      relocs := relocs + [ReadReloc(image, at)];
    }
    r := Ok(relocs);
  }

  method Associate(image: seq<byte>, l: Layout, values: seq<nat>, relocs: seq<Reloc>) returns (r: Result<seq<Entry>>)
    requires l.symbolCount == 0 || l.symbols + SYMBOL * l.symbolCount <= |image|
    requires l.relocCount == 0 || l.relocs + RELOC * l.relocCount <= |image|
    requires |values| == l.symbolCount && forall k :: 0 <= k < |values| ==> values[k] == Key(image, l, k)
    requires relocs == ReadRelocs(image, l) && Present(image, l) % ENTRY == 0
    ensures r.Ok? <==> Readable(image, l)
    ensures r.Ok? ==> r.value == ReadEntries(image, l)
  {
    var es: seq<Entry> := [];
    for i := 0 to Count(image, l)
      invariant |es| == i && (i == 0 || 3 * (i - 1) < |relocs|)
      invariant forall k :: 0 <= k < i ==> EntryIs(image, l, relocs, k, es[k])
    {
      if 3 * i >= |relocs| {
        return Err;
      }
      var share := Share(relocs, i);
      var sym := share[0].sym;
      var key := if sym >= l.symbolCount then 0 else values[sym];
      es := es + [Entry(Region(image, l.raw + ENTRY * i, ENTRY), share, key, i)];
    }
    r := Ok(es);
  }

  ghost predicate EntryIs(image: seq<byte>, l: Layout, relocs: seq<Reloc>, k: nat, e: Entry)
    requires l.symbolCount == 0 || l.symbols + SYMBOL * l.symbolCount <= |image|
    requires 3 * k < |relocs| && k < Count(image, l)
  {
    e == Entry(Region(image, l.raw + ENTRY * k, ENTRY), Share(relocs, k), Key(image, l, Share(relocs, k)[0].sym), k)
  }

  method BuildEntries(es: seq<Entry>) returns (buf: seq<byte>)
    ensures buf == Concat(EntryRows(es))
  {
    buf := [];
    ghost var rows := EntryRows(es);
    for i := 0 to |es|
      invariant buf == Concat(rows[..i])
    {
      ConcatAppend(rows[..i], [rows[i]]);
      assert rows[..i + 1] == rows[..i] + [rows[i]] && Concat([rows[i]]) == rows[i];
      buf := buf + es[i].bytes;
    }
    assert rows[..|es|] == rows;
  }

  lemma ConcatRow(prefix: seq<byte>, rows: seq<seq<byte>>, j: nat)
    requires j < |rows|
    ensures prefix + Concat(rows[..j + 1]) == prefix + Concat(rows[..j]) + rows[j]
  {
    var front, row := rows[..j], rows[j];
    ConcatAppend(front, [row]);
    assert rows[..j + 1] == front + [row] && Concat([row]) == row;
    assert prefix + (Concat(front) + row) == prefix + Concat(front) + row;
  }

  method AppendRelocs(prefix: seq<byte>, relocs: seq<Reloc>, i: nat) returns (buf: seq<byte>)
    ensures buf == prefix + Concat(PackAll(relocs, i))
  {
    buf := prefix;
    ghost var rows := PackAll(relocs, i);
    for j := 0 to |relocs|
      invariant buf == prefix + Concat(rows[..j])
    {
      ConcatRow(prefix, rows, j);
      buf := buf + Pack(relocs[j], i);
    }
    assert rows[..|rows|] == rows;
  }

  /** The table from entry `i` on. */
  ghost function TableFrom(es: seq<Entry>, i: nat): seq<byte>
    requires i <= |es|
  {
    Concat(RelocRows(es[i..], i))
  }

  lemma TableStep(es: seq<Entry>, i: nat, before: seq<byte>)
    requires i < |es|
    ensures before + TableFrom(es, i) == before + Concat(PackAll(es[i].relocs, i)) + TableFrom(es, i + 1)
  {
    var row, rest := PackAll(es[i].relocs, i), RelocRows(es[i + 1..], i + 1);
    assert es[i..][1..] == es[i + 1..];
    ConcatAppend(row, rest);
    assert before + (Concat(row) + Concat(rest)) == before + Concat(row) + Concat(rest);
  }

  lemma TableWhole(es: seq<Entry>)
    ensures TableFrom(es, 0) == Concat(RelocRows(es, 0)) && TableFrom(es, |es|) == []
  {
    assert es[0..] == es && es[|es|..] == [];
  }

  method BuildRelocs(es: seq<Entry>) returns (buf: seq<byte>)
    ensures buf == Concat(RelocRows(es, 0))
  {
    buf := [];
    TableWhole(es);
    ghost var all := TableFrom(es, 0);
    for i := 0 to |es|
      invariant buf + TableFrom(es, i) == all
    {
      TableStep(es, i, buf);
      buf := AppendRelocs(buf, es[i].relocs, i);
    }
  }

  /** A run writes all of the result or nothing. */
  method SortObject(data: array<byte>, l: Layout) returns (written: bool)
    modifies data
    ensures written <==> Readable(old(data[..]), l)
    ensures data[..] == if written then Rewrite(old(data[..]), l) else old(data[..])
  {
    var image := data[..];
    var symbols := ReadSymbols(image, l);
    if symbols.Err? || Present(image, l) % ENTRY != 0 {
      return false;
    }
    var relocs := ReadRelocTable(image, l);
    if relocs.Err? {
      return false;
    }
    var entries := Associate(image, l, symbols.value, relocs.value);
    if entries.Err? {
      return false;
    }
    var sorted := Sort(entries.value);
    var pdata := BuildEntries(sorted);
    var table := BuildRelocs(sorted);
    TablesFit(image, l);
    if |sorted| > 0 {
      Overwrite(data, l.raw, pdata);
      Overwrite(data, l.relocs, table);
    }
    written := true;
  }
}
