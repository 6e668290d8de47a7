/**
  What the sorted object means to a linker. A relocation applies to the entry that its address lies in,
  wherever its row stands in the table; the pass goes by the row's place in the table instead.
 */
module PdataLinks {
  import opened Prelude
  import opened Binary
  import opened Pdata

  // ----- Where an entry goes -----

  ghost predicate Numbered(es: seq<Entry>, from: nat) {
    forall i :: 0 <= i < |es| ==> es[i].origin == from + i
  }

  /** The order of the result: by key, and for equal keys by the old place. */
  predicate Precedes(a: Entry, b: Entry) {
    a.key < b.key || (a.key == b.key && a.origin < b.origin)
  }

  ghost predicate PrecedesAll(e: Entry, es: seq<Entry>) {
    forall i :: 0 <= i < |es| ==> Precedes(e, es[i])
  }

  ghost predicate InOrder(es: seq<Entry>) {
    forall i, j :: 0 <= i < j < |es| ==> Precedes(es[i], es[j])
  }

  lemma {:induction false} InsertBehind(x: Entry, e: Entry, es: seq<Entry>)
    requires Precedes(x, e) && PrecedesAll(x, es)
    ensures PrecedesAll(x, Insert(e, es))
    decreases |es|
  {
    if es != [] && e.key > es[0].key {
      InsertBehind(x, e, es[1..]);
    }
  }

  lemma {:induction false} InsertInOrder(e: Entry, es: seq<Entry>)
    requires InOrder(es) && forall i :: 0 <= i < |es| ==> e.origin < es[i].origin
    ensures InOrder(Insert(e, es))
    decreases |es|
  {
    if es != [] {
      if e.key <= es[0].key {
        assert forall i :: 0 < i < |es| ==> Precedes(es[0], es[i]);
      } else {
        InsertInOrder(e, es[1..]);
        InsertBehind(es[0], e, es[1..]);
      }
    }
  }

  lemma {:induction false} SortInOrder(es: seq<Entry>, from: nat)
    requires Numbered(es, from)
    ensures InOrder(Sort(es))
    decreases |es|
  {
    if es != [] {
      SortInOrder(es[1..], from + 1);
      forall i | 0 <= i < |Sort(es[1..])|
        ensures es[0].origin < Sort(es[1..])[i].origin
      {
        SortMembers(es[1..], i);
      }
      InsertInOrder(es[0], Sort(es[1..]));
    }
  }

  /** How many entries come before `e`. */
  function Rank(es: seq<Entry>, e: Entry): nat {
    if es == [] then 0 else (if Precedes(es[0], e) then 1 else 0) + Rank(es[1..], e)
  }

  lemma {:induction false} InsertRank(x: Entry, es: seq<Entry>, e: Entry)
    ensures Rank(Insert(x, es), e) == (if Precedes(x, e) then 1 else 0) + Rank(es, e)
    decreases |es|
  {
    var r := Insert(x, es);
    if es == [] || x.key <= es[0].key {
      assert r[1..] == es;
    } else {
      assert r[1..] == Insert(x, es[1..]);
      InsertRank(x, es[1..], e);
    }
  }

  lemma {:induction false} SortRank(es: seq<Entry>, e: Entry)
    ensures Rank(Sort(es), e) == Rank(es, e)
    decreases |es|
  {
    if es != [] {
      SortRank(es[1..], e);
      InsertRank(es[0], Sort(es[1..]), e);
    }
  }

  lemma {:induction false} RankZero(es: seq<Entry>, e: Entry)
    requires forall i :: 0 <= i < |es| ==> !Precedes(es[i], e)
    ensures Rank(es, e) == 0
    decreases |es|
  {
    if es != [] {
      RankZero(es[1..], e);
    }
  }

  lemma {:induction false} RankAt(es: seq<Entry>, j: nat)
    requires InOrder(es) && j < |es|
    ensures Rank(es, es[j]) == j
    decreases |es|
  {
    if j == 0 {
      forall i | 0 <= i < |es|
        ensures !Precedes(es[i], es[0])
      {
        assert i > 0 ==> Precedes(es[0], es[i]);
      }
      RankZero(es, es[0]);
    } else {
      RankAt(es[1..], j - 1);
      assert Precedes(es[0], es[j]);
    }
  }

  /** Entry `i` goes to the place that its rank tells. */
  lemma RankIsPlace(es: seq<Entry>, i: nat)
    requires Numbered(es, 0) && i < |es|
    ensures |Sort(es)| == |es| && Rank(es, es[i]) < |es| && Sort(es)[Rank(es, es[i])] == es[i]
  {
    SortTotal(es);
    SortInOrder(es, 0);
    SortRank(es, es[i]);
    var j := SortKeepsMember(es, es[i]);
    RankAt(Sort(es), j);
  }

  lemma RanksDiffer(es: seq<Entry>, i: nat, j: nat)
    requires Numbered(es, 0) && i < |es| && j < |es| && Rank(es, es[i]) == Rank(es, es[j])
    ensures i == j
  {
    RankIsPlace(es, i);
    RankIsPlace(es, j);
  }

  // ----- Where a row goes -----

  /** The rows of the entries before `j`. */
  function Start(es: seq<Entry>, j: nat): nat
    requires j <= |es|
  {
    if j == 0 then 0 else Start(es, j - 1) + |es[j - 1].relocs|
  }

  lemma {:induction false} StartShift(es: seq<Entry>, j: nat)
    requires 0 < j <= |es|
    ensures Start(es, j) == |es[0].relocs| + Start(es[1..], j - 1)
    decreases j
  {
    if j > 1 {
      StartShift(es, j - 1);
    }
  }

  lemma {:induction false} StartGrows(es: seq<Entry>, i: nat, j: nat)
    requires i < j <= |es|
    ensures Start(es, i) + |es[i].relocs| <= Start(es, j)
    decreases j
  {
    if i < j - 1 {
      StartGrows(es, i, j - 1);
    }
  }

  lemma {:induction false} RowAtStart(es: seq<Entry>, from: nat, j: nat, t: nat)
    requires j < |es| && t < |es[j].relocs|
    ensures Start(es, j) + t < |RelocRows(es, from)|
    ensures RelocRows(es, from)[Start(es, j) + t] == Pack(es[j].relocs[t], from + j)
    decreases j
  {
    if j > 0 {
      RowAtStart(es[1..], from + 1, j - 1, t);
      StartShift(es, j);
    }
  }

  function Row(image: seq<byte>, l: Layout, k: nat): Reloc
    requires k < l.relocCount && l.relocs + RELOC * l.relocCount <= |image|
  {
    ReadReloc(image, l.relocs + RELOC * k)
  }

  lemma RowIsBounded(image: seq<byte>, l: Layout, k: nat)
    requires k < l.relocCount && l.relocs + RELOC * l.relocCount <= |image|
    ensures Bounded(Row(image, l, k))
  {
    ReadIsBounded(image, l.relocs + RELOC * k);
  }

  /** The new place of the entry that was at `i`. */
  ghost function Place(es: seq<Entry>, i: nat): (j: nat)
    requires Numbered(es, 0) && i < |es|
    ensures j < |es| == |Sort(es)| && Sort(es)[j] == es[i]
  {
    RankIsPlace(es, i);
    Rank(es, es[i])
  }

  /** The entry at place `i` of the result. */
  lemma SortedAt(es: seq<Entry>, i: nat) returns (m: nat)
    requires Numbered(es, 0) && i < |es|
    ensures m < |es| && Place(es, m) == i
  {
    SortTotal(es);
    SortMembers(es, i);
    m :| 0 <= m < |es| && es[m] == Sort(es)[i];
    SortInOrder(es, 0);
    SortRank(es, es[m]);
    RankAt(Sort(es), i);
  }

  /** Where the pass puts row `k` of the table. */
  ghost function NewRow(es: seq<Entry>, k: nat): nat
    requires Numbered(es, 0)
  {
    if k < 3 * |es| then Start(Sort(es), Place(es, k / 3)) + k % 3 else k
  }

  /** The entries as they stand in the object: bytes, relocations by threes, and numbered. */
  ghost predicate From(image: seq<byte>, l: Layout, es: seq<Entry>) {
    && Readable(image, l) && |es| == Count(image, l) && Numbered(es, 0)
    && (forall i :: 0 <= i < |es| ==> |es[i].relocs| <= 3 && es[i].bytes == Region(image, l.raw + ENTRY * i, ENTRY))
    && forall k :: 0 <= k < 3 * |es| && k < l.relocCount ==> Owns(es[k / 3], k % 3, Row(image, l, k))
  }

  predicate Owns(e: Entry, t: nat, r: Reloc) {
    t < |e.relocs| && e.relocs[t] == r
  }

  lemma ShareIsRow(image: seq<byte>, l: Layout, i: nat, t: nat)
    requires Readable(image, l) && i < Count(image, l) && t < 3 && 3 * i + t < l.relocCount
    ensures Owns(ReadEntry(image, l, i), t, Row(image, l, 3 * i + t))
  {
    var relocs := ReadRelocs(image, l);
    assert Share(relocs, i)[t] == relocs[3 * i + t];
  }

  lemma RowIsShared(image: seq<byte>, l: Layout, k: nat)
    requires Readable(image, l) && k < 3 * Count(image, l) && k < l.relocCount
    ensures Owns(ReadEntry(image, l, k / 3), k % 3, Row(image, l, k))
  {
    ShareIsRow(image, l, k / 3, k % 3);
  }

  lemma {:induction false} ReadIsFrom(image: seq<byte>, l: Layout)
    requires Readable(image, l)
    ensures From(image, l, ReadEntries(image, l))
  {
    var es := ReadEntries(image, l);
    forall k | 0 <= k < 3 * |es| && k < l.relocCount
      ensures Owns(es[k / 3], k % 3, Row(image, l, k))
    {
      RowIsShared(image, l, k);
    }
  }

  lemma {:induction false} StartIsTotal(es: seq<Entry>)
    ensures Start(es, |es|) == Total(es)
    decreases |es|
  {
    if es != [] {
      StartShift(es, |es|);
      StartIsTotal(es[1..]);
    }
  }

  lemma {:induction false} TotalAtMost(es: seq<Entry>)
    requires forall i :: 0 <= i < |es| ==> |es[i].relocs| <= 3
    ensures Total(es) <= 3 * |es|
    decreases |es|
  {
    if es != [] {
      TotalAtMost(es[1..]);
    }
  }

  /** `out` has the entries `sorted` and their relocations in place, and all other rows as they were. */
  ghost predicate Laid(image: seq<byte>, l: Layout, sorted: seq<Entry>, out: seq<byte>) {
    && Separate(image, l) && |out| == |image| && |sorted| == Count(image, l) && TwelveBytes(sorted)
    && Total(sorted) <= 3 * |sorted| && Total(sorted) <= l.relocCount
    && (|sorted| > 0 ==> Stands(out, l.raw, EntryRows(sorted)) && Stands(out, l.relocs, RelocRows(sorted, 0)))
    && forall k :: Total(sorted) <= k < l.relocCount ==> SameRow(image, l, out, k)
  }

  ghost predicate SameRow(image: seq<byte>, l: Layout, out: seq<byte>, k: nat)
    requires k < l.relocCount && l.relocs + RELOC * l.relocCount <= |image| == |out|
  {
    Region(out, l.relocs + RELOC * k, RELOC) == Region(image, l.relocs + RELOC * k, RELOC)
  }

  lemma OtherRowsStay(image: seq<byte>, l: Layout, k: nat)
    requires Separate(image, l) && Total(Sort(ReadEntries(image, l))) <= k < l.relocCount
    ensures SameRow(image, l, Rewrite(image, l), k)
  {
    TablesFit(image, l);
    var sorted := Sort(ReadEntries(image, l));
    if |sorted| > 0 {
      var entries, relocs := Concat(EntryRows(sorted)), Concat(RelocRows(sorted, 0));
      var at := l.relocs + RELOC * k;
      PatchedRegion(image, l.raw, entries, at, RELOC);
      PatchedRegion(Patch(image, l.raw, entries), l.relocs, relocs, at, RELOC);
    }
  }

  lemma RewriteLays(image: seq<byte>, l: Layout)
    requires Separate(image, l)
    ensures Laid(image, l, Sort(ReadEntries(image, l)), Rewrite(image, l))
  {
    TablesFit(image, l);
    TotalAtMost(ReadEntries(image, l));
    SortTotal(ReadEntries(image, l));
    if Count(image, l) > 0 {
      RewriteHolds(image, l);
    }
    forall k | Total(Sort(ReadEntries(image, l))) <= k < l.relocCount
      ensures SameRow(image, l, Rewrite(image, l), k)
    {
      OtherRowsStay(image, l, k);
    }
  }

  /** The object with its entries before and after. */
  ghost predicate Pass(image: seq<byte>, l: Layout, es: seq<Entry>, out: seq<byte>) {
    From(image, l, es) && Laid(image, l, Sort(es), out)
  }

  lemma {:induction false} NewRowFits(image: seq<byte>, l: Layout, es: seq<Entry>, out: seq<byte>, k: nat)
    requires Pass(image, l, es, out) && k < l.relocCount
    ensures NewRow(es, k) < l.relocCount
    ensures k < 3 * |es| ==> NewRow(es, k) < Total(Sort(es))
    ensures k < 3 * |es| ==> Owns(Sort(es)[Place(es, k / 3)], k % 3, Row(image, l, k))
  {
    if k < 3 * |es| {
      assert Owns(es[k / 3], k % 3, Row(image, l, k));
      StartIsTotal(Sort(es));
      StartGrows(Sort(es), Place(es, k / 3), |es|);
    }
  }

  lemma StartsDiffer(es: seq<Entry>, i: nat, t: nat, j: nat, u: nat)
    requires i < |es| && j < |es| && t < |es[i].relocs| && u < |es[j].relocs| && Start(es, i) + t == Start(es, j) + u
    ensures i == j && t == u
  {
    if i < j {
      StartGrows(es, i, j);
    } else if j < i {
      StartGrows(es, j, i);
    }
  }

  /** No two rows go to the same place. */
  lemma NewRowsDiffer(image: seq<byte>, l: Layout, es: seq<Entry>, out: seq<byte>, k: nat, m: nat)
    requires Pass(image, l, es, out) && k < l.relocCount && m < l.relocCount && NewRow(es, k) == NewRow(es, m)
    ensures k == m
  {
    NewRowFits(image, l, es, out, k);
    NewRowFits(image, l, es, out, m);
    if k < 3 * |es| && m < 3 * |es| {
      StartsDiffer(Sort(es), Place(es, k / 3), k % 3, Place(es, m / 3), m % 3);
      RanksDiffer(es, k / 3, m / 3);
    }
  }

  /** Relocation `t` of entry `j` in a written table, row `q` of it. */
  lemma {:induction false} TableHoldsReloc(out: seq<byte>, at: nat, sorted: seq<Entry>, j: nat, t: nat, r: Reloc,
                                           q: nat)
    requires j < |sorted| && Owns(sorted[j], t, r) && Stands(out, at, RelocRows(sorted, 0))
    requires Bounded(r) && ENTRY * j + ENTRY <= Limit(4) && q == Start(sorted, j) + t
    ensures Inside(out, at + RELOC * q, RELOC) && ReadReloc(out, at + RELOC * q) == Moved(r, j)
  {
    RowAtStart(sorted, 0, j, t);
    TableHoldsRow(out, at, RelocRows(sorted, 0), q, r, j);
  }

  lemma OffsetsFit(image: seq<byte>, l: Layout, j: nat)
    requires Separate(image, l) && j < Count(image, l)
    ensures ENTRY * j + ENTRY <= Limit(4)
  {
  }

  /** A row of the first three per entry is rewritten for the new place of entry `k / 3`. */
  lemma {:induction false} RowMoves(image: seq<byte>, l: Layout, es: seq<Entry>, out: seq<byte>, k: nat)
    requires Pass(image, l, es, out) && k < l.relocCount && k < 3 * |es|
    ensures NewRow(es, k) < l.relocCount && Row(out, l, NewRow(es, k)) == Moved(Row(image, l, k), Place(es, k / 3))
  {
    var sorted, j, r := Sort(es), Place(es, k / 3), Row(image, l, k);
    NewRowFits(image, l, es, out, k);
    RowIsBounded(image, l, k);
    OffsetsFit(image, l, j);
    TableHoldsReloc(out, l.relocs, sorted, j, k % 3, r, NewRow(es, k));
  }

  /** Any other row stays as it is. */
  lemma RowStays(image: seq<byte>, l: Layout, es: seq<Entry>, out: seq<byte>, k: nat)
    requires Pass(image, l, es, out) && 3 * |es| <= k < l.relocCount
    ensures Row(out, l, k) == Row(image, l, k)
  {
    assert SameRow(image, l, out, k);
    ReadRelocIsUnpack(image, l.relocs + RELOC * k);
    ReadRelocIsUnpack(out, l.relocs + RELOC * k);
  }

  /** The bytes of entry `i` go to its new place. */
  lemma EntryMoves(image: seq<byte>, l: Layout, es: seq<Entry>, out: seq<byte>, i: nat)
    requires Pass(image, l, es, out) && i < |es|
    ensures Region(out, l.raw + ENTRY * Place(es, i), ENTRY) == Region(image, l.raw + ENTRY * i, ENTRY)
  {
    TableRow(out, l.raw, EntryRows(Sort(es)), ENTRY, Place(es, i));
  }

  // ----- What a relocation applies to -----

  /** The entry that the address lies in. */
  function Target(r: Reloc): nat {
    r.va / ENTRY
  }

  /** The relocation as it has to be afterwards, to apply to the same field of the same entry. */
  ghost function Carried(es: seq<Entry>, r: Reloc): Reloc
    requires Numbered(es, 0)
  {
    if Target(r) < |es| then Moved(r, Place(es, Target(r))) else r
  }

  /**
    What has to be so for row `k`: one of the first three per entry lies in the entry that its place in the
    table says, and a row after them does not lie in an entry that moves.
   */
  predicate InItsEntry(es: seq<Entry>, k: nat, r: Reloc) {
    var t := Target(r);
    if k < 3 * |es| then t == k / 3 else t < |es| ==> Rank(es, es[t]) == t
  }

  lemma MovedTarget(r: Reloc, i: nat)
    ensures Target(Moved(r, i)) == i && Moved(r, Target(r)) == r
  {
  }

  /** Row `k` of the object, as row `m` of `out`, applies to the same field of the same entry. */
  ghost predicate Follows(image: seq<byte>, l: Layout, es: seq<Entry>, out: seq<byte>, k: nat, m: nat)
    requires Readable(image, l) && |out| == |image| && k < l.relocCount && Numbered(es, 0)
  {
    m < l.relocCount && Row(out, l, m) == Carried(es, Row(image, l, k))
  }

  lemma CarriedIs(es: seq<Entry>, k: nat, r: Reloc)
    requires Numbered(es, 0)
    ensures (if k < 3 * |es| then Moved(r, Place(es, k / 3)) else r) == Carried(es, r) <==> InItsEntry(es, k, r)
  {
    var t := Target(r);
    if k < 3 * |es| {
      MovedTarget(r, Place(es, k / 3));
      if t < |es| {
        MovedTarget(r, Place(es, t));
        if Place(es, t) == Place(es, k / 3) {
          RanksDiffer(es, t, k / 3);
        }
      }
    } else if t < |es| {
      MovedTarget(r, Place(es, t));
    }
  }

  /** A relocation applies to what it applied to exactly under that condition. */
  lemma RowFollows(image: seq<byte>, l: Layout, es: seq<Entry>, out: seq<byte>, k: nat)
    requires Pass(image, l, es, out) && k < l.relocCount
    ensures Follows(image, l, es, out, k, NewRow(es, k)) <==> InItsEntry(es, k, Row(image, l, k))
  {
    CarriedIs(es, k, Row(image, l, k));
    if k < 3 * |es| {
      RowMoves(image, l, es, out, k);
    } else {
      RowStays(image, l, es, out, k);
    }
  }

  ghost predicate EntriesKept(image: seq<byte>, l: Layout, es: seq<Entry>, out: seq<byte>)
    requires From(image, l, es) && |out| == |image|
  {
    forall i :: 0 <= i < |es| ==>
      Region(out, l.raw + ENTRY * Place(es, i), ENTRY) == Region(image, l.raw + ENTRY * i, ENTRY)
  }

  /** Every relocation applies to the field it applied to. */
  ghost predicate LinksKept(image: seq<byte>, l: Layout, es: seq<Entry>, out: seq<byte>)
    requires Readable(image, l) && |out| == |image| && Numbered(es, 0)
  {
    forall k :: 0 <= k < l.relocCount ==> Follows(image, l, es, out, k, NewRow(es, k))
  }

  ghost predicate AllInTheirEntries(image: seq<byte>, l: Layout, es: seq<Entry>)
    requires Readable(image, l)
  {
    forall k :: 0 <= k < l.relocCount ==> InItsEntry(es, k, Row(image, l, k))
  }

  lemma PassKeepsMeaning(image: seq<byte>, l: Layout, es: seq<Entry>, out: seq<byte>)
    requires Pass(image, l, es, out)
    ensures EntriesKept(image, l, es, out)
    ensures LinksKept(image, l, es, out) <==> AllInTheirEntries(image, l, es)
  {
    forall i | 0 <= i < |es|
      ensures Region(out, l.raw + ENTRY * Place(es, i), ENTRY) == Region(image, l.raw + ENTRY * i, ENTRY)
    {
      EntryMoves(image, l, es, out, i);
    }
    forall k | 0 <= k < l.relocCount
      ensures Follows(image, l, es, out, k, NewRow(es, k)) <==> InItsEntry(es, k, Row(image, l, k))
    {
      RowFollows(image, l, es, out, k);
    }
  }

  /**
    The pass moves every entry to its rank, and every relocation with the entry it applies to exactly when
    each row of the table lies where the pass takes it to lie.
   */
  lemma {:induction false} SortKeepsMeaning(image: seq<byte>, l: Layout)
    requires Separate(image, l)
    ensures From(image, l, ReadEntries(image, l))
    ensures EntriesKept(image, l, ReadEntries(image, l), Rewrite(image, l))
    ensures LinksKept(image, l, ReadEntries(image, l), Rewrite(image, l)) <==>
      AllInTheirEntries(image, l, ReadEntries(image, l))
  {
    ReadIsFrom(image, l);
    RewriteLays(image, l);
    PassKeepsMeaning(image, l, ReadEntries(image, l), Rewrite(image, l));
  }

  // ----- The table as a bag of rows -----

  // A linker does not look at the order of the rows, so a table whose rows only change places means the same.

  /** The new number of entry `i`; other numbers stay. */
  ghost function To(es: seq<Entry>, i: nat): nat {
    if Numbered(es, 0) && i < |es| then Place(es, i) else i
  }

  /** The old number of the entry that is `j` afterwards. */
  ghost function Back(es: seq<Entry>, j: nat): nat {
    if Numbered(es, 0) && j < |Sort(es)| then Sort(es)[j].origin else j
  }

  lemma BackAndTo(es: seq<Entry>, i: nat)
    requires Numbered(es, 0)
    ensures Back(es, To(es, i)) == i && To(es, Back(es, i)) == i
  {
    SortTotal(es);
    if i < |es| {
      var m := SortedAt(es, i);
    }
  }

  ghost function Redirect(rows: seq<Reloc>, f: nat -> nat): (r: seq<Reloc>)
    ensures |r| == |rows| && forall k :: 0 <= k < |rows| ==> r[k] == Moved(rows[k], f(Target(rows[k])))
  {
    seq(|rows|, k requires 0 <= k < |rows| => Moved(rows[k], f(Target(rows[k]))))
  }

  function Without(s: seq<Reloc>, j: nat): (r: seq<Reloc>)
    requires j < |s|
    ensures |r| == |s| - 1
  {
    s[..j] + s[j + 1..]
  }

  lemma WithoutBag(s: seq<Reloc>, j: nat)
    requires j < |s|
    ensures multiset(Without(s, j)) == multiset(s) - multiset{s[j]} && s[j] in multiset(s)
  {
    assert s == s[..j] + [s[j]] + s[j + 1..];
  }

  /** Two bags are the same if they have an element in common and are the same without it. */
  lemma SameButOne(a: seq<Reloc>, i: nat, b: seq<Reloc>, j: nat)
    requires i < |a| && j < |b| && a[i] == b[j]
    ensures multiset(a) == multiset(b) <==> multiset(Without(a, i)) == multiset(Without(b, j))
  {
    WithoutBag(a, i);
    WithoutBag(b, j);
    assert multiset(a) == multiset(Without(a, i)) + multiset{a[i]};
    assert multiset(b) == multiset(Without(b, j)) + multiset{b[j]};
  }

  lemma RedirectWithout(s: seq<Reloc>, j: nat, f: nat -> nat)
    requires j < |s|
    ensures Without(Redirect(s, f), j) == Redirect(Without(s, j), f)
  {
  }

  lemma {:induction false} RedirectBag(a: seq<Reloc>, b: seq<Reloc>, f: nat -> nat)
    requires multiset(a) == multiset(b)
    ensures multiset(Redirect(a, f)) == multiset(Redirect(b, f))
    decreases |a|
  {
    if a == [] {
      assert |multiset(b)| == |b|;
    } else {
      assert a[0] in multiset(b);
      var j :| 0 <= j < |b| && b[j] == a[0];
      SameButOne(a, 0, b, j);
      RedirectBag(Without(a, 0), Without(b, j), f);
      RedirectWithout(a, 0, f);
      RedirectWithout(b, j, f);
      SameButOne(Redirect(a, f), 0, Redirect(b, f), j);
    }
  }

  /** Every element of `a` stands in `b` at a place of its own. */
  ghost predicate Shuffled(a: seq<Reloc>, b: seq<Reloc>, f: seq<nat>) {
    && |a| == |b| == |f| && (forall k :: 0 <= k < |a| ==> f[k] < |b| && b[f[k]] == a[k])
    && forall k, m :: 0 <= k < m < |f| ==> f[k] != f[m]
  }

  /** The places when place `j` is gone. */
  function Closed(f: seq<nat>, j: nat): (r: seq<nat>)
    ensures |r| == |f|
  {
    seq(|f|, k requires 0 <= k < |f| => if f[k] <= j then f[k] else f[k] - 1)
  }

  lemma ShuffledRest(a: seq<Reloc>, b: seq<Reloc>, f: seq<nat>)
    requires Shuffled(a, b, f) && a != []
    ensures Shuffled(Without(a, 0), Without(b, f[0]), Closed(f[1..], f[0]))
  {
    var j, rest := f[0], f[1..];
    forall k | 0 <= k < |rest|
      ensures Closed(rest, j)[k] < |b| - 1 && Without(b, j)[Closed(rest, j)[k]] == Without(a, 0)[k]
    {
      assert rest[k] == f[k + 1] && f[0] != f[k + 1];
    }
    forall k, m | 0 <= k < m < |rest|
      ensures Closed(rest, j)[k] != Closed(rest, j)[m]
    {
      assert f[0] != f[k + 1] && f[0] != f[m + 1] && f[k + 1] != f[m + 1];
    }
  }

  lemma {:induction false} ShuffledBag(a: seq<Reloc>, b: seq<Reloc>, f: seq<nat>)
    requires Shuffled(a, b, f)
    ensures multiset(a) == multiset(b)
    decreases |a|
  {
    if a != [] {
      ShuffledRest(a, b, f);
      ShuffledBag(Without(a, 0), Without(b, f[0]), Closed(f[1..], f[0]));
      SameButOne(a, 0, b, f[0]);
    }
  }

  lemma MovedTwice(r: Reloc, i: nat, j: nat)
    ensures Moved(Moved(r, i), j) == Moved(r, j)
  {
    SameField(r.va, i);
  }

  lemma RedirectBack(rows: seq<Reloc>, f: nat -> nat, g: nat -> nat)
    requires forall i: nat :: g(f(i)) == i
    ensures Redirect(Redirect(rows, f), g) == rows
  {
    forall k | 0 <= k < |rows|
      ensures Redirect(Redirect(rows, f), g)[k] == rows[k]
    {
      var t := Target(rows[k]);
      MovedTarget(rows[k], f(t));
      MovedTwice(rows[k], f(t), t);
    }
  }

  /** Carrying is one to one, so it tells two bags of rows apart. */
  lemma SameBagIff(a: seq<Reloc>, b: seq<Reloc>, f: nat -> nat, g: nat -> nat)
    requires forall i: nat :: g(f(i)) == i
    ensures multiset(Redirect(a, f)) == multiset(Redirect(b, f)) <==> multiset(a) == multiset(b)
  {
    if multiset(a) == multiset(b) {
      RedirectBag(a, b, f);
    }
    if multiset(Redirect(a, f)) == multiset(Redirect(b, f)) {
      RedirectBag(Redirect(a, f), Redirect(b, f), g);
      RedirectBack(a, f, g);
      RedirectBack(b, f, g);
    }
  }

  /** Every row with the entry that the pass takes it to apply to. */
  ghost function Taken(es: seq<Entry>, rows: seq<Reloc>): (r: seq<Reloc>)
    ensures |r| == |rows|
  {
    seq(|rows|, k requires 0 <= k < |rows| => Moved(rows[k], if k < 3 * |es| then k / 3 else Back(es, Target(rows[k]))))
  }

  /** The rows of `out` are those of the object, each for the same field of the same entry, in any order. */
  ghost predicate TableKept(image: seq<byte>, l: Layout, es: seq<Entry>, out: seq<byte>)
    requires Readable(image, l) && |out| == |image|
  {
    multiset(ReadRelocs(out, l)) == multiset(Redirect(ReadRelocs(image, l), i => To(es, i)))
  }

  lemma RedirectedTo(rows: seq<Reloc>, f: nat -> nat, k: nat, r: Reloc, t: nat)
    requires k < |rows| && rows[k] == Moved(r, t)
    ensures Redirect(rows, f)[k] == Moved(r, f(t))
  {
    MovedTarget(r, t);
    MovedTwice(r, t, f(t));
  }

  lemma {:induction false} TakenGoes(image: seq<byte>, l: Layout, es: seq<Entry>, out: seq<byte>, k: nat)
    requires Pass(image, l, es, out) && k < l.relocCount
    ensures NewRow(es, k) < l.relocCount
    ensures Row(out, l, NewRow(es, k)) == Redirect(Taken(es, ReadRelocs(image, l)), i => To(es, i))[k]
  {
    var r := Row(image, l, k);
    var t := if k < 3 * |es| then k / 3 else Back(es, Target(r));
    RedirectedTo(Taken(es, ReadRelocs(image, l)), i => To(es, i), k, r, t);
    GoesTo(image, l, es, out, k, t);
  }

  lemma {:induction false} GoesTo(image: seq<byte>, l: Layout, es: seq<Entry>, out: seq<byte>, k: nat, t: nat)
    requires Pass(image, l, es, out) && k < l.relocCount
    requires t == if k < 3 * |es| then k / 3 else Back(es, Target(Row(image, l, k)))
    ensures NewRow(es, k) < l.relocCount && Row(out, l, NewRow(es, k)) == Moved(Row(image, l, k), To(es, t))
  {
    if k < 3 * |es| {
      RowMoves(image, l, es, out, k);
    } else {
      RowStays(image, l, es, out, k);
      BackAndTo(es, Target(Row(image, l, k)));
      MovedTarget(Row(image, l, k), 0);
    }
  }

  ghost function NewRows(l: Layout, es: seq<Entry>): (f: seq<nat>)
    requires Numbered(es, 0)
    ensures |f| == l.relocCount && forall k :: 0 <= k < |f| ==> f[k] == NewRow(es, k)
  {
    seq(l.relocCount, k requires 0 <= k < l.relocCount => NewRow(es, k))
  }

  lemma {:induction false} NewRowsApart(image: seq<byte>, l: Layout, es: seq<Entry>, out: seq<byte>, k: nat, m: nat)
    requires Pass(image, l, es, out) && k < m < l.relocCount
    ensures NewRow(es, k) != NewRow(es, m)
  {
    if NewRow(es, k) == NewRow(es, m) {
      NewRowsDiffer(image, l, es, out, k, m);
    }
  }

  lemma {:induction false} PassShuffles(image: seq<byte>, l: Layout, es: seq<Entry>, out: seq<byte>)
    requires Pass(image, l, es, out)
    ensures multiset(ReadRelocs(out, l)) == multiset(Redirect(Taken(es, ReadRelocs(image, l)), i => To(es, i)))
  {
    var a, b := Redirect(Taken(es, ReadRelocs(image, l)), i => To(es, i)), ReadRelocs(out, l);
    var f := NewRows(l, es);
    forall k | 0 <= k < |a|
      ensures f[k] < |b| && b[f[k]] == a[k]
    {
      TakenGoes(image, l, es, out, k);
    }
    forall k, m | 0 <= k < m < |f|
      ensures f[k] != f[m]
    {
      NewRowsApart(image, l, es, out, k, m);
    }
    ShuffledBag(a, b, f);
  }

  lemma PassKeepsTable(image: seq<byte>, l: Layout, es: seq<Entry>, out: seq<byte>)
    requires Pass(image, l, es, out)
    ensures TableKept(image, l, es, out) <==>
      multiset(Taken(es, ReadRelocs(image, l))) == multiset(ReadRelocs(image, l))
  {
    forall i: nat
      ensures Back(es, To(es, i)) == i
    {
      BackAndTo(es, i);
    }
    PassShuffles(image, l, es, out);
    SameBagIff(Taken(es, ReadRelocs(image, l)), ReadRelocs(image, l), i => To(es, i), j => Back(es, j));
  }

  /** The rows, each addressed to the entry that its place in the table says. */
  function Readdressed(rows: seq<Reloc>): (r: seq<Reloc>)
    ensures |r| == |rows|
  {
    seq(|rows|, k requires 0 <= k < |rows| => Moved(rows[k], k / 3))
  }

  /**
    The table means the same to a linker exactly when taking every row for the entry that the pass takes it
    for permutes it. Without surplus rows the order of the entries does not matter to that.
   */
  lemma SortKeepsTable(image: seq<byte>, l: Layout)
    requires Separate(image, l)
    ensures var es, rows := ReadEntries(image, l), ReadRelocs(image, l);
      && (TableKept(image, l, es, Rewrite(image, l)) <==> multiset(Taken(es, rows)) == multiset(rows))
      && (l.relocCount <= 3 * |es| ==> Taken(es, rows) == Readdressed(rows))
  {
    ReadIsFrom(image, l);
    RewriteLays(image, l);
    PassKeepsTable(image, l, ReadEntries(image, l), Rewrite(image, l));
  }

  /** A row in its entry is taken for what it is. */
  lemma TakenAsIs(es: seq<Entry>, rows: seq<Reloc>, k: nat)
    requires Numbered(es, 0) && k < |rows| && InItsEntry(es, k, rows[k])
    ensures Taken(es, rows)[k] == rows[k]
  {
    MovedTarget(rows[k], 0);
    SortTotal(es);
    if k >= 3 * |es| && Target(rows[k]) < |es| {
      BackAndTo(es, Target(rows[k]));
    }
  }

  lemma AllTakenAsIs(es: seq<Entry>, rows: seq<Reloc>)
    requires Numbered(es, 0) && forall k :: 0 <= k < |rows| ==> InItsEntry(es, k, rows[k])
    ensures Taken(es, rows) == rows
  {
    forall k | 0 <= k < |rows|
      ensures Taken(es, rows)[k] == rows[k]
    {
      TakenAsIs(es, rows, k);
    }
  }

  lemma RowsInEntries(image: seq<byte>, l: Layout, es: seq<Entry>)
    requires Readable(image, l) && AllInTheirEntries(image, l, es)
    ensures forall k :: 0 <= k < l.relocCount ==> InItsEntry(es, k, ReadRelocs(image, l)[k])
  {
    forall k | 0 <= k < l.relocCount
      ensures InItsEntry(es, k, ReadRelocs(image, l)[k])
    {
      assert ReadRelocs(image, l)[k] == Row(image, l, k);
    }
  }

  /** Where every relocation keeps its field the table is kept. */
  lemma {:induction false} LinksKeepTable(image: seq<byte>, l: Layout)
    requires Separate(image, l) && LinksKept(image, l, ReadEntries(image, l), Rewrite(image, l))
    ensures TableKept(image, l, ReadEntries(image, l), Rewrite(image, l))
  {
    SortKeepsMeaning(image, l);
    RowsInEntries(image, l, ReadEntries(image, l));
    AllTakenAsIs(ReadEntries(image, l), ReadRelocs(image, l));
    SortKeepsTable(image, l);
  }

  // ----- A second run -----

  /** All entries have three relocations but the last, which has `r`. */
  ghost predicate LastHas(es: seq<Entry>, r: nat) {
    && |es| > 0 && Numbered(es, 0) && 1 <= r < 3 && |es[|es| - 1].relocs| == r
    && forall i :: 0 <= i < |es| - 1 ==> |es[i].relocs| == 3
  }

  /** The place of the short entry. */
  ghost function Gap(es: seq<Entry>): nat
    requires |es| > 0 && Numbered(es, 0)
  {
    Place(es, |es| - 1)
  }

  lemma {:induction false} StartsAround(es: seq<Entry>, r: nat, j: nat)
    requires LastHas(es, r) && j <= |es|
    ensures |Sort(es)| == |es| && Start(Sort(es), j) == if j <= Gap(es) then 3 * j else 3 * j - 3 + r
    decreases j
  {
    SortTotal(es);
    if j > 0 {
      StartsAround(es, r, j - 1);
      var m := SortedAt(es, j - 1);
      if m < |es| - 1 {
        RanksDiffer(es, m, m);
      }
    }
  }

  lemma SortedSize(es: seq<Entry>, r: nat, j: nat)
    requires LastHas(es, r) && j < |es|
    ensures |Sort(es)| == |es| && |Sort(es)[j].relocs| == if j == Gap(es) then r else 3
  {
    SortTotal(es);
    StartsAround(es, r, j);
    StartsAround(es, r, j + 1);
  }

  lemma ShortObject(image: seq<byte>, l: Layout)
    requires Readable(image, l) && Count(image, l) > 0 && l.relocCount < 3 * Count(image, l)
    ensures LastHas(ReadEntries(image, l), l.relocCount - 3 * (Count(image, l) - 1))
  {
    var n, es := Count(image, l), ReadEntries(image, l);
    forall i | 0 <= i < n
      ensures |es[i].relocs| == ShareSize(l, i)
    {
      ShareAt(image, l, i, 0);
    }
  }

  /** Besides, the entries are genuine, and the symbols are as they were. */
  ghost predicate Finished(image: seq<byte>, l: Layout, sorted: seq<Entry>, out: seq<byte>) {
    && Laid(image, l, sorted, out) && AllGenuine(image, l, sorted)
    && forall sym: nat :: Key(out, l, sym) == Key(image, l, sym)
  }

  lemma RewriteFinishes(image: seq<byte>, l: Layout)
    requires Separate(image, l)
    ensures Finished(image, l, Sort(ReadEntries(image, l)), Rewrite(image, l))
  {
    RewriteLays(image, l);
    SortedIsGenuine(image, l);
    if l.symbolCount > 0 {
      RewriteKeepsRest(image, l, l.symbols, SYMBOL * l.symbolCount);
    }
    forall sym: nat
      ensures Key(Rewrite(image, l), l, sym) == Key(image, l, sym)
    {
      SameKey(image, l, Rewrite(image, l), sym);
    }
  }

  /** Row `t` of the group at place `j` in the result, row `q` of the table. */
  lemma {:induction false} WrittenRow(image: seq<byte>, l: Layout, sorted: seq<Entry>, out: seq<byte>, j: nat, t: nat,
                                      q: nat)
    requires Finished(image, l, sorted, out) && j < |sorted| && t < |sorted[j].relocs| && q == Start(sorted, j) + t
    ensures q < l.relocCount && Row(out, l, q) == Moved(sorted[j].relocs[t], j)
  {
    assert Genuine(image, l, sorted[j]);
    StartIsTotal(sorted);
    StartGrows(sorted, j, |sorted|);
    OffsetsFit(image, l, j);
    TableHoldsReloc(out, l.relocs, sorted, j, t, sorted[j].relocs[t], q);
  }

  /** Relocation `t` of entry `j` in the table. */
  ghost predicate Written(l: Layout, sorted: seq<Entry>, out: seq<byte>, j: nat, t: nat)
    requires j < |sorted| && t < |sorted[j].relocs| && l.relocs + RELOC * l.relocCount <= |out|
  {
    var q := Start(sorted, j) + t;
    q < l.relocCount && Row(out, l, q) == Moved(sorted[j].relocs[t], j)
  }

  /** The table of `out` is that of the entries, and their keys are the values of its symbols. */
  ghost predicate Tabled(l: Layout, sorted: seq<Entry>, out: seq<byte>) {
    && Readable(out, l) && |sorted| == Count(out, l)
    && (forall j, t :: 0 <= j < |sorted| && 0 <= t < |sorted[j].relocs| ==> Written(l, sorted, out, j, t))
    && forall j :: 0 <= j < |sorted| ==> |sorted[j].relocs| > 0 && sorted[j].key == Key(out, l, sorted[j].relocs[0].sym)
  }

  lemma {:induction false} RewriteTables(image: seq<byte>, l: Layout)
    requires Separate(image, l) && Count(image, l) > 0
    ensures Tabled(l, Sort(ReadEntries(image, l)), Rewrite(image, l))
  {
    RewriteFinishes(image, l);
    FinishedTables(image, l, Sort(ReadEntries(image, l)), Rewrite(image, l));
  }

  lemma {:induction false} FinishedTables(image: seq<byte>, l: Layout, sorted: seq<Entry>, out: seq<byte>)
    requires Finished(image, l, sorted, out) && |sorted| > 0
    ensures Tabled(l, sorted, out)
  {
    StaysSeparate(image, l, out);
    forall j, t | 0 <= j < |sorted| && 0 <= t < |sorted[j].relocs|
      ensures Written(l, sorted, out, j, t)
    {
      WrittenRow(image, l, sorted, out, j, t, Start(sorted, j) + t);
    }
    forall j | 0 <= j < |sorted|
      ensures |sorted[j].relocs| > 0 && sorted[j].key == Key(out, l, sorted[j].relocs[0].sym)
    {
      assert Genuine(image, l, sorted[j]);
    }
  }

  /** With `r` rows in the short group, row `3a + r` tells whether that group stands at `a`. */
  lemma {:induction false} GapShows(l: Layout, es: seq<Entry>, out: seq<byte>, r: nat, a: nat)
    requires Tabled(l, Sort(es), out) && LastHas(es, r) && a < |es| - 1 && a <= Gap(es)
    ensures 3 * a + r < l.relocCount && Target(Row(out, l, 3 * a + r)) == if a == Gap(es) then a + 1 else a
  {
    var sorted := Sort(es);
    var j, t := if a == Gap(es) then a + 1 else a, if a == Gap(es) then 0 else r;
    StartsAround(es, r, j);
    SortedSize(es, r, j);
    assert Written(l, sorted, out, j, t);
    MovedTarget(sorted[j].relocs[t], j);
  }

  lemma {:induction false} RankAtLeast(es: seq<Entry>, e: Entry, m: nat)
    requires m <= |es| && forall i :: 0 <= i < m ==> Precedes(es[i], e)
    ensures Rank(es, e) >= m
    decreases |es|
  {
    if m > 0 {
      RankAtLeast(es[1..], e, m - 1);
    }
  }

  /** Two entries that do not come before `e`, itself one of them. */
  lemma {:induction false} RankAtMost(es: seq<Entry>, e: Entry, a: nat, b: nat)
    requires a < b < |es| && !Precedes(es[a], e) && !Precedes(es[b], e)
    ensures Rank(es, e) <= |es| - 2
    decreases |es|
  {
    if a == 0 {
      RankBelow(es[1..], e, b - 1);
    } else {
      RankAtMost(es[1..], e, a - 1, b - 1);
    }
  }

  lemma {:induction false} RankBelow(es: seq<Entry>, e: Entry, a: nat)
    requires a < |es| && !Precedes(es[a], e)
    ensures Rank(es, e) <= |es| - 1
    decreases |es|
  {
    if a > 0 {
      RankBelow(es[1..], e, a - 1);
    } else {
      RankAtMostAll(es[1..], e);
    }
  }

  lemma {:induction false} RankAtMostAll(es: seq<Entry>, e: Entry)
    ensures Rank(es, e) <= |es|
    decreases |es|
  {
    if es != [] {
      RankAtMostAll(es[1..], e);
    }
  }

  /** In an object that is not orderly the short entry does not stay last. */
  lemma {:induction false} GapMoves(image: seq<byte>, l: Layout)
    requires Readable(image, l) && !Orderly(image, l)
    ensures Numbered(ReadEntries(image, l), 0) && Gap(ReadEntries(image, l)) < Count(image, l) - 1
  {
    var n, es := Count(image, l), ReadEntries(image, l);
    GreaterMoves(es, es[..n - 1]);
  }

  lemma GreaterMoves(es: seq<Entry>, front: seq<Entry>)
    requires |es| > 0 && Numbered(es, 0) && front == es[..|es| - 1] && !NoneAbove(front, es[|es| - 1].key)
    ensures Gap(es) < |es| - 1
  {
    var a :| 0 <= a < |front| && front[a].key > es[|es| - 1].key;
    RankAtMost(es, es[|es| - 1], a, |es| - 1);
  }

  /** A second run reads, up to the gap, the first relocation of the entry that was written there. */
  lemma {:induction false} FirstRowBack(l: Layout, es: seq<Entry>, out: seq<byte>, r: nat, i: nat)
    requires Tabled(l, Sort(es), out) && LastHas(es, r) && i <= Gap(es)
    ensures |Sort(es)| == |es| && ReadEntry(out, l, i).key == Sort(es)[i].key
  {
    StartsAround(es, r, i);
    SortedSize(es, r, i);
    assert Written(l, Sort(es), out, i, 0);
    ShareIsRow(out, l, i, 0);
  }

  /** Two passes that leave the same table leave the same gap. */
  lemma {:induction false} GapsAgree(l: Layout, es: seq<Entry>, es': seq<Entry>, out: seq<byte>, r: nat)
    requires Tabled(l, Sort(es), out) && LastHas(es, r) && Gap(es) < |es| - 1
    requires Tabled(l, Sort(es'), out) && LastHas(es', r) && |es'| == |es|
    ensures Gap(es') == Gap(es)
  {
    var a := if Gap(es') < Gap(es) then Gap(es') else Gap(es);
    GapShows(l, es, out, r, a);
    GapShows(l, es', out, r, a);
  }

  lemma {:induction false} KeysUpToGap(l: Layout, es: seq<Entry>, out: seq<byte>, r: nat, i: nat)
    requires Tabled(l, Sort(es), out) && LastHas(es, r) && i <= Gap(es)
    ensures |Sort(es)| == |es| && ReadEntry(out, l, i).key <= Sort(es)[Gap(es)].key
  {
    FirstRowBack(l, es, out, r, i);
    assert Sorted(Sort(es)) by {
      SortIsStable(es, 0);
    }
  }

  lemma LastComesLater(es: seq<Entry>, p: nat)
    requires |es| > 0 && Numbered(es, 0) && p < |es| - 1
    requires forall i :: 0 <= i <= p ==> es[i].key <= es[|es| - 1].key
    ensures Gap(es) > p
  {
    RankAtLeast(es, es[|es| - 1], p + 1);
  }

  /** But the short entry of the second pass would have the key of the one in the gap, and come after it. */
  lemma {:induction false} GapsDiffer(l: Layout, es: seq<Entry>, es': seq<Entry>, out: seq<byte>, r: nat)
    requires Tabled(l, Sort(es), out) && LastHas(es, r) && Gap(es) < |es| - 1
    requires Tabled(l, Sort(es'), out) && LastHas(es', r) && es' == ReadEntries(out, l) && |es'| == |es|
    ensures Gap(es') != Gap(es)
  {
    var p := Gap(es);
    if Gap(es') == p {
      FirstRowBack(l, es', out, r, p);
      FirstRowBack(l, es, out, r, p);
      forall i | 0 <= i <= p
        ensures es'[i].key <= es'[|es| - 1].key
      {
        KeysUpToGap(l, es, out, r, i);
      }
      LastComesLater(es', p);
    }
  }

  /** Running the pass on its own result changes nothing exactly when the object is orderly. */
  lemma {:induction false} SecondRunIff(image: seq<byte>, l: Layout)
    requires Separate(image, l)
    ensures Readable(Rewrite(image, l), l)
    ensures Rewrite(Rewrite(image, l), l) == Rewrite(image, l) <==> Orderly(image, l)
  {
    var out := Rewrite(image, l);
    StaysSeparate(image, l, out);
    if Orderly(image, l) {
      SecondRunIsIdentity(image, l);
    } else if Rewrite(out, l) == out {
      var es, es' := ReadEntries(image, l), ReadEntries(out, l);
      var r := l.relocCount - 3 * (|es| - 1);
      ShortObject(image, l);
      ShortObject(out, l);
      GapMoves(image, l);
      RewriteTables(image, l);
      RewriteTables(out, l);
      GapsDiffer(l, es, es', out, r);
      GapsAgree(l, es, es', out, r);
    }
  }

  // ----- Objects that show it -----

  function RowBytes(r: Reloc): (s: seq<byte>)
    ensures |s| == RELOC
  {
    Encode(r.va, 4) + Encode(r.sym, 4) + Encode(r.kind, 2)
  }

  function SymbolBytes(v: nat): (s: seq<byte>)
    ensures |s| == SYMBOL
  {
    Encode(0, 8) + Encode(v, 4) + Encode(0, 6)
  }

  function RelocTable(rows: seq<Reloc>): (r: seq<seq<byte>>)
    ensures |r| == |rows| && Rows(r, RELOC)
  {
    seq(|rows|, k requires 0 <= k < |rows| => RowBytes(rows[k]))
  }

  function SymbolTable(values: seq<nat>): (r: seq<seq<byte>>)
    ensures |r| == |values| && Rows(r, SYMBOL)
  {
    seq(|values|, k requires 0 <= k < |values| => SymbolBytes(values[k]))
  }

  /** The parts of an object that the pass looks at: the section, its relocations and the symbols. */
  function Object(entries: seq<seq<byte>>, rows: seq<Reloc>, values: seq<nat>): seq<byte> {
    Concat(entries) + Concat(RelocTable(rows)) + Concat(SymbolTable(values))
  }

  function ObjectLayout(entries: seq<seq<byte>>, rows: seq<Reloc>, values: seq<nat>): Layout {
    var n, m := ENTRY * |entries|, RELOC * |rows|;
    Layout(0, n, n, |rows|, n + m, |values|)
  }

  ghost predicate Encodable(entries: seq<seq<byte>>, rows: seq<Reloc>, values: seq<nat>) {
    && Rows(entries, ENTRY) && ENTRY * |entries| < Limit(4)
    && (|entries| > 0 ==> 3 * (|entries| - 1) < |rows|)
    && (forall k :: 0 <= k < |rows| ==> rows[k].va < Limit(4) && Bounded(rows[k]))
    && forall k :: 0 <= k < |values| ==> values[k] < Limit(4)
  }

  lemma UnpackRow(r: Reloc)
    requires r.va < Limit(4) && Bounded(r)
    ensures Unpack(RowBytes(r)) == r
  {
    var row := RowBytes(r);
    assert row[..4] == Encode(r.va, 4) && row[4..8] == Encode(r.sym, 4) && row[8..] == Encode(r.kind, 2);
    ValueEncode(r.va, 4);
    ValueEncode(r.sym, 4);
    ValueEncode(r.kind, 2);
  }

  lemma ThreeParts(a: seq<byte>, b: seq<byte>, c: seq<byte>)
    ensures var s := a + b + c;
      Region(s, 0, |a|) == a && Region(s, |a|, |b|) == b && Region(s, |a| + |b|, |c|) == c
  {
  }

  /** An object with these entries, relocations and symbol values. */
  ghost predicate IsObject(image: seq<byte>, l: Layout, entries: seq<seq<byte>>, rows: seq<Reloc>, values: seq<nat>) {
    && Encodable(entries, rows, values) && Separate(image, l) && Count(image, l) == |entries|
    && l.relocCount == |rows| && l.symbolCount == |values|
    && Stands(image, l.raw, entries) && Stands(image, l.relocs, RelocTable(rows))
    && Stands(image, l.symbols, SymbolTable(values))
  }

  lemma ObjectFits(entries: seq<seq<byte>>, rows: seq<Reloc>, values: seq<nat>)
    requires Encodable(entries, rows, values)
    ensures var image, l := Object(entries, rows, values), ObjectLayout(entries, rows, values);
      Separate(image, l) && Count(image, l) == |entries|
  {
    RowsLength(entries, ENTRY);
    RowsLength(RelocTable(rows), RELOC);
    RowsLength(SymbolTable(values), SYMBOL);
  }

  lemma ObjectIs(entries: seq<seq<byte>>, rows: seq<Reloc>, values: seq<nat>)
    requires Encodable(entries, rows, values)
    ensures IsObject(Object(entries, rows, values), ObjectLayout(entries, rows, values), entries, rows, values)
  {
    ObjectFits(entries, rows, values);
    ObjectStands(entries, rows, values);
  }

  lemma ObjectStands(entries: seq<seq<byte>>, rows: seq<Reloc>, values: seq<nat>)
    requires Encodable(entries, rows, values)
    ensures var image, l := Object(entries, rows, values), ObjectLayout(entries, rows, values);
      && Stands(image, l.raw, entries) && Stands(image, l.relocs, RelocTable(rows))
      && Stands(image, l.symbols, SymbolTable(values))
  {
    RowsLength(entries, ENTRY);
    RowsLength(RelocTable(rows), RELOC);
    ThreeParts(Concat(entries), Concat(RelocTable(rows)), Concat(SymbolTable(values)));
  }

  lemma {:induction false} TableReads(image: seq<byte>, at: nat, rows: seq<Reloc>, k: nat)
    requires k < |rows| && Stands(image, at, RelocTable(rows)) && rows[k].va < Limit(4) && Bounded(rows[k])
    ensures Inside(image, at + RELOC * k, RELOC) && ReadReloc(image, at + RELOC * k) == rows[k]
  {
    TableRow(image, at, RelocTable(rows), RELOC, k);
    ReadRelocIsUnpack(image, at + RELOC * k);
    UnpackRow(rows[k]);
  }

  lemma ObjectRow(image: seq<byte>, l: Layout, entries: seq<seq<byte>>, rows: seq<Reloc>, values: seq<nat>, k: nat)
    requires IsObject(image, l, entries, rows, values) && k < |rows|
    ensures Row(image, l, k) == rows[k]
  {
    TableReads(image, l.relocs, rows, k);
  }

  lemma SymbolValue(image: seq<byte>, at: nat, v: nat)
    requires Inside(image, at, SYMBOL) && Region(image, at, SYMBOL) == SymbolBytes(v) && v < Limit(4)
    ensures Number(image, at + 8, 4) == v
  {
    SubRegion(image, at, SYMBOL, 8, 4);
    assert SymbolBytes(v)[8..12] == Encode(v, 4);
    ValueEncode(v, 4);
  }

  lemma ObjectKey(image: seq<byte>, l: Layout, entries: seq<seq<byte>>, rows: seq<Reloc>, values: seq<nat>, sym: nat)
    requires IsObject(image, l, entries, rows, values) && sym < |values|
    ensures Key(image, l, sym) == values[sym]
  {
    TableRow(image, l.symbols, SymbolTable(values), SYMBOL, sym);
    SymbolValue(image, l.symbols + SYMBOL * sym, values[sym]);
  }

  /** Entry `i` is read with the key of the symbol that row `3i` names. */
  lemma ObjectEntry(image: seq<byte>, l: Layout, entries: seq<seq<byte>>, rows: seq<Reloc>, values: seq<nat>, i: nat)
    requires IsObject(image, l, entries, rows, values) && i < |entries| && rows[3 * i].sym < |values|
    ensures ReadEntry(image, l, i).key == values[rows[3 * i].sym]
  {
    ObjectRow(image, l, entries, rows, values, 3 * i);
    ObjectKey(image, l, entries, rows, values, rows[3 * i].sym);
    ShareIsRow(image, l, i, 0);
  }

  /** Two entries; every row names the symbol of the entry it lies in, which has the given value. */
  function TwoEntries(): seq<seq<byte>> {
    [[1, 0, 0, 0, 2, 0, 0, 0, 3, 0, 0, 0], [4, 0, 0, 0, 5, 0, 0, 0, 6, 0, 0, 0]]
  }

  function Rva(i: nat, field: nat): Reloc {
    Reloc(ENTRY * i + 4 * field, i, 3)
  }

  lemma TwoEncodable(rows: seq<Reloc>, values: seq<nat>)
    requires |rows| > 3 && |values| == 2 && values[0] < 10 && values[1] < 10
    requires forall k :: 0 <= k < |rows| ==> rows[k].va < 24 && rows[k].sym < 2 && rows[k].kind == 3
    ensures Encodable(TwoEntries(), rows, values)
  {
    LimitAbove(24, 4);
    LimitAbove(24, 2);
  }

  /** The rows of the two entries stand in each other's place: each is given to the other entry. */
  lemma MisplacedRowsMove() returns (image: seq<byte>, l: Layout)
    ensures Proper(image, l) && Count(image, l) == 2 && l.relocCount == 6
    ensures !LinksKept(image, l, ReadEntries(image, l), Rewrite(image, l))
  {
    var rows := [Rva(1, 0), Rva(1, 1), Rva(1, 2), Rva(0, 0), Rva(0, 1), Rva(0, 2)];
    TwoEncodable(rows, [1, 2]);
    image, l := Object(TwoEntries(), rows, [1, 2]), ObjectLayout(TwoEntries(), rows, [1, 2]);
    ObjectIs(TwoEntries(), rows, [1, 2]);
    ObjectRow(image, l, TwoEntries(), rows, [1, 2], 0);
    StrangerMoves(image, l, 0);
  }

  /** Six rows that name the same symbol, those of the two entries exchanged: each moves, and the table is the same. */
  lemma AlikeRowsChangePlaces() returns (image: seq<byte>, l: Layout)
    ensures Proper(image, l) && Count(image, l) == 2 && l.relocCount == 6
    ensures !LinksKept(image, l, ReadEntries(image, l), Rewrite(image, l))
    ensures TableKept(image, l, ReadEntries(image, l), Rewrite(image, l))
  {
    var rows := AlikeRows();
    TwoEncodable(rows, [1, 2]);
    image, l := Object(TwoEntries(), rows, [1, 2]), ObjectLayout(TwoEntries(), rows, [1, 2]);
    ObjectIs(TwoEntries(), rows, [1, 2]);
    AlikeBag();
    AlikeKept(image, l, rows);
  }

  function AlikeRows(): seq<Reloc> {
    [Reloc(12, 0, 3), Reloc(16, 0, 3), Reloc(20, 0, 3)] + [Reloc(0, 0, 3), Reloc(4, 0, 3), Reloc(8, 0, 3)]
  }

  lemma AlikeBag()
    ensures multiset(Readdressed(AlikeRows())) == multiset(AlikeRows())
  {
    var first := [Reloc(12, 0, 3), Reloc(16, 0, 3), Reloc(20, 0, 3)];
    var second := [Reloc(0, 0, 3), Reloc(4, 0, 3), Reloc(8, 0, 3)];
    assert Readdressed(first + second) == second + first;
  }

  lemma AlikeKept(image: seq<byte>, l: Layout, rows: seq<Reloc>)
    requires IsObject(image, l, TwoEntries(), rows, [1, 2]) && |rows| == 6 && Target(rows[0]) == 1
    requires multiset(Readdressed(rows)) == multiset(rows)
    ensures !LinksKept(image, l, ReadEntries(image, l), Rewrite(image, l))
    ensures TableKept(image, l, ReadEntries(image, l), Rewrite(image, l))
  {
    ObjectRows(image, l, TwoEntries(), rows, [1, 2]);
    ObjectRow(image, l, TwoEntries(), rows, [1, 2], 0);
    StrangerMoves(image, l, 0);
    SortKeepsTable(image, l);
  }

  lemma ObjectRows(image: seq<byte>, l: Layout, entries: seq<seq<byte>>, rows: seq<Reloc>, values: seq<nat>)
    requires IsObject(image, l, entries, rows, values)
    ensures ReadRelocs(image, l) == rows
  {
    var read := ReadRelocs(image, l);
    forall k | 0 <= k < |rows|
      ensures read[k] == rows[k]
    {
      ObjectRow(image, l, entries, rows, values, k);
    }
    assert read == rows;
  }

  /** One row that lies in another entry than its own is enough. */
  lemma StrangerMoves(image: seq<byte>, l: Layout, k: nat)
    requires Separate(image, l) && k < l.relocCount && !InItsEntry(ReadEntries(image, l), k, Row(image, l, k))
    ensures !LinksKept(image, l, ReadEntries(image, l), Rewrite(image, l))
  {
    SortKeepsMeaning(image, l);
  }

  /** A seventh relocation keeps its address while the entry under it moves. */
  lemma SurplusRowStaysBehind() returns (image: seq<byte>, l: Layout)
    ensures Proper(image, l) && Count(image, l) == 2 && l.relocCount == 7
    ensures !LinksKept(image, l, ReadEntries(image, l), Rewrite(image, l))
  {
    var rows := [Rva(0, 0), Rva(0, 1), Rva(0, 2), Rva(1, 0), Rva(1, 1), Rva(1, 2), Rva(0, 0)];
    var values := [5, 1];
    TwoEncodable(rows, values);
    image, l := Object(TwoEntries(), rows, values), ObjectLayout(TwoEntries(), rows, values);
    ObjectIs(TwoEntries(), rows, values);
    SurplusIsLeft(image, l, rows, values);
  }

  lemma SurplusIsLeft(image: seq<byte>, l: Layout, rows: seq<Reloc>, values: seq<nat>)
    requires IsObject(image, l, TwoEntries(), rows, values) && |rows| == 7 && rows[6].va == 0
    requires |values| == 2 && values[1] < values[0] && rows[0].sym == 0 && rows[3].sym == 1
    ensures !LinksKept(image, l, ReadEntries(image, l), Rewrite(image, l))
  {
    ObjectRow(image, l, TwoEntries(), rows, values, 6);
    ObjectEntry(image, l, TwoEntries(), rows, values, 0);
    ObjectEntry(image, l, TwoEntries(), rows, values, 1);
    SecondComesFirst(ReadEntries(image, l));
    StrangerMoves(image, l, 6);
  }

  lemma SecondComesFirst(es: seq<Entry>)
    requires |es| == 2 && es[1].key < es[0].key
    ensures Rank(es, es[0]) == 1
  {
    assert Rank(es[1..], es[0]) == 1;
  }

  /** Two entries in the wrong order, the last relocation missing: a reader by threes mixes them up. */
  lemma ShortTableGetsMixed() returns (image: seq<byte>, l: Layout)
    ensures Separate(image, l) && Count(image, l) == 2 && l.relocCount == 5
    ensures var sorted := Sort(ReadEntries(image, l));
      Chunks(RelocRows(sorted, 0)) != GroupRows(sorted, 0)
  {
    var rows := [Rva(0, 0), Rva(0, 1), Rva(0, 2), Rva(1, 0), Rva(1, 1)];
    var values := [5, 1];
    TwoEncodable(rows, values);
    image, l := Object(TwoEntries(), rows, values), ObjectLayout(TwoEntries(), rows, values);
    ObjectIs(TwoEntries(), rows, values);
    ObjectEntry(image, l, TwoEntries(), rows, values, 0);
    ObjectEntry(image, l, TwoEntries(), rows, values, 1);
    ReadAsRead(image, l);
    var es := ReadEntries(image, l);
    assert es[..1][0].key > es[1].key;
    ShortTableSurvives(es[..1], es[1]);
  }
}
