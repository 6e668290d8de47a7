/**
  The bundle of output files: a table of sizes and paths, then the contents one after another, the
  entrypoint first. A reader goes by the sizes, so contents may hold anything.
 */
module Bundle {
  import opened Prelude

  /** An output file; `shown` is its path from the project root, as the bundle shows it. */
  datatype OutputFile = OutputFile(path: seq<byte>, shown: seq<byte>, contents: seq<byte>)

  // ----- Order -----

  /** The last file with that path. */
  function LastIndex(files: seq<OutputFile>, path: seq<byte>, n: nat): (r: Option<nat>)
    requires n <= |files|
    ensures r.Some? ==> r.value < n && files[r.value].path == path
    ensures forall k :: 0 <= k < n && (r.None? || r.value < k) ==> files[k].path != path
  {
    if n == 0 then None
    else if files[n - 1].path == path then Some(n - 1)
    else LastIndex(files, path, n - 1)
  }

  /** The files before `n` that are neither of the two. */
  function Rest(files: seq<OutputFile>, a: nat, b: Option<nat>, n: nat): seq<OutputFile>
    requires n <= |files|
  {
    if n == 0 then []
    else if n - 1 == a || Some(n - 1) == b then Rest(files, a, b, n - 1)
    else Rest(files, a, b, n - 1) + [files[n - 1]]
  }

  function Entrypoint(files: seq<OutputFile>, a: nat, b: Option<nat>): (r: seq<OutputFile>)
    requires a < |files| && (b.Some? ==> b.value < |files|)
  {
    if b.None? then [files[a]] else [files[a], files[b.value]]
  }

  function Order(files: seq<OutputFile>, js: seq<byte>, sourceMap: seq<byte>): Result<seq<OutputFile>> {
    match LastIndex(files, js, |files|)
    case None => Err
    case Some(a) =>
      var b := LastIndex(files, sourceMap, |files|);
      Ok(Entrypoint(files, a, b) + Rest(files, a, b, |files|))
  }

  /** The other way round: the ones before `n` that are one of the two. */
  ghost function Taken(files: seq<OutputFile>, a: nat, b: Option<nat>, n: nat): multiset<OutputFile>
    requires n <= |files|
  {
    if n == 0 then multiset{}
    else if n - 1 == a || Some(n - 1) == b then Taken(files, a, b, n - 1) + multiset{files[n - 1]}
    else Taken(files, a, b, n - 1)
  }

  lemma SnocBag(front: seq<OutputFile>, f: OutputFile)
    ensures multiset(front + [f]) == multiset(front) + multiset{f}
  {
  }

  lemma PrefixBag(files: seq<OutputFile>, k: nat)
    requires k < |files|
    ensures multiset(files[..k + 1]) == multiset(files[..k]) + multiset{files[k]}
  {
    assert files[..k + 1] == files[..k] + [files[k]];
    SnocBag(files[..k], files[k]);
  }

  lemma RestBag(files: seq<OutputFile>, a: nat, b: Option<nat>, k: nat)
    requires k < |files|
    ensures multiset(Rest(files, a, b, k + 1)) + Taken(files, a, b, k + 1)
         == multiset(Rest(files, a, b, k)) + Taken(files, a, b, k) + multiset{files[k]}
  {
    SnocBag(Rest(files, a, b, k), files[k]);
  }

  ghost predicate Split(files: seq<OutputFile>, a: nat, b: Option<nat>, n: nat)
    requires n <= |files|
  {
    multiset(files[..n]) == multiset(Rest(files, a, b, n)) + Taken(files, a, b, n)
  }

  lemma {:induction false} SplitStep(files: seq<OutputFile>, a: nat, b: Option<nat>, k: nat)
    requires k < |files| && Split(files, a, b, k)
    ensures Split(files, a, b, k + 1)
  {
    PrefixBag(files, k);
    RestBag(files, a, b, k);
  }

  lemma {:induction false} RestKeeps(files: seq<OutputFile>, a: nat, b: Option<nat>, n: nat)
    requires n <= |files|
    ensures Split(files, a, b, n)
  {
    if n == 0 {
      assert files[..0] == [];
    } else {
      RestKeeps(files, a, b, n - 1);
      SplitStep(files, a, b, n - 1);
    }
  }

  /** The file at `k`, if it is one of the first `n`. */
  ghost function One(files: seq<OutputFile>, k: Option<nat>, n: nat): multiset<OutputFile>
    requires n <= |files|
  {
    if k.Some? && k.value < n then multiset([files[k.value]]) else multiset{}
  }

  lemma OneStep(files: seq<OutputFile>, k: Option<nat>, n: nat)
    requires n < |files|
    ensures One(files, k, n + 1) == if k == Some(n) then multiset{files[n]} else One(files, k, n)
    ensures k == Some(n) ==> One(files, k, n) == multiset{}
  {
  }

  lemma OneGrows(x: multiset<OutputFile>, y: multiset<OutputFile>, f: OutputFile, isX: bool, isY: bool)
    requires (isX ==> x == multiset{}) && (isY ==> y == multiset{}) && !(isX && isY)
    ensures (if isX || isY then x + y + multiset{f} else x + y)
         == (if isX then multiset{f} else x) + (if isY then multiset{f} else y)
  {
  }

  lemma {:induction false} TakenIs(files: seq<OutputFile>, a: nat, b: Option<nat>, n: nat)
    requires n <= |files| && Some(a) != b
    ensures Taken(files, a, b, n) == One(files, Some(a), n) + One(files, b, n)
  {
    if n > 0 {
      var k: nat := n - 1;
      TakenIs(files, a, b, k);
      OneStep(files, Some(a), k);
      OneStep(files, b, k);
      OneGrows(One(files, Some(a), k), One(files, b, k), files[k], k == a, Some(k) == b);
    }
  }

  /** The files that are neither the entrypoint nor its map, by path. */
  function Others(files: seq<OutputFile>, js: seq<byte>, sourceMap: seq<byte>, n: nat): seq<OutputFile>
    requires n <= |files|
  {
    if n == 0 then []
    else if files[n - 1].path == js || files[n - 1].path == sourceMap then Others(files, js, sourceMap, n - 1)
    else Others(files, js, sourceMap, n - 1) + [files[n - 1]]
  }

  lemma {:induction false} OthersPrefix(files: seq<OutputFile>, f: OutputFile, js: seq<byte>, sourceMap: seq<byte>,
                                        n: nat)
    requires n <= |files|
    ensures Others(files + [f], js, sourceMap, n) == Others(files, js, sourceMap, n)
  {
    if n > 0 {
      OthersPrefix(files, f, js, sourceMap, n - 1);
    }
  }

  lemma OthersSnoc(files: seq<OutputFile>, f: OutputFile, js: seq<byte>, sourceMap: seq<byte>)
    ensures Others(files + [f], js, sourceMap, |files| + 1) ==
      Others(files, js, sourceMap, |files|) + if f.path == js || f.path == sourceMap then [] else [f]
  {
    OthersPrefix(files, f, js, sourceMap, |files|);
  }

  lemma {:induction false} RestKeepsOrder(files: seq<OutputFile>, a: nat, b: Option<nat>, js: seq<byte>,
                                          sourceMap: seq<byte>, n: nat)
    requires n <= |files| && (a < n ==> files[a].path == js)
    requires b.Some? && b.value < n ==> files[b.value].path == sourceMap
    ensures var rest := Rest(files, a, b, n);
      Others(rest, js, sourceMap, |rest|) == Others(files, js, sourceMap, n)
  {
    if n > 0 {
      RestKeepsOrder(files, a, b, js, sourceMap, n - 1);
      OthersSnoc(Rest(files, a, b, n - 1), files[n - 1], js, sourceMap);
    }
  }

  lemma EntrypointBag(files: seq<OutputFile>, a: nat, b: Option<nat>)
    requires a < |files| && (b.Some? ==> b.value < |files|)
    ensures multiset(Entrypoint(files, a, b)) == One(files, Some(a), |files|) + One(files, b, |files|)
  {
  }

  lemma SameBags(files: seq<OutputFile>, first: seq<OutputFile>, rest: seq<OutputFile>)
    requires multiset(files) == multiset(rest) + multiset(first)
    ensures multiset(first + rest) == multiset(files) && |first + rest| == |files|
  {
    assert |multiset(first + rest)| == |multiset(files)|;
  }

  lemma OrderPermutes(files: seq<OutputFile>, a: nat, b: Option<nat>)
    requires a < |files| && (b.Some? ==> b.value < |files|) && Some(a) != b
    ensures var out := Entrypoint(files, a, b) + Rest(files, a, b, |files|);
      multiset(out) == multiset(files) && |out| == |files|
  {
    var n := |files|;
    var first, rest := Entrypoint(files, a, b), Rest(files, a, b, n);
    RestKeeps(files, a, b, n);
    TakenIs(files, a, b, n);
    assert files[..n] == files;
    EntrypointBag(files, a, b);
    SameBags(files, first, rest);
  }

  /** The entrypoint comes first and its map second; nothing is lost or added. */
  lemma OrderIsRight(files: seq<OutputFile>, js: seq<byte>, sourceMap: seq<byte>)
    requires js != sourceMap
    ensures Order(files, js, sourceMap).Ok? <==> exists k :: 0 <= k < |files| && files[k].path == js
    ensures Order(files, js, sourceMap).Ok? ==>
      var out := Order(files, js, sourceMap).value;
      && |out| == |files| && multiset(out) == multiset(files) && out[0].path == js
      && ((exists k :: 0 <= k < |files| && files[k].path == sourceMap) ==> |out| > 1 && out[1].path == sourceMap)
  {
    var a, b := LastIndex(files, js, |files|), LastIndex(files, sourceMap, |files|);
    if a.Some? {
      OrderPermutes(files, a.value, b);
    }
  }

  /** The files with other paths keep their order. */
  lemma OrderKeepsOthers(files: seq<OutputFile>, js: seq<byte>, sourceMap: seq<byte>)
    requires Order(files, js, sourceMap).Ok?
    ensures var out := Order(files, js, sourceMap).value;
      Others(out, js, sourceMap, |out|) == Others(files, js, sourceMap, |files|)
  {
    var a, b := LastIndex(files, js, |files|).value, LastIndex(files, sourceMap, |files|);
    var first, rest := Entrypoint(files, a, b), Rest(files, a, b, |files|);
    RestKeepsOrder(files, a, b, js, sourceMap, |files|);
    OthersSkip(first, rest, js, sourceMap, |rest|);
  }

  lemma {:induction false} OthersSkip(first: seq<OutputFile>, rest: seq<OutputFile>, js: seq<byte>,
                                      sourceMap: seq<byte>, n: nat)
    requires n <= |rest| && 1 <= |first| <= 2
    requires forall k :: 0 <= k < |first| ==> first[k].path == js || first[k].path == sourceMap
    ensures Others(first + rest, js, sourceMap, |first| + n) == Others(rest, js, sourceMap, n)
    decreases n
  {
    if n > 0 {
      OthersSkip(first, rest, js, sourceMap, n - 1);
    } else {
      assert Others(first + rest, js, sourceMap, 1) == [];
    }
  }

  method OrderFiles(files: seq<OutputFile>, js: seq<byte>, sourceMap: seq<byte>) returns (r: Result<seq<OutputFile>>)
    ensures r == Order(files, js, sourceMap)
  {
    var a: Option<nat>, b: Option<nat> := None, None;
    for i := 0 to |files|
      invariant a == LastIndex(files, js, i) && b == LastIndex(files, sourceMap, i)
    {
      if files[i].path == js {
        a := Some(i);
      }
      if files[i].path == sourceMap {
        b := Some(i);
      }
    }
    if a.None? {
      return Err;
    }
    var out := [files[a.value]];
    if b.Some? {
      out := out + [files[b.value]];
    }
    assert out == Entrypoint(files, a.value, b);
    ghost var first := out;
    for i := 0 to |files|
      invariant out == first + Rest(files, a.value, b, i)
    {
      if i != a.value && Some(i) != b {
        out := out + [files[i]];
      }
    }
    r := Ok(out);
  }

  // ----- Writing -----

  const SPACE: byte := 0x20
  const SLASH: byte := 0x2f
  const NEWLINE: byte := 0x0a

  // U+1F4E6 and U+2704 in UTF-8, with their newlines
  const BOX: seq<byte> := [0xf0, 0x9f, 0x93, 0xa6, 0x0a]
  const SCISSORS: seq<byte> := [0xe2, 0x9c, 0x84, 0x0a]
  const SEPARATOR: seq<byte> := [0x0a, 0xe2, 0x9c, 0x84, 0x0a]

  function Decimal(n: nat): (s: seq<byte>)
    ensures |s| > 0 && forall k :: 0 <= k < |s| ==> 48 <= s[k] < 58
  {
    if n < 10 then [(48 + n) as byte] else Decimal(n / 10) + [(48 + n % 10) as byte]
  }

  function Line(f: OutputFile): (s: seq<byte>)
    ensures |s| > 0 && 48 <= s[0] < 58
  {
    Decimal(|f.contents|) + [SPACE] + [SLASH] + f.shown + [NEWLINE]
  }

  /** The lines of the files from `i` on, before `rest`. */
  function Lines(files: seq<OutputFile>, i: nat, rest: seq<byte>): seq<byte>
    requires i <= |files|
    decreases |files| - i
  {
    if i == |files| then rest else Line(files[i]) + Lines(files, i + 1, rest)
  }

  function Bodies(files: seq<OutputFile>, i: nat): seq<byte>
    requires i <= |files|
    decreases |files| - i
  {
    if i == |files| then []
    else if i == |files| - 1 then files[i].contents
    else files[i].contents + (SEPARATOR + Bodies(files, i + 1))
  }

  function Write(files: seq<OutputFile>): seq<byte> {
    BOX + Lines(files, 0, SCISSORS + Bodies(files, 0))
  }

  lemma Regroup(a: seq<byte>, b: seq<byte>, c: seq<byte>)
    ensures a + (b + c) == a + b + c
  {
  }

  method WriteFiles(files: seq<OutputFile>) returns (text: seq<byte>)
    ensures text == Write(files)
  {
    ghost var all := Write(files);
    ghost var tail := SCISSORS + Bodies(files, 0);
    text := BOX;
    for i := 0 to |files|
      invariant text + Lines(files, i, tail) == all
    {
      Regroup(text, Line(files[i]), Lines(files, i + 1, tail));
      text := text + Line(files[i]);
    }
    Regroup(text, SCISSORS, Bodies(files, 0));
    text := text + SCISSORS;
    for i := 0 to |files|
      invariant text + Bodies(files, i) == all
    {
      text := WriteBody(text, files, i);
    }
  }

  method WriteBody(text: seq<byte>, files: seq<OutputFile>, i: nat) returns (r: seq<byte>)
    requires i < |files|
    ensures r + Bodies(files, i + 1) == text + Bodies(files, i)
  {
    r := text + files[i].contents;
    if i < |files| - 1 {
      Regroup(text, files[i].contents, SEPARATOR + Bodies(files, i + 1));
      Regroup(r, SEPARATOR, Bodies(files, i + 1));
      r := r + SEPARATOR;
    }
  }

  /** The bundle, or a panic when the entrypoint is not among the files. */
  method MakeBundle(files: seq<OutputFile>, js: seq<byte>, sourceMap: seq<byte>) returns (r: Result<seq<byte>>)
    ensures r.Err? <==> Order(files, js, sourceMap).Err?
    ensures r.Ok? ==> r.value == Write(Order(files, js, sourceMap).value)
    ensures r.Ok? && js != sourceMap ==>
      (Read(r.value) == Some(Listed(Order(files, js, sourceMap).value, 0)) <==> AllOneLine(files))
  {
    var ordered := OrderFiles(files, js, sourceMap);
    if ordered.Err? {
      return Err;
    }
    var text := WriteFiles(ordered.value);
    if js != sourceMap {
      BundleReads(files, js, sourceMap);
    }
    r := Ok(text);
  }

  // ----- Reading -----

  /** The first index of `b` from `i` on, or the length. */
  function Until(s: seq<byte>, b: byte, i: nat): (k: nat)
    requires i <= |s|
    ensures i <= k <= |s| && (k < |s| ==> s[k] == b) && forall j :: i <= j < k ==> s[j] != b
    decreases |s| - i
  {
    if i == |s| || s[i] == b then i else Until(s, b, i + 1)
  }

  function DecimalValue(s: seq<byte>): Option<nat> {
    if s == [] then Some(0)
    else
      var front, last := DecimalValue(s[..|s| - 1]), s[|s| - 1];
      if front.None? || last < 48 || last >= 58 then None else Some(10 * front.value + (last as nat - 48))
  }

  datatype Entry = Entry(size: nat, path: seq<byte>)

  datatype Item = Item(path: seq<byte>, contents: seq<byte>)

  datatype Table = Table(entries: List<Entry>, rest: seq<byte>)

  function StartsWith(s: seq<byte>, prefix: seq<byte>): bool {
    |prefix| <= |s| && s[..|prefix|] == prefix
  }

  /** One line: its entry and what follows it. */
  function ReadLine(s: seq<byte>): (r: Option<(Entry, seq<byte>)>)
    ensures r.Some? ==> |r.value.1| < |s|
  {
    var space := Until(s, SPACE, 0);
    if space == 0 || space + 1 >= |s| || s[space + 1] != SLASH then None
    else
      var end := Until(s, NEWLINE, space + 2);
      var size := DecimalValue(s[..space]);
      if end == |s| || size.None? then None else Some((Entry(size.value, s[space + 2..end]), s[end + 1..]))
  }

  function ReadTable(s: seq<byte>): Option<Table>
    decreases |s|
  {
    if StartsWith(s, SCISSORS) then Some(Table(Nil, s[|SCISSORS|..]))
    else
      match ReadLine(s)
      case None => None
      case Some((entry, rest)) =>
        match ReadTable(rest)
        case None => None
        case Some(table) => Some(Table(Cons(entry, table.entries), table.rest))
  }

  function ReadBodies(entries: List<Entry>, s: seq<byte>): Option<List<Item>> {
    match entries
    case Nil => if s == [] then Some(Nil) else None
    case Cons(e, Nil) => if |s| == e.size then Some(Cons(Item(e.path, s), Nil)) else None
    case Cons(e, more) =>
      if |s| < e.size || !StartsWith(s[e.size..], SEPARATOR) then None
      else
        match ReadBodies(more, s[e.size..][|SEPARATOR|..])
        case None => None
        case Some(items) => Some(Cons(Item(e.path, s[..e.size]), items))
  }

  function Read(s: seq<byte>): Option<List<Item>> {
    if !StartsWith(s, BOX) then None
    else
      match ReadTable(s[|BOX|..])
      case None => None
      case Some(table) => ReadBodies(table.entries, table.rest)
  }

  // ----- Round trip -----

  lemma {:induction false} DecimalReads(n: nat)
    ensures DecimalValue(Decimal(n)) == Some(n)
  {
    if n >= 10 {
      DecimalReads(n / 10);
      var s := Decimal(n);
      assert s[..|s| - 1] == Decimal(n / 10);
    } else {
      assert Decimal(n)[..0] == [];
    }
  }

  lemma UntilIs(s: seq<byte>, b: byte, i: nat, k: nat)
    requires i <= k < |s| && s[k] == b && forall j :: i <= j < k ==> s[j] != b
    ensures Until(s, b, i) == k
  {
  }

  ghost predicate OneLine(path: seq<byte>) {
    forall k :: 0 <= k < |path| ==> path[k] != NEWLINE
  }

  /** A byte is found behind a part that is free of it. */
  lemma FoundAfter(s: seq<byte>, at: nat, part: seq<byte>, b: byte)
    requires at + |part| < |s| && s[at..at + |part|] == part && s[at + |part|] == b && b !in part
    ensures Until(s, b, at) == at + |part|
  {
    forall j | at <= j < at + |part|
      ensures s[j] != b
    {
      assert s[j] == part[j - at];
    }
    UntilIs(s, b, at, at + |part|);
  }

  lemma LineParts(d: seq<byte>, shown: seq<byte>, rest: seq<byte>, s: seq<byte>)
    requires s == d + [SPACE] + [SLASH] + shown + [NEWLINE] + rest
    ensures var end := |d| + 2 + |shown|;
      && |s| > end && s[..|d|] == s[0..|d|] == d && s[|d|] == SPACE && s[|d| + 1] == SLASH
      && s[|d| + 2..end] == shown && s[end] == NEWLINE && s[end + 1..] == rest
  {
  }

  lemma LineReads(f: OutputFile, rest: seq<byte>)
    requires OneLine(f.shown)
    ensures ReadLine(Line(f) + rest) == Some((Entry(|f.contents|, f.shown), rest))
    ensures !StartsWith(Line(f) + rest, SCISSORS)
  {
    var d := Decimal(|f.contents|);
    var s := Line(f) + rest;
    DecimalReads(|f.contents|);
    PartsRead(d, |f.contents|, f.shown, rest, s);
    DigitFirst(s);
  }

  lemma PartsRead(d: seq<byte>, n: nat, shown: seq<byte>, rest: seq<byte>, s: seq<byte>)
    requires d != [] && SPACE !in d && OneLine(shown) && DecimalValue(d) == Some(n)
    requires s == d + [SPACE] + [SLASH] + shown + [NEWLINE] + rest
    ensures ReadLine(s) == Some((Entry(n, shown), rest))
  {
    LineParts(d, shown, rest, s);
    FoundAfter(s, 0, d, SPACE);
    FoundAfter(s, |d| + 2, shown, NEWLINE);
  }

  lemma DigitFirst(s: seq<byte>)
    requires |s| > 0 && 48 <= s[0] < 58
    ensures !StartsWith(s, SCISSORS)
  {
    if |s| >= |SCISSORS| {
      assert s[..|SCISSORS|][0] == s[0];
    }
  }

  function Entries(files: seq<OutputFile>, i: nat): List<Entry>
    requires i <= |files|
    decreases |files| - i
  {
    if i == |files| then Nil else Cons(Entry(|files[i].contents|, files[i].shown), Entries(files, i + 1))
  }

  function Listed(files: seq<OutputFile>, i: nat): List<Item>
    requires i <= |files|
    decreases |files| - i
  {
    if i == |files| then Nil else Cons(Item(files[i].shown, files[i].contents), Listed(files, i + 1))
  }

  ghost predicate AllOneLine(files: seq<OutputFile>) {
    forall k :: 0 <= k < |files| ==> OneLine(files[k].shown)
  }

  lemma TableEnds(body: seq<byte>)
    ensures ReadTable(SCISSORS + body) == Some(Table(Nil, body))
  {
    var tail := SCISSORS + body;
    assert tail[..|SCISSORS|] == SCISSORS && tail[|SCISSORS|..] == body;
  }

  lemma TableStep(f: OutputFile, s: seq<byte>, t: seq<byte>, table: Table)
    requires OneLine(f.shown) && ReadTable(s) == Some(table) && t == Line(f) + s
    ensures ReadTable(t) == Some(Table(Cons(Entry(|f.contents|, f.shown), table.entries), table.rest))
  {
    LineReads(f, s);
  }

  lemma {:induction false} TableReads(files: seq<OutputFile>, i: nat, tail: seq<byte>, body: seq<byte>, text: seq<byte>)
    requires i <= |files| && AllOneLine(files)
    requires ReadTable(tail) == Some(Table(Nil, body)) && text == Lines(files, i, tail)
    ensures ReadTable(text) == Some(Table(Entries(files, i), body))
    decreases |files| - i
  {
    if i < |files| {
      var rest := Lines(files, i + 1, tail);
      TableReads(files, i + 1, tail, body, rest);
      TableStep(files[i], rest, text, Table(Entries(files, i + 1), body));
    }
  }

  lemma BodySplits(contents: seq<byte>, rest: seq<byte>)
    ensures var s := contents + (SEPARATOR + rest);
      && s[..|contents|] == contents && StartsWith(s[|contents|..], SEPARATOR)
      && s[|contents|..][|SEPARATOR|..] == rest
  {
    var s := contents + (SEPARATOR + rest);
    assert s[|contents|..] == SEPARATOR + rest;
  }

  lemma {:induction false} BodiesRead(files: seq<OutputFile>, i: nat)
    requires i <= |files|
    ensures ReadBodies(Entries(files, i), Bodies(files, i)) == Some(Listed(files, i))
    decreases |files| - i
  {
    if i + 1 == |files| {
      assert Entries(files, i + 1) == Nil && Listed(files, i + 1) == Nil;
    } else if i < |files| {
      BodiesRead(files, i + 1);
      BodySplits(files[i].contents, Bodies(files, i + 1));
      assert Entries(files, i + 1).Cons?;
    }
  }

  ghost predicate EntriesOneLine(entries: List<Entry>) {
    entries.Cons? ==> OneLine(entries.head.path) && EntriesOneLine(entries.tail)
  }

  ghost predicate ItemsOneLine(items: List<Item>) {
    items.Cons? ==> OneLine(items.head.path) && ItemsOneLine(items.tail)
  }

  lemma {:induction false} TableIsOneLine(s: seq<byte>)
    requires ReadTable(s).Some?
    ensures EntriesOneLine(ReadTable(s).value.entries)
    decreases |s|
  {
    if !StartsWith(s, SCISSORS) {
      var space := Until(s, SPACE, 0);
      var end := Until(s, NEWLINE, space + 2);
      var path := s[space + 2..end];
      assert forall k :: 0 <= k < |path| ==> path[k] == s[space + 2 + k];
      TableIsOneLine(ReadLine(s).value.1);
    }
  }

  lemma {:induction false} BodiesAreOneLine(entries: List<Entry>, s: seq<byte>)
    requires EntriesOneLine(entries) && ReadBodies(entries, s).Some?
    ensures ItemsOneLine(ReadBodies(entries, s).value)
    decreases entries
  {
    if entries.Cons? && entries.tail.Cons? {
      BodiesAreOneLine(entries.tail, s[entries.head.size..][|SEPARATOR|..]);
    }
  }

  /** Whatever the text, the reader gives no path with a newline. */
  lemma ReadIsOneLine(s: seq<byte>)
    requires Read(s).Some?
    ensures ItemsOneLine(Read(s).value)
  {
    TableIsOneLine(s[|BOX|..]);
    var table := ReadTable(s[|BOX|..]).value;
    BodiesAreOneLine(table.entries, table.rest);
  }

  lemma {:induction false} ListedOneLine(files: seq<OutputFile>, i: nat)
    requires i <= |files| && ItemsOneLine(Listed(files, i))
    ensures forall k :: i <= k < |files| ==> OneLine(files[k].shown)
    decreases |files| - i
  {
    if i < |files| {
      ListedOneLine(files, i + 1);
    }
  }

  lemma OneLineReads(files: seq<OutputFile>)
    requires AllOneLine(files)
    ensures Read(Write(files)) == Some(Listed(files, 0))
  {
    var s := Write(files);
    var tail := SCISSORS + Bodies(files, 0);
    TableEnds(Bodies(files, 0));
    TableReads(files, 0, tail, Bodies(files, 0), Lines(files, 0, tail));
    BodiesRead(files, 0);
    assert s[..|BOX|] == BOX && s[|BOX|..] == Lines(files, 0, tail);
  }

  /** Whatever the contents, the reader finds every file again, in order, exactly when no path has a newline. */
  lemma RoundTrip(files: seq<OutputFile>)
    ensures Read(Write(files)) == Some(Listed(files, 0)) <==> AllOneLine(files)
  {
    if AllOneLine(files) {
      OneLineReads(files);
    }
    if Read(Write(files)) == Some(Listed(files, 0)) {
      ReadIsOneLine(Write(files));
      ListedOneLine(files, 0);
    }
  }

  /** A path that is a newline is not recovered. */
  lemma NewlineInPathIsLost()
    ensures var files := [OutputFile([], [NEWLINE], [])];
      Read(Write(files)) != Some(Listed(files, 0))
  {
    var files := [OutputFile([], [NEWLINE], [])];
    assert files[0].shown[0] == NEWLINE;
    RoundTrip(files);
  }

  lemma SameFilesOneLine(a: seq<OutputFile>, b: seq<OutputFile>)
    requires multiset(a) == multiset(b) && AllOneLine(a)
    ensures AllOneLine(b)
  {
    forall k | 0 <= k < |b|
      ensures OneLine(b[k].shown)
    {
      assert b[k] in multiset(a);
    }
  }

  /**
    The bundle from end to end: entrypoint first, its map second if there is one, the others in their order,
    all of them and no more, and a reader recovers them so exactly when no shown path has a newline.
   */
  lemma BundleReads(files: seq<OutputFile>, js: seq<byte>, sourceMap: seq<byte>)
    requires js != sourceMap && Order(files, js, sourceMap).Ok?
    ensures var out := Order(files, js, sourceMap).value;
      && multiset(out) == multiset(files) && |out| == |files| && out[0].path == js
      && ((exists k :: 0 <= k < |files| && files[k].path == sourceMap) ==> |out| > 1 && out[1].path == sourceMap)
      && Others(out, js, sourceMap, |out|) == Others(files, js, sourceMap, |files|)
      && (Read(Write(out)) == Some(Listed(out, 0)) <==> AllOneLine(files))
  {
    var out := Order(files, js, sourceMap).value;
    OrderIsRight(files, js, sourceMap);
    OrderKeepsOthers(files, js, sourceMap);
    RoundTrip(out);
    if AllOneLine(files) {
      SameFilesOneLine(files, out);
    }
    if AllOneLine(out) {
      SameFilesOneLine(out, files);
    }
  }
}
