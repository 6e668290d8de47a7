/**
  The trie of the symbol replacer, built of heap nodes, and the pass that rewrites an archive with it.
  The reference is a plain map from patterns to replacements.
 */
module Trie {
  import opened Prelude

  /** A pattern, as the path its bytes spell from the root. */
  datatype Path = Root | To(parent: Path, b: byte)

  type Entries = map<Path, seq<byte>>

  /** The path of the `k` bytes of `data` after `start`. */
  function At(data: seq<byte>, start: nat, k: nat): Path
    requires start + k <= |data|
  {
    if k == 0 then Root else To(At(data, start, k - 1), data[start + k - 1])
  }

  function Spell(pattern: seq<byte>): Path {
    At(pattern, 0, |pattern|)
  }

  /** A stretch of the data and a pattern spell the same path exactly when they are equal. */
  lemma {:induction false} AtIsSpell(data: seq<byte>, start: nat, k: nat, pattern: seq<byte>)
    requires start + k <= |data|
    ensures At(data, start, k) == Spell(pattern) <==> data[start..start + k] == pattern
    decreases k
  {
    if k > 0 && |pattern| > 0 {
      var front := pattern[..|pattern| - 1];
      AtIsSpell(data, start, k - 1, front);
      AtPrefix(pattern, |pattern| - 1);
      assert data[start..start + k] == data[start..start + k - 1] + [data[start + k - 1]];
      assert pattern == front + [pattern[|pattern| - 1]];
    }
  }

  lemma {:induction false} AtPrefix(pattern: seq<byte>, k: nat)
    requires k <= |pattern|
    ensures At(pattern, 0, k) == Spell(pattern[..k])
  {
    AtAgrees(pattern, pattern[..k], k);
  }

  lemma {:induction false} AtAgrees(a: seq<byte>, b: seq<byte>, k: nat)
    requires k <= |a| && k <= |b| && forall j :: 0 <= j < k ==> a[j] == b[j]
    ensures At(a, 0, k) == At(b, 0, k)
  {
    if k > 0 {
      AtAgrees(a, b, k - 1);
    }
  }

  /** The length of the longest entry of at most `k` bytes that stands at `start`; 0 if there is none. */
  function LongestUpTo(e: Entries, data: seq<byte>, start: nat, k: nat): (r: nat)
    requires start + k <= |data|
    ensures r <= k && (r > 0 ==> At(data, start, r) in e)
  {
    if k == 0 || At(data, start, k) in e then k else LongestUpTo(e, data, start, k - 1)
  }

  function Longest(e: Entries, data: seq<byte>, start: nat): (r: nat)
    ensures r > 0 ==> start + r <= |data| && At(data, start, r) in e
  {
    if start >= |data| then 0 else LongestUpTo(e, data, start, |data| - start)
  }

  /** It is an entry, and no longer one stands there. */
  lemma {:induction false} LongestIsMaximal(e: Entries, data: seq<byte>, start: nat, m: nat, k: nat)
    requires start + m <= |data| && LongestUpTo(e, data, start, m) < k <= m
    ensures At(data, start, k) !in e
    decreases m
  {
    if k < m {
      LongestIsMaximal(e, data, start, m - 1, k);
    }
  }

  /** No pattern in the table that starts at `start` is longer, and the match is one of them. */
  lemma LongestIsLongestPattern(e: Entries, data: seq<byte>, start: nat, pattern: seq<byte>)
    requires start <= |data| && pattern <= data[start..]
    ensures Spell(pattern) in e ==> |pattern| <= Longest(e, data, start)
    ensures var n := Longest(e, data, start);
      n > 0 ==> Spell(data[start..start + n]) in e
  {
    var n := Longest(e, data, start);
    if n > 0 {
      AtIsSpell(data, start, n, data[start..start + n]);
    }
    assert data[start..start + |pattern|] == data[start..][..|pattern|];
    AtIsSpell(data, start, |pattern|, pattern);
    if |pattern| > n {
      LongestIsMaximal(e, data, start, |data| - start, |pattern|);
    }
  }

  class Node {
    var children: map<byte, Node>
    var isEnd: bool
    var replacement: seq<byte>
    /** The path that leads here. */
    ghost const path: Path

    constructor (ghost path: Path)
      ensures children == map[] && !isEnd && replacement == [] && this.path == path
    {
      children, isEnd, replacement := map[], false, [];
      this.path := path;
    }
  }

  class Tree {
    const root: Node
    /** The node at the end of each path from the root. */
    ghost var nodes: map<Path, Node>
    ghost var repr: set<Node>
    /** The patterns that end at a node, with their replacements. */
    ghost var entries: Entries

    /** The paths are closed under prefixes and follow the children; each node knows its own. */
    ghost predicate Linked()
      reads this, repr
    {
      && (forall p {:trigger nodes[p]} :: p in nodes ==> nodes[p] in repr)
      && Root in nodes && nodes[Root] == root
      && (forall p {:trigger nodes[p].path} :: p in nodes ==> nodes[p].path == p)
      && (forall p, b {:trigger To(p, b) in nodes, p in nodes} :: To(p, b) in nodes ==>
        p in nodes && b in nodes[p].children && nodes[p].children[b] == nodes[To(p, b)])
      && (forall p, b {:trigger b in nodes[p].children} :: p in nodes && b in nodes[p].children ==> To(p, b) in nodes)
    }

    ghost predicate Valid()
      reads this, repr
    {
      && Linked()
      && (forall p {:trigger p in entries} :: p in entries ==> p in nodes)
      && (forall p {:trigger nodes[p].isEnd} :: p in nodes ==> (nodes[p].isEnd <==> p in entries))
      && (forall p {:trigger nodes[p].replacement} :: p in nodes && p in entries ==> nodes[p].replacement == entries[p])
    }

    constructor ()
      ensures Valid() && entries == map[] && fresh(repr)
    {
      root := new Node(Root);
      nodes, repr, entries := map[Root := root], {root}, map[];
    }

    lemma PathsDiffer(path: Path, p: Path)
      requires Linked() && path in nodes && p in nodes && nodes[p] == nodes[path]
      ensures p == path
    {
      assert nodes[p].path == p && nodes[path].path == path;
    }

    /** Adds the missing child of the node at `path`. */
    method AddChild(node: Node, b: byte, ghost path: Path)
      requires Valid() && path in nodes && nodes[path] == node && b !in node.children
      modifies this`nodes, this`repr, node`children
      ensures Valid() && b in node.children && fresh(node.children[b])
      ensures nodes == old(nodes)[To(path, b) := node.children[b]] && repr == old(repr) + {node.children[b]}
    {
      assert To(path, b) !in nodes;
      Attach(node, b, path);
    }

    /** The part of it that is about paths. */
    method Attach(node: Node, b: byte, ghost path: Path)
      requires Linked() && path in nodes && nodes[path] == node && b !in node.children
      modifies this`nodes, this`repr, node`children
      ensures Linked() && b in node.children && fresh(node.children[b]) && !node.children[b].isEnd
      ensures nodes == old(nodes)[To(path, b) := node.children[b]] && repr == old(repr) + {node.children[b]}
    {
      forall p | p in nodes && nodes[p] == node
        ensures p == path
      {
        PathsDiffer(path, p);
      }
      assert To(path, b) !in nodes;
      var made := new Node(To(path, b));
      node.children := node.children[b := made];
      nodes, repr := nodes[To(path, b) := made], repr + {made};
      forall p, c | To(p, c) in nodes
        ensures p in nodes && c in nodes[p].children && nodes[p].children[c] == nodes[To(p, c)]
      {
        assert To(p, c) != To(path, b) ==> To(p, c) in old(nodes);
      }
    }

    /** The child of the node at `path`, made if it is missing. */
    method Child(node: Node, b: byte, ghost path: Path) returns (child: Node)
      requires Valid() && path in nodes && nodes[path] == node
      modifies this`nodes, this`repr, node`children
      ensures Valid() && To(path, b) in nodes && nodes[To(path, b)] == child
      ensures fresh(repr - old(repr))
    {
      if b !in node.children {
        AddChild(node, b, path);
      }
      child := node.children[b];
      assert To(path, b) in nodes;
    }

    /** The node at the end of the pattern, made with those before it where they are missing. */
    method Reach(pattern: seq<byte>) returns (node: Node)
      requires Valid()
      modifies this`nodes, this`repr, repr
      ensures Valid() && Spell(pattern) in nodes && nodes[Spell(pattern)] == node
      ensures fresh(repr - old(repr))
    {
      node := root;
      ghost var path := Root;
      for i := 0 to |pattern|
        invariant Valid() && path == At(pattern, 0, i) && path in nodes && nodes[path] == node
        invariant fresh(repr - old(repr))
      {
        node := Child(node, pattern[i], path);
        path := To(path, pattern[i]);
      }
    }

    /** Afterwards the pattern has the new value, and every other pattern is as before. */
    method Insert(pattern: seq<byte>, value: seq<byte>)
      requires Valid()
      modifies this`nodes, this`repr, this`entries, repr
      ensures Valid() && entries == old(entries)[Spell(pattern) := value]
      ensures fresh(repr - old(repr))
    {
      var node := Reach(pattern);
      forall p | p in nodes && nodes[p] == node
        ensures p == Spell(pattern)
      {
        PathsDiffer(Spell(pattern), p);
      }
      node.isEnd := true;
      node.replacement := value;
      entries := entries[Spell(pattern) := value];
      forall p, b | To(p, b) in nodes
        ensures p in nodes && b in nodes[p].children && nodes[p].children[b] == nodes[To(p, b)]
      {
        assert p in nodes;
      }
    }

    /** Where a path leaves the trie, every longer one does too. */
    lemma {:induction false} NoFurther(data: seq<byte>, start: nat, m: nat, k: nat)
      requires Valid() && m <= k && start + k <= |data| && At(data, start, m) !in nodes
      ensures At(data, start, k) !in nodes
      ensures LongestUpTo(entries, data, start, k) == LongestUpTo(entries, data, start, m)
      decreases k
    {
      if m < k {
        NoFurther(data, start, m, k - 1);
      }
    }

    /** The longest entry that the data continues with, its value, and whether there is one. */
    method Search(data: seq<byte>, start: nat) returns (len: nat, match': seq<byte>, found: bool)
      requires Valid()
      ensures found <==> len > 0
      ensures len == Longest(entries, data, start)
      ensures found ==> match' == entries[At(data, start, len)]
    {
      var node := root;
      len, match' := 0, [];
      var k, most := 0, if start < |data| then |data| - start else 0;
      ghost var path := Root;
      while k < most
        invariant 0 <= k <= most && (k > 0 ==> start + k <= |data|)
        invariant path == (if k == 0 then Root else At(data, start, k)) && path in nodes && nodes[path] == node
        invariant len == if k == 0 then 0 else LongestUpTo(entries, data, start, k)
        invariant len > 0 ==> match' == entries[At(data, start, len)]
      {
        var b := data[start + k];
        if b !in node.children {
          NoFurther(data, start, k + 1, most);
          break;
        }
        node, path, k := node.children[b], To(path, b), k + 1;
        if node.isEnd {
          len, match' := k, node.replacement;
        }
      }
      found := len > 0;
    }
  }

  // ----- Any sequence of insertions -----

  /** The value of a pattern's latest insertion. */
  function Latest(inserts: seq<(seq<byte>, seq<byte>)>, p: Path): Option<seq<byte>> {
    if inserts == [] then None
    else
      var last := inserts[|inserts| - 1];
      if Spell(last.0) == p then Some(last.1) else Latest(inserts[..|inserts| - 1], p)
  }

  /** After any insertions the tree holds each pattern with the value of its latest one. */
  method InsertAll(tree: Tree, inserts: seq<(seq<byte>, seq<byte>)>)
    requires tree.Valid() && tree.entries == map[]
    modifies tree`nodes, tree`repr, tree`entries, tree.repr
    ensures tree.Valid()
    ensures forall p :: (p in tree.entries <==> Latest(inserts, p).Some?)
    ensures forall p :: p in tree.entries ==> Latest(inserts, p) == Some(tree.entries[p])
  {
    for i := 0 to |inserts|
      invariant tree.Valid() && fresh(tree.repr - old(tree.repr))
      invariant forall p :: (p in tree.entries <==> Latest(inserts[..i], p).Some?)
      invariant forall p :: p in tree.entries ==> Latest(inserts[..i], p) == Some(tree.entries[p])
    {
      assert inserts[..i + 1][..i] == inserts[..i] && inserts[..i + 1][i] == inserts[i];
      tree.Insert(inserts[i].0, inserts[i].1);
    }
    assert inserts[..|inserts|] == inserts;
  }

  /** The pattern stands at `start`. */
  predicate Begins(data: seq<byte>, start: nat, pattern: seq<byte>) {
    start + |pattern| <= |data| && data[start..start + |pattern|] == pattern
  }

  /** The value that the pattern was last inserted with. */
  function LastValue(inserts: seq<(seq<byte>, seq<byte>)>, pattern: seq<byte>): Option<seq<byte>> {
    if inserts == [] then None
    else
      var last := inserts[|inserts| - 1];
      if last.0 == pattern then Some(last.1) else LastValue(inserts[..|inserts| - 1], pattern)
  }

  lemma SpellDiffers(a: seq<byte>, b: seq<byte>)
    requires Spell(a) == Spell(b)
    ensures a == b
  {
    AtPrefix(a, |a|);
    assert a[..|a|] == a == a[0..0 + |a|];
    AtIsSpell(a, 0, |a|, b);
  }

  lemma {:induction false} LatestIsLastValue(inserts: seq<(seq<byte>, seq<byte>)>, pattern: seq<byte>)
    ensures Latest(inserts, Spell(pattern)) == LastValue(inserts, pattern)
    decreases |inserts|
  {
    if inserts != [] {
      var n := |inserts| - 1;
      LatestIsLastValue(inserts[..n], pattern);
      if Spell(inserts[n].0) == Spell(pattern) {
        SpellDiffers(inserts[n].0, pattern);
      }
    }
  }

  lemma {:induction false} InsertedHasValue(inserts: seq<(seq<byte>, seq<byte>)>, k: nat)
    requires k < |inserts|
    ensures LastValue(inserts, inserts[k].0).Some?
    decreases |inserts|
  {
    if k < |inserts| - 1 {
      InsertedHasValue(inserts[..|inserts| - 1], k);
    }
  }

  /**
    Any insertions, then a search: it finds the longest inserted pattern that the data continues with, and
    the value of its latest insertion; and nothing if no pattern but the empty one stands there.
   */
  method FindLongest(inserts: seq<(seq<byte>, seq<byte>)>, data: seq<byte>, start: nat)
    returns (len: nat, value: seq<byte>, found: bool)
    ensures found ==> 0 < len && start + len <= |data| && LastValue(inserts, data[start..start + len]) == Some(value)
    ensures forall k :: 0 <= k < |inserts| && |inserts[k].0| > 0 && Begins(data, start, inserts[k].0) ==>
      found && |inserts[k].0| <= len
  {
    var tree := new Tree();
    InsertAll(tree, inserts);
    len, value, found := tree.Search(data, start);
    if found {
      AtIsSpell(data, start, len, data[start..start + len]);
      LatestIsLastValue(inserts, data[start..start + len]);
    }
    forall k | 0 <= k < |inserts| && |inserts[k].0| > 0 && Begins(data, start, inserts[k].0)
      ensures found && |inserts[k].0| <= len
    {
      var pattern := inserts[k].0;
      InsertedHasValue(inserts, k);
      LatestIsLastValue(inserts, pattern);
      assert pattern <= data[start..] by {
        assert data[start..][..|pattern|] == data[start..start + |pattern|];
      }
      LongestIsLongestPattern(tree.entries, data, start, pattern);
    }
  }

  // ----- Rewriting an archive -----

  /** Leftmost longest replacement. */
  function Rewrite(e: Entries, data: seq<byte>, i: nat): seq<byte>
    requires i <= |data|
    decreases |data| - i
  {
    if i == |data| then []
    else
      var len := Longest(e, data, i);
      if len > 0 then e[At(data, i, len)] + Rewrite(e, data, i + len) else [data[i]] + Rewrite(e, data, i + 1)
  }

  function Length(p: Path): nat {
    if p.Root? then 0 else 1 + Length(p.parent)
  }

  /** Every replacement is as long as its pattern. */
  ghost predicate SameLength(e: Entries) {
    forall p :: p in e ==> |e[p]| == Length(p)
  }

  lemma {:induction false} AtLength(data: seq<byte>, start: nat, k: nat)
    requires start + k <= |data|
    ensures Length(At(data, start, k)) == k
  {
    if k > 0 {
      AtLength(data, start, k - 1);
    }
  }

  lemma EntryLength(e: Entries, data: seq<byte>, i: nat)
    requires SameLength(e) && i <= |data|
    ensures Longest(e, data, i) > 0 ==> |e[At(data, i, Longest(e, data, i))]| == Longest(e, data, i)
  {
    AtLength(data, i, Longest(e, data, i));
  }

  /** Rewriting keeps every offset: the result is as long as the data, from every cut on. */
  lemma {:induction false} RewriteKeepsLength(e: Entries, data: seq<byte>, i: nat)
    requires SameLength(e) && i <= |data|
    ensures |Rewrite(e, data, i)| == |data| - i
    decreases |data| - i
  {
    if i < |data| {
      EntryLength(e, data, i);
      var len := Longest(e, data, i);
      RewriteKeepsLength(e, data, if len > 0 then i + len else i + 1);
    }
  }

  /** `bytes` copied over `out` from `i` on, as far as there is room. */
  function CopyAt(out: seq<byte>, i: nat, bytes: seq<byte>): (r: seq<byte>)
    requires i <= |out|
    ensures |r| == |out|
  {
    var n := if |bytes| < |out| - i then |bytes| else |out| - i;
    out[..i] + bytes[..n] + out[i + n..]
  }

  /** The pass from `i` on: a replacement is copied whole, and the next match is sought behind its pattern. */
  function Pass(e: Entries, data: seq<byte>, i: nat, out: seq<byte>): seq<byte>
    requires i <= |data| == |out|
    decreases |data| - i
  {
    if i == |data| then out
    else
      var len := Longest(e, data, i);
      if len > 0 then Pass(e, data, i + len, CopyAt(out, i, e[At(data, i, len)]))
      else Pass(e, data, i + 1, CopyAt(out, i, [data[i]]))
  }

  lemma CopyFits(out: seq<byte>, i: nat, bytes: seq<byte>)
    requires i + |bytes| <= |out|
    ensures CopyAt(out, i, bytes)[..i + |bytes|] == out[..i] + bytes
  {
  }

  /** One step, when a replacement is as long as its pattern. */
  lemma PassStep(e: Entries, data: seq<byte>, i: nat, out: seq<byte>) returns (piece: seq<byte>)
    requires SameLength(e) && i < |data| == |out|
    ensures 0 < |piece| <= |data| - i
    ensures Pass(e, data, i, out) == Pass(e, data, i + |piece|, CopyAt(out, i, piece))
    ensures Rewrite(e, data, i) == piece + Rewrite(e, data, i + |piece|)
  {
    EntryLength(e, data, i);
    var len := Longest(e, data, i);
    piece := if len > 0 then e[At(data, i, len)] else [data[i]];
  }

  lemma Rejoin(done: seq<byte>, piece: seq<byte>, rest: seq<byte>)
    ensures (done + piece) + rest == done + (piece + rest)
  {
  }

  /** Then the pass computes leftmost longest replacement. */
  lemma {:induction false} PassIsRewrite(e: Entries, data: seq<byte>, i: nat, out: seq<byte>)
    requires SameLength(e) && i <= |data| == |out|
    ensures Pass(e, data, i, out) == out[..i] + Rewrite(e, data, i)
    decreases |data| - i
  {
    if i == |data| {
      assert out[..i] == out;
    } else {
      var piece := PassStep(e, data, i, out);
      CopyFits(out, i, piece);
      PassIsRewrite(e, data, i + |piece|, CopyAt(out, i, piece));
      Rejoin(out[..i], piece, Rewrite(e, data, i + |piece|));
    }
  }

  method CopyTo(out: array<byte>, i: nat, bytes: seq<byte>)
    requires i <= out.Length
    modifies out
    ensures out[..] == CopyAt(old(out[..]), i, bytes)
  {
    var n := if |bytes| < out.Length - i then |bytes| else out.Length - i;
    for j := 0 to n
      invariant forall k :: 0 <= k < i || i + j <= k < out.Length ==> out[k] == old(out[k])
      invariant forall k :: 0 <= k < j ==> out[i + k] == bytes[k]
    {
      out[i + j] := bytes[j];
    }
    ghost var r := CopyAt(old(out[..]), i, bytes);
    forall k | 0 <= k < out.Length
      ensures out[k] == r[k]
    {
      if i <= k < i + n {
        assert out[i + (k - i)] == bytes[k - i];
      }
    }
  }

  /** One round: the longest match at `i`, or the byte that stands there. */
  method ReplaceAt(tree: Tree, data: seq<byte>, i: nat, out: array<byte>) returns (next: nat)
    requires tree.Valid() && i < |data| == out.Length
    modifies out
    ensures i < next <= |data|
    ensures Pass(tree.entries, data, next, out[..]) == Pass(tree.entries, data, i, old(out[..]))
  {
    var len, replacement, found := tree.Search(data, i);
    if found {
      CopyTo(out, i, replacement);
      next := i + len;
    } else {
      CopyTo(out, i, [data[i]]);
      next := i + 1;
    }
  }

  method ReplaceAll(tree: Tree, data: seq<byte>) returns (out: array<byte>)
    requires tree.Valid()
    ensures out.Length == |data| && out[..] == Pass(tree.entries, data, 0, seq(|data|, _ => 0))
    ensures SameLength(tree.entries) ==> out[..] == Rewrite(tree.entries, data, 0)
  {
    out := new byte[|data|](_ => 0);
    ghost var e, zeros := tree.entries, seq(|data|, _ => 0 as byte);
    assert out[..] == zeros;
    var i := 0;
    while i < |data|
      invariant 0 <= i <= |data|
      invariant Pass(e, data, i, out[..]) == Pass(e, data, 0, zeros)
    {
      i := ReplaceAt(tree, data, i, out);
    }
    if SameLength(e) {
      WholePass(e, data, zeros);
    }
  }

  lemma {:induction false} WholePass(e: Entries, data: seq<byte>, out: seq<byte>)
    requires SameLength(e) && |out| == |data|
    ensures Pass(e, data, 0, out) == Rewrite(e, data, 0)
  {
    PassIsRewrite(e, data, 0, out);
    assert out[..0] + Rewrite(e, data, 0) == Rewrite(e, data, 0);
  }
}
