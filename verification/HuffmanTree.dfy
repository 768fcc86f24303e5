/** The bit tree, built code by code into a fixed pool of nodes, and the decoder that walks it. */
module HuffmanTree {
  import opened Octets
  import opened HuffmanTable
  import opened Huffman

  const POOL_SIZE: nat := 513
  const NULL: int := -1

  /** A tree node; the children are indices into the pool. */
  datatype Node = Node(symbol: int, left: int, right: int)

  // ---------------------------------------------------------------- the canonical region holds 513 paths

  /** The number of canonical paths shorter than `n` bits. */
  function Offset(n: nat): (sum: int) {
    if n == 0 then 0 else Offset(n - 1) + Pow2(n - 1) - Lo(n - 1)
  }

  lemma LoBelowPow2(n: nat)
    requires n <= 30
    ensures Lo(n) <= Pow2(n)
  {
    Pow2Values();
  }

  lemma {:induction false} OffsetMonotone(m: nat, n: nat)
    requires m <= n <= 31
    ensures Offset(m) <= Offset(n)
  {
    hide Lo, Pow2;
    if m < n {
      OffsetMonotone(m, n - 1);
      LoBelowPow2(n - 1);
    }
  }

  lemma OffsetTotal()
    ensures Offset(31) == POOL_SIZE
  {
    assert Offset(4) == 15;
    assert Offset(8) == 143;
    assert Offset(12) == 169;
    assert Offset(16) == 191;
    assert Offset(20) == 221;
    assert Offset(24) == 369;
    assert Offset(28) == 477;
  }

  ghost predicate InRegion(p: (nat, nat)) {
    p.0 <= 30 && Lo(p.0) <= p.1 < Pow2(p.0)
  }

  function Rank(p: (nat, nat)): (r: int) {
    Offset(p.0) + p.1 - Lo(p.0)
  }

  lemma RankBelowPool(p: (nat, nat))
    requires InRegion(p)
    ensures 0 <= Rank(p) < POOL_SIZE
  {
    hide Lo, Pow2;
    OffsetMonotone(0, p.0);
    OffsetMonotone(p.0 + 1, 31);
    OffsetTotal();
  }

  lemma RankInjective(p: (nat, nat), q: (nat, nat))
    requires InRegion(p) && InRegion(q) && p != q
    ensures Rank(p) != Rank(q)
  {
    hide Lo, Pow2;
    if p.0 < q.0 {
      OffsetMonotone(p.0 + 1, q.0);
    } else if q.0 < p.0 {
      OffsetMonotone(q.0 + 1, p.0);
    }
  }

  lemma {:induction false} InjectiveBelow(s: seq<int>, n: nat)
    requires forall i :: 0 <= i < |s| ==> 0 <= s[i] < n
    requires forall i, j :: 0 <= i < j < |s| ==> s[i] != s[j]
    ensures |s| <= n
  {
    if s != [] {
      assert n > s[0];
      if k :| 0 <= k < |s| && s[k] == n - 1 {
        InjectiveBelow(s[..k] + s[k + 1..], n - 1);
      } else {
        InjectiveBelow(s, n - 1);
      }
    }
  }

  ghost predicate DistinctPaths(paths: seq<(nat, nat)>) {
    && (forall x :: 0 <= x < |paths| ==> InRegion(paths[x]))
    && (forall x, y :: 0 <= x < y < |paths| ==> paths[x] != paths[y])
  }

  lemma DistinctPathsFitPool(paths: seq<(nat, nat)>)
    requires DistinctPaths(paths)
    ensures |paths| <= POOL_SIZE
  {
    hide InRegion, Rank;
    var ranks := seq(|paths|, x requires 0 <= x < |paths| => Rank(paths[x]));
    forall x | 0 <= x < |paths|
      ensures 0 <= ranks[x] < POOL_SIZE
    {
      RankBelowPool(paths[x]);
    }
    forall x, y | 0 <= x < y < |paths|
      ensures ranks[x] != ranks[y]
    {
      RankInjective(paths[x], paths[y]);
    }
    InjectiveBelow(ranks, POOL_SIZE);
  }

  // ---------------------------------------------------------------- the tree

  /** Node x stands for paths[x], and its children for the two one-bit extensions that exist. */
  ghost predicate Linked(nodes: seq<Node>, paths: seq<(nat, nat)>) {
    && 0 < |paths| <= |nodes| == POOL_SIZE
    && paths[0] == (0, 0)
    && DistinctPaths(paths)
    && (forall x :: 0 <= x < |paths| ==>
          && Child(nodes[x].left, paths, paths[x].0 + 1, 2 * paths[x].1)
          && Child(nodes[x].right, paths, paths[x].0 + 1, 2 * paths[x].1 + 1))
    && (forall x :: |paths| <= x < |nodes| ==> nodes[x].left == NULL && nodes[x].right == NULL)
  }

  ghost predicate Child(child: int, paths: seq<(nat, nat)>, n: nat, v: nat) {
    if child == NULL then (n, v) !in paths
    else 0 <= child < |paths| && paths[child] == (n, v)
  }

  /** While code k is inserted and its first m bits have been followed. */
  ghost predicate Covers(t: CodeTable, k: nat, m: nat, paths: seq<(nat, nat)>)
    requires k < |t| && m <= t[k].bits
  {
    forall p :: p in paths <==> HasPath(t, k, p.0, p.1) || (p.0 <= m && p.1 == Prefix(t[k], p.0))
  }

  ghost predicate Labelled(t: CodeTable, k: nat, nodes: seq<Node>, paths: seq<(nat, nat)>)
    requires k <= |t|
  {
    && |paths| <= |nodes|
    && forall x :: 0 <= x < |paths| ==> nodes[x].symbol == SymbolAt(t, k, paths[x].0, paths[x].1)
  }

  /** The tree of the first k codes. */
  ghost predicate TreeOf(t: CodeTable, k: nat, nodes: seq<Node>, paths: seq<(nat, nat)>)
    requires k <= |t|
  {
    && Linked(nodes, paths)
    && (forall p :: p in paths <==> HasPath(t, k, p.0, p.1) || p == (0, 0))
    && Labelled(t, k, nodes, paths)
  }

  lemma EmptyTree(t: CodeTable, nodes: seq<Node>)
    requires |nodes| == POOL_SIZE && nodes[0] == Node(-1, NULL, NULL)
    requires forall x :: 0 < x < |nodes| ==> nodes[x].left == NULL && nodes[x].right == NULL
    ensures TreeOf(t, 0, nodes, [(0, 0)])
  {
  }

  lemma StartCode(t: CodeTable, k: nat, nodes: seq<Node>, paths: seq<(nat, nat)>)
    requires k < |t| && TreeOf(t, k, nodes, paths)
    ensures Covers(t, k, 0, paths)
  {
    hide CanonicalRow, Shr;
    RowShape(t, k);
    PrefixWhole(t[k]);
  }

  lemma RowShape(t: CodeTable, k: nat)
    requires k < |t|
    ensures 5 <= t[k].bits <= 30 && Lo(t[k].bits) <= t[k].code < Pow2(t[k].bits)
  {
    assert CanonicalRow(k, t[k]);
  }

  /** Following a bit along an existing edge. */
  lemma FollowEdge(t: CodeTable, k: nat, m: nat, paths: seq<(nat, nat)>)
    requires k < |t| && m < t[k].bits && Covers(t, k, m, paths)
    requires (m + 1, Prefix(t[k], m + 1)) in paths
    ensures Covers(t, k, m + 1, paths)
  {
    hide CanonicalRow, Prefix, HasPath;
    forall p: (nat, nat)
      ensures p in paths <==> HasPath(t, k, p.0, p.1) || (p.0 <= m + 1 && p.1 == Prefix(t[k], p.0))
    {
      if p.0 == m + 1 && p.1 == Prefix(t[k], p.0) {
        assert p == (m + 1, Prefix(t[k], m + 1));
      }
    }
  }

  /** The pool after node y was taken and made a child of node x. */
  function WithChild(nodes: seq<Node>, x: nat, bit: bit, y: nat): (nodes': seq<Node>)
    requires x < |nodes| && y < |nodes|
    ensures |nodes'| == |nodes|
  {
    var linked := if bit == 0 then nodes[x].(left := y) else nodes[x].(right := y);
    nodes[x := linked][y := nodes[y].(symbol := -1)]
  }

  /** The node a bit leads to is missing: the pool has room for it, and adding it follows the bit. */
  lemma AddNode(t: CodeTable, k: nat, m: nat, nodes: seq<Node>, paths: seq<(nat, nat)>, x: nat, bit: bit)
    requires k < |t| && m < t[k].bits
    requires Linked(nodes, paths) && Covers(t, k, m, paths) && Labelled(t, k, nodes, paths)
    requires x < |paths| && paths[x] == (m, Prefix(t[k], m)) && bit == Prefix(t[k], m + 1) % 2
    requires (if bit == 0 then nodes[x].left else nodes[x].right) == NULL
    ensures |paths| < POOL_SIZE
    ensures var nodes', paths' := WithChild(nodes, x, bit, |paths|), paths + [(m + 1, Prefix(t[k], m + 1))];
            Linked(nodes', paths') && Covers(t, k, m + 1, paths') && Labelled(t, k, nodes', paths')
  {
    hide CanonicalRow, Prefix, Lo, Pow2, Covers, InRegion, DistinctPaths, WithChild, Labelled, Linked;
    PrefixStep(t[k], m);
    var new' := (m + 1, Prefix(t[k], m + 1));
    ChildIsNew(nodes, paths, x, bit);
    NewIsDistinct(t, k, m, paths);
    NoGrandchild(t, k, m, paths);
    NewIsLinked(nodes, paths, x, bit, new');
    CoverNew(t, k, m, paths);
    NewIsUnlabelled(t, k, m, paths);
    LabelNew(t, k, nodes, paths, x, bit, new');
  }

  lemma ChildIsNew(nodes: seq<Node>, paths: seq<(nat, nat)>, x: nat, bit: bit)
    requires Linked(nodes, paths) && x < |paths| && (if bit == 0 then nodes[x].left else nodes[x].right) == NULL
    ensures DistinctPaths(paths) && (paths[x].0 + 1, 2 * paths[x].1 + bit) !in paths
    ensures |paths| <= |nodes| == POOL_SIZE
  {
    hide DistinctPaths;
    assert Child(nodes[x].left, paths, paths[x].0 + 1, 2 * paths[x].1);
    assert Child(nodes[x].right, paths, paths[x].0 + 1, 2 * paths[x].1 + 1);
  }

  lemma LabelNew(t: CodeTable, k: nat, nodes: seq<Node>, paths: seq<(nat, nat)>, x: nat, bit: bit, p: (nat, nat))
    requires k < |t| && x < |paths| < |nodes| && Labelled(t, k, nodes, paths)
    requires SymbolAt(t, k, p.0, p.1) == -1
    ensures Labelled(t, k, WithChild(nodes, x, bit, |paths|), paths + [p])
  {
    hide CanonicalRow, SymbolAt;
  }

  lemma NewIsDistinct(t: CodeTable, k: nat, m: nat, paths: seq<(nat, nat)>)
    requires k < |t| && m < t[k].bits && DistinctPaths(paths)
    requires (m + 1, Prefix(t[k], m + 1)) !in paths
    ensures DistinctPaths(paths + [(m + 1, Prefix(t[k], m + 1))]) && |paths| < POOL_SIZE
  {
    hide CanonicalRow, Prefix, Lo, Pow2;
    RowShape(t, k);
    PrefixInRegion(t[k], m + 1);
    DistinctPathsFitPool(paths + [(m + 1, Prefix(t[k], m + 1))]);
  }

  /** The paths present are closed under prefixes, so a missing one has no extension. */
  lemma NoGrandchild(t: CodeTable, k: nat, m: nat, paths: seq<(nat, nat)>)
    requires k < |t| && m < t[k].bits && Covers(t, k, m, paths)
    requires (m + 1, Prefix(t[k], m + 1)) !in paths
    ensures (m + 2, 2 * Prefix(t[k], m + 1)) !in paths
    ensures (m + 2, 2 * Prefix(t[k], m + 1) + 1) !in paths
  {
    hide CanonicalRow, Prefix, HasPath;
    var v := Prefix(t[k], m + 1);
    ShorterPath(t, k, m + 1, 2 * v);
    ShorterPath(t, k, m + 1, 2 * v + 1);
  }

  lemma ShorterPath(t: CodeTable, k: nat, n: nat, w: nat)
    requires k <= |t|
    ensures HasPath(t, k, n + 1, w) ==> HasPath(t, k, n, w / 2)
  {
    hide CanonicalRow, Prefix;
    if HasPath(t, k, n + 1, w) {
      var i :| 0 <= i < k && IsPrefix(t, i, n + 1, w);
      PrefixStep(t[i], n);
      assert IsPrefix(t, i, n, w / 2);
    }
  }

  lemma SymbolHasPath(t: CodeTable, k: nat, n: nat, v: nat)
    requires k <= |t|
    ensures SymbolAt(t, k, n, v) >= 0 ==> HasPath(t, k, n, v)
  {
    hide CanonicalRow, Prefix;
    var symbol := SymbolAt(t, k, n, v);
    if symbol >= 0 {
      RowShape(t, symbol);
      PrefixWhole(t[symbol]);
      assert IsPrefix(t, symbol, n, v);
    }
  }

  lemma CoverNew(t: CodeTable, k: nat, m: nat, paths: seq<(nat, nat)>)
    requires k < |t| && m < t[k].bits && Covers(t, k, m, paths)
    ensures Covers(t, k, m + 1, paths + [(m + 1, Prefix(t[k], m + 1))])
  {
    hide CanonicalRow, Prefix, HasPath;
    var new' := (m + 1, Prefix(t[k], m + 1));
    forall p: (nat, nat)
      ensures p in paths + [new'] <==> HasPath(t, k, p.0, p.1) || (p.0 <= m + 1 && p.1 == Prefix(t[k], p.0))
    {
      assert p in paths + [new'] <==> p in paths || p == new';
    }
  }

  lemma NewIsUnlabelled(t: CodeTable, k: nat, m: nat, paths: seq<(nat, nat)>)
    requires k < |t| && m < t[k].bits && Covers(t, k, m, paths)
    requires (m + 1, Prefix(t[k], m + 1)) !in paths
    ensures SymbolAt(t, k, m + 1, Prefix(t[k], m + 1)) == -1
  {
    hide CanonicalRow, Prefix, HasPath;
    SymbolHasPath(t, k, m + 1, Prefix(t[k], m + 1));
  }

  /** Linking the new node keeps every edge meaning what it meant. */
  lemma NewIsLinked(nodes: seq<Node>, paths: seq<(nat, nat)>, x: nat, bit: bit, p: (nat, nat))
    requires Linked(nodes, paths) && x < |paths| < POOL_SIZE
    requires p == (paths[x].0 + 1, 2 * paths[x].1 + bit)
    requires (if bit == 0 then nodes[x].left else nodes[x].right) == NULL
    requires DistinctPaths(paths + [p])
    requires (p.0 + 1, 2 * p.1) !in paths && (p.0 + 1, 2 * p.1 + 1) !in paths
    ensures Linked(WithChild(nodes, x, bit, |paths|), paths + [p])
  {
    hide DistinctPaths, InRegion, Child;
    var y, paths', nodes' := |paths|, paths + [p], WithChild(nodes, x, bit, |paths|);
    forall z | 0 <= z < |paths'|
      ensures Child(nodes'[z].left, paths', paths'[z].0 + 1, 2 * paths'[z].1)
      ensures Child(nodes'[z].right, paths', paths'[z].0 + 1, 2 * paths'[z].1 + 1)
    {
      OnlyParent(paths', x, y, z);
      if z < y {
        ChildKept(nodes[z].left, paths, p, paths[z].0 + 1, 2 * paths[z].1);
        ChildKept(nodes[z].right, paths, p, paths[z].0 + 1, 2 * paths[z].1 + 1);
      }
      ChildAdded(paths, p);
    }
  }

  lemma ChildKept(child: int, paths: seq<(nat, nat)>, p: (nat, nat), n: nat, v: nat)
    requires Child(child, paths, n, v)
    ensures (n, v) != p ==> Child(child, paths + [p], n, v)
  {
  }

  lemma ChildAdded(paths: seq<(nat, nat)>, p: (nat, nat))
    ensures Child(|paths|, paths + [p], p.0, p.1)
    ensures (p.0 + 1, 2 * p.1) !in paths ==> Child(NULL, paths + [p], p.0 + 1, 2 * p.1)
    ensures (p.0 + 1, 2 * p.1 + 1) !in paths ==> Child(NULL, paths + [p], p.0 + 1, 2 * p.1 + 1)
  {
  }

  /** Only paths[x] extends to the last path by one bit, and nothing extends that path yet. */
  lemma OnlyParent(paths: seq<(nat, nat)>, x: nat, y: nat, z: nat)
    requires DistinctPaths(paths) && x < y && z < |paths| == y + 1
    requires paths[y].0 == paths[x].0 + 1 && paths[y].1 / 2 == paths[x].1
    ensures z != x ==> paths[y] != (paths[z].0 + 1, 2 * paths[z].1)
    ensures z != x ==> paths[y] != (paths[z].0 + 1, 2 * paths[z].1 + 1)
  {
  }

  /** Labelling the last node of a completed code turns the tree of k codes into the tree of k + 1. */
  lemma EndCode(t: CodeTable, k: nat, nodes: seq<Node>, paths: seq<(nat, nat)>, x: nat)
    requires k < |t| && Linked(nodes, paths) && Labelled(t, k, nodes, paths)
    requires Covers(t, k, t[k].bits, paths)
    requires x < |paths| && paths[x] == (t[k].bits, Prefix(t[k], t[k].bits))
    ensures TreeOf(t, k + 1, nodes[x := nodes[x].(symbol := k)], paths)
  {
    hide CanonicalRow, Shr, InRegion;
    RowShape(t, k);
    PrefixWhole(t[k]);
    var nodes' := nodes[x := nodes[x].(symbol := k)];
    forall p: (nat, nat)
      ensures p in paths <==> HasPath(t, k + 1, p.0, p.1) || p == (0, 0)
    {
      OnePathMore(t, k, p.0, p.1);
    }
    forall y | 0 <= y < |paths|
      ensures nodes'[y].symbol == SymbolAt(t, k + 1, paths[y].0, paths[y].1)
    {
      assert DistinctPaths(paths);
    }
  }

  lemma OnePathMore(t: CodeTable, k: nat, n: nat, v: nat)
    requires k < |t|
    ensures HasPath(t, k + 1, n, v) <==> HasPath(t, k, n, v) || IsPrefix(t, k, n, v)
  {
    hide CanonicalRow, IsPrefix;
    if HasPath(t, k + 1, n, v) {
      var i :| 0 <= i < k + 1 && IsPrefix(t, i, n, v);
      assert i < k || i == k;
    }
  }

  /** Inserts one code, taking a node for every bit that leaves the tree. */
  method Insert(t: CodeTable, k: nat, nodes: array<Node>, index: nat, ghost paths: seq<(nat, nat)>)
    returns (ok: bool, index': nat, ghost paths': seq<(nat, nat)>)
    requires k < |t| && index == |paths| && TreeOf(t, k, nodes[..], paths)
    modifies nodes
    ensures ok && index' == |paths'| && TreeOf(t, k + 1, nodes[..], paths')
  {
    hide CanonicalRow, Linked, Covers, Labelled, Shr, SymbolAt, WithChild;
    index', paths' := index, paths;
    var node := 0;
    var b := t[k].bits;
    StartCode(t, k, nodes[..], paths);
    RowShape(t, k);
    PrefixWhole(t[k]);
    LinkedShape(nodes[..], paths);
    while b > 0
      invariant 0 <= b <= t[k].bits
      invariant index' == |paths'| && Linked(nodes[..], paths') && Labelled(t, k, nodes[..], paths')
      invariant Covers(t, k, t[k].bits - b, paths')
      invariant 0 <= node < |paths'| && paths'[node] == (t[k].bits - b, Prefix(t[k], t[k].bits - b))
    {
      LinkedShape(nodes[..], paths');
      LinkedEdges(nodes[..], paths', node);
      PrefixStep(t[k], t[k].bits - b);
      var bit := Shr(t[k].code, b - 1) % 2;
      var child := if bit == 0 then nodes[node].left else nodes[node].right;
      if child == NULL {
        ghost var was := nodes[..];
        AddNode(t, k, t[k].bits - b, was, paths', node, bit);
        if index' >= POOL_SIZE {
          return false, index', paths';
        }
        child := index';
        if bit == 0 {
          nodes[node] := nodes[node].(left := child);
        } else {
          nodes[node] := nodes[node].(right := child);
        }
        nodes[child] := nodes[child].(symbol := -1);
        WithChildIs(was, nodes[..], node, bit, child);
        paths' := paths' + [(t[k].bits - b + 1, Prefix(t[k], t[k].bits - b + 1))];
        index' := index' + 1;
      } else {
        FollowEdge(t, k, t[k].bits - b, paths');
      }
      node := child;
      b := b - 1;
    }
    LinkedShape(nodes[..], paths');
    EndCode(t, k, nodes[..], paths', node);
    ghost var was := nodes[..];
    nodes[node] := nodes[node].(symbol := k);
    assert nodes[..] == was[node := was[node].(symbol := k)];
    ok := true;
  }

  lemma LinkedShape(nodes: seq<Node>, paths: seq<(nat, nat)>)
    requires Linked(nodes, paths)
    ensures 0 < |paths| <= |nodes| == POOL_SIZE && paths[0] == (0, 0)
  {
  }

  lemma LinkedEdges(nodes: seq<Node>, paths: seq<(nat, nat)>, x: nat)
    requires Linked(nodes, paths) && x < |paths|
    ensures Child(nodes[x].left, paths, paths[x].0 + 1, 2 * paths[x].1)
    ensures Child(nodes[x].right, paths, paths[x].0 + 1, 2 * paths[x].1 + 1)
  {
  }

  lemma WithChildIs(was: seq<Node>, nodes: seq<Node>, x: nat, bit: bit, y: nat)
    requires x < |was| == |nodes| && y < |was| && x != y
    requires nodes == was[x := if bit == 0 then was[x].(left := y) else was[x].(right := y)]
                         [y := was[y].(symbol := -1)]
    ensures nodes == WithChild(was, x, bit, y)
  {
  }

  /** Builds the tree of all codes into a zeroed pool; the pool never runs out. */
  method BuildHuffmanTree(t: CodeTable, nodes: array<Node>) returns (ok: bool, ghost paths: seq<(nat, nat)>)
    requires nodes.Length == POOL_SIZE
    requires forall x :: 0 <= x < nodes.Length ==> nodes[x].left == NULL && nodes[x].right == NULL
    modifies nodes
    ensures ok && TreeOf(t, |t|, nodes[..], paths)
  {
    hide CanonicalRow, TreeOf;
    var index: nat := 1;
    nodes[0] := nodes[0].(symbol := -1);
    paths := [(0, 0)];
    EmptyTree(t, nodes[..]);
    for i := 0 to |t|
      invariant index == |paths| && TreeOf(t, i, nodes[..], paths)
    {
      ok, index, paths := Insert(t, i, nodes, index, paths);
      if !ok {
        return;
      }
    }
    ok := true;
  }

  // ---------------------------------------------------------------- decoding

  /** What the bits from the p-th on decode to, in the middle of a code. */
  ghost function DecodedFrom(t: CodeTable, src: seq<byte>, p: nat, n: nat, v: nat): (text: seq<byte>) {
    if p <= |BitsOf(src)| then DecodeBits(t, BitsOf(src)[p..], n, v) else []
  }

  /** Walks the tree bit by bit, from the highest bit of every octet. */
  method HuffmanDecode(t: CodeTable, nodes: array<Node>, ghost paths: seq<(nat, nat)>, src: seq<byte>)
    returns (dst: seq<byte>)
    requires TreeOf(t, |t|, nodes[..], paths)
    ensures dst == HuffmanDecoded(t, src)
  {
    hide CanonicalRow, TreeOf, DecodedFrom, HuffmanDecoded, HasPath, SymbolAt, Shr;
    dst := [];
    var node := 0;
    TreeRoot(t, nodes[..], paths);
    FromStart(t, src);
    for i := 0 to |src|
      invariant 0 <= node < |paths|
      invariant HuffmanDecoded(t, src) == dst + DecodedFrom(t, src, 8 * i, paths[node].0, paths[node].1)
    {
      var b := 8;
      while b > 0
        invariant 0 <= b <= 8 && 0 <= node < |paths|
        invariant HuffmanDecoded(t, src)
               == dst + DecodedFrom(t, src, 8 * i + 8 - b, paths[node].0, paths[node].1)
      {
        var bit := Shr(src[i], b - 1) % 2;
        TreeStep(t, nodes[..], paths, node, bit);
        DecodeOneBit(t, src, i, 8 - b, paths[node].0, paths[node].1);
        node := if bit == 1 then nodes[node].right else nodes[node].left;
        if node == NULL {
          return; // no such code: keep what was decoded
        }
        var symbol := nodes[node].symbol;
        if symbol >= 0 {
          if symbol == EOS {
            return;
          }
          dst := dst + [symbol];
          node := 0;
        }
        b := b - 1;
      }
    }
    DecodeNothing(t, src, paths[node].0, paths[node].1);
  }

  lemma FromStart(t: CodeTable, src: seq<byte>)
    ensures DecodedFrom(t, src, 0, 0, 0) == HuffmanDecoded(t, src)
  {
    hide DecodeBits, BitsOf;
    assert BitsOf(src)[0..] == BitsOf(src);
  }

  lemma DecodeNothing(t: CodeTable, src: seq<byte>, n: nat, v: nat)
    ensures DecodedFrom(t, src, 8 * |src|, n, v) == []
  {
  }

  /** What the next bit decides. */
  lemma DecodeOneBit(t: CodeTable, src: seq<byte>, i: nat, j: nat, n: nat, v: nat)
    requires i < |src| && j < 8
    ensures var v', p := 2 * v + Shr(src[i], 7 - j) % 2, 8 * i + j;
            DecodedFrom(t, src, p, n, v)
            == if !HasPath(t, |t|, n + 1, v') || SymbolAt(t, |t|, n + 1, v') == EOS then []
               else if SymbolAt(t, |t|, n + 1, v') >= 0 then
                 [SymbolAt(t, |t|, n + 1, v')] + DecodedFrom(t, src, p + 1, 0, 0)
               else DecodedFrom(t, src, p + 1, n + 1, v')
  {
    hide CanonicalRow, HasPath, BitsOf, SymbolAt, Shr;
    OctetBit(src, i, j);
    assert BitsOf(src)[8 * i + j..][1..] == BitsOf(src)[8 * i + j + 1..];
  }

  lemma OctetBit(src: seq<byte>, i: nat, j: nat)
    requires i < |src| && j < 8
    ensures BitsOf(src)[8 * i + j] == Shr(src[i], 7 - j) % 2
  {
    hide BitsOf, ToBits, Shr;
    BitsOfAt(src, i);
    ToBitsAt(src[i], 8, j);
    assert BitsOf(src)[8 * i + j] == BitsOf(src)[8 * i..8 * i + 8][j];
  }

  lemma TreeRoot(t: CodeTable, nodes: seq<Node>, paths: seq<(nat, nat)>)
    requires TreeOf(t, |t|, nodes, paths)
    ensures 0 < |paths| <= |nodes| && paths[0] == (0, 0)
  {
  }

  /** One step down the finished tree asks exactly what the decoder of the table asks. */
  lemma TreeStep(t: CodeTable, nodes: seq<Node>, paths: seq<(nat, nat)>, x: nat, bit: bit)
    requires TreeOf(t, |t|, nodes, paths) && x < |paths|
    ensures |paths| <= |nodes|
    ensures var child := if bit == 1 then nodes[x].right else nodes[x].left;
            var n, v := paths[x].0 + 1, 2 * paths[x].1 + bit;
            && (child == NULL <==> !HasPath(t, |t|, n, v))
            && (child != NULL ==>
                  && 0 <= child < |paths| && paths[child] == (n, v)
                  && nodes[child].symbol == SymbolAt(t, |t|, n, v))
  {
    hide CanonicalRow, HasPath, SymbolAt, Linked;
    LinkedShape(nodes, paths);
    LinkedEdges(nodes, paths, x);
    var n, v := paths[x].0 + 1, 2 * paths[x].1 + bit;
    assert (n, v) in paths <==> HasPath(t, |t|, n, v) || (n, v) == (0, 0);
  }
}
