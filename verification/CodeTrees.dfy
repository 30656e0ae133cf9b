/** What jpgd's decoding tables mean: an 8-bit look-up table whose negative entries lead into a tree of cell pairs. */
module CodeTrees {
  import opened Bits
  import opened PrefixCodes

  const TREE_MAX := 512

  /** A prefix code of at most 256 words of 1 to 16 bits, with distinct byte symbols. */
  ghost predicate Coded(codes: seq<BitString>, vals: seq<nat>) {
    && PrefixFree(codes)
    && |codes| <= |vals|
    && (forall k :: 0 <= k < |codes| ==> 1 <= |codes[k]| <= 16 && vals[k] < 256)
    && (forall j, k :: 0 <= j < k < |codes| ==> vals[j] != vals[k])
  }

  /** The entry that leads to node j. */
  function Entry(j: nat): int {
    -1 - 2 * j
  }

  /** Where node j keeps what follows on a bit. */
  function Cell(j: nat, bit: bool): nat {
    2 * j + if bit then 0 else 1
  }

  ghost predicate ProperPrefix(codes: seq<BitString>, q: nat, b: BitString) {
    exists k :: 0 <= k < q <= |codes| && |b| < |codes[k]| && b <= codes[k]
  }

  /** The nodes are proper prefixes, of at least 8 bits, of the first q words, each listed once and after its own
    * prefix. */
  ghost predicate Nodes(codes: seq<BitString>, q: nat, nodes: seq<BitString>) {
    && (forall j :: 0 <= j < |nodes| ==> 8 <= |nodes[j]| < 16 && ProperPrefix(codes, q, nodes[j]))
    && (forall i, j :: 0 <= i < j < |nodes| ==> nodes[i] != nodes[j])
    && (forall j :: 0 <= j < |nodes| && |nodes[j]| > 8 ==> nodes[j][..|nodes[j]| - 1] in nodes)
  }

  /** Every proper prefix, of at least 8 bits, of the first p words is a node. */
  ghost predicate Covered(codes: seq<BitString>, p: nat, nodes: seq<BitString>)
    requires p <= |codes|
  {
    forall k, t :: 0 <= k < p && 8 <= t < |codes[k]| ==> codes[k][..t] in nodes
  }

  /** The tree entry for bit string b: its node, the symbol of the word b among the first p, or empty. */
  ghost predicate Points(codes: seq<BitString>, vals: seq<nat>, p: nat, nodes: seq<BitString>, b: BitString, v: int)
    requires p <= |codes| <= |vals|
  {
    && (forall i :: 0 <= i < |nodes| && nodes[i] == b ==> v == Entry(i))
    && (forall k :: 0 <= k < p && codes[k] == b ==> v == vals[k])
    && (b !in nodes && b !in codes[..p] ==> v == 0)
  }

  ghost predicate Tree(codes: seq<BitString>, vals: seq<nat>, p: nat, nodes: seq<BitString>, tree: seq<int>)
    requires p <= |codes| <= |vals|
  {
    && |tree| == TREE_MAX
    && (forall j, bit :: 0 <= j < |nodes| && Cell(j, bit) < TREE_MAX ==>
          Points(codes, vals, p, nodes, nodes[j] + [bit], tree[Cell(j, bit)]))
    && (forall i :: 2 * |nodes| <= i < TREE_MAX ==> tree[i] == 0)
  }

  /** The entry for a byte b that starts with a word of symbol i: the plain table keeps the symbol; the packed one also
    * the bits to fetch and, where they fit into the byte, the extra bits that the symbol calls for. */
  ghost function SymbolEntry(packed: bool, i: nat, size: nat, b: BitString): int
    requires size <= |b| == 8
  {
    if !packed then i
    else if i % 16 != 0 && size + i % 16 <= 8
    then i + 0x8000 + 0x1_0000 * Val(b[size..size + i % 16]) + 256 * (size + i % 16)
    else i + 256 * size
  }

  /** The table entry for the byte b: its node, the entry of the word that b starts with, or empty. */
  ghost predicate TopPoints(packed: bool, codes: seq<BitString>, vals: seq<nat>, p: nat, nodes: seq<BitString>,
                            b: BitString, v: int)
    requires p <= |codes| <= |vals| && |b| == 8
  {
    && (forall i :: 0 <= i < |nodes| && nodes[i] == b ==> v == Entry(i))
    && (forall k :: 0 <= k < p && codes[k] <= b ==> v == SymbolEntry(packed, vals[k], |codes[k]|, b))
    && (b !in nodes && (forall k :: 0 <= k < p ==> !(codes[k] <= b)) ==> v == 0)
  }

  ghost predicate Top(packed: bool, codes: seq<BitString>, vals: seq<nat>, p: nat, nodes: seq<BitString>,
                      table: seq<int>)
    requires p <= |codes| <= |vals|
  {
    |table| == 256 && forall x :: 0 <= x < 256 ==> TopPoints(packed, codes, vals, p, nodes, Enc(x, 8), table[x])
  }

  // ----- Growing the tree -----

  lemma PrefixOrder(a: BitString, b: BitString, c: BitString)
    requires a <= c && b <= c
    ensures |a| <= |b| ==> a <= b
  {
  }

  /** A new node for a prefix b of word p that no entry knows yet: its two cells are the next free pair. */
  lemma AddNodeOrder(codes: seq<BitString>, p: nat, nodes: seq<BitString>, b: BitString)
    requires p < |codes| && Nodes(codes, p + 1, nodes)
    requires 8 <= |b| < |codes[p]| <= 16 && b <= codes[p] && b !in nodes
    requires |b| > 8 ==> b[..|b| - 1] in nodes
    ensures Nodes(codes, p + 1, nodes + [b])
  {
    assert ProperPrefix(codes, p + 1, b);
  }

  /** Nothing below a missing prefix is known either. */
  lemma NothingBelow(codes: seq<BitString>, vals: seq<nat>, p: nat, nodes: seq<BitString>, b: BitString, bit: bool)
    requires Coded(codes, vals) && p < |codes| && Nodes(codes, p + 1, nodes) && Covered(codes, p, nodes)
    requires 8 <= |b| && b !in nodes
    ensures Points(codes, vals, p, nodes + [b], b + [bit], 0)
  {
    var c := b + [bit];
    assert c[..|c| - 1] == b;
  }

  /** The entry of b changes from empty to the new node; all other entries stay. */
  lemma AddNodePoints(codes: seq<BitString>, vals: seq<nat>, p: nat, nodes: seq<BitString>, b: BitString,
                      c: BitString, v: int)
    requires p < |codes| <= |vals| && Points(codes, vals, p, nodes, c, v)
    ensures c != b ==> Points(codes, vals, p, nodes + [b], c, v)
    ensures c == b && b !in nodes && b !in codes[..p] ==> Points(codes, vals, p, nodes + [b], c, Entry(|nodes|))
  {
    var nodes' := nodes + [b];
    assert c in nodes ==> c in nodes';
    if c != b && c in nodes' {
      var i :| 0 <= i < |nodes'| && nodes'[i] == c;
      assert nodes[i] == c;
    }
  }

  lemma AddNodeTree(codes: seq<BitString>, vals: seq<nat>, p: nat, nodes: seq<BitString>, tree: seq<int>, j: nat,
                    bit: bool)
    requires Coded(codes, vals) && p < |codes| && Nodes(codes, p + 1, nodes) && Covered(codes, p, nodes)
    requires Tree(codes, vals, p, nodes, tree)
    requires j < |nodes| && Cell(j, bit) < TREE_MAX
    requires var b := nodes[j] + [bit]; b !in nodes && b <= codes[p] && |b| < |codes[p]|
    ensures Nodes(codes, p + 1, nodes + [nodes[j] + [bit]])
    ensures Tree(codes, vals, p, nodes + [nodes[j] + [bit]], tree[Cell(j, bit) := Entry(|nodes|)])
  {
    var b := nodes[j] + [bit];
    var nodes', tree' := nodes + [b], tree[Cell(j, bit) := Entry(|nodes|)];
    assert b[..|b| - 1] == nodes[j];
    AddNodeOrder(codes, p, nodes, b);
    NotAWord(codes, p, b);
    forall i, bit' | 0 <= i < |nodes'| && Cell(i, bit') < TREE_MAX
      ensures Points(codes, vals, p, nodes', nodes'[i] + [bit'], tree'[Cell(i, bit')])
    {
      if i < |nodes| {
        assert Points(codes, vals, p, nodes, nodes[i] + [bit'], tree[Cell(i, bit')]);
        AddNodePoints(codes, vals, p, nodes, b, nodes[i] + [bit'], tree[Cell(i, bit')]);
        SameCell(nodes, i, bit', j, bit);
      } else {
        NothingBelow(codes, vals, p, nodes, b, bit');
      }
    }
  }

  lemma SameCell(nodes: seq<BitString>, i: nat, b: bool, j: nat, c: bool)
    requires i < |nodes| && j < |nodes| && forall m, n :: 0 <= m < n < |nodes| ==> nodes[m] != nodes[n]
    ensures Cell(i, b) == Cell(j, c) <==> i == j && b == c
    ensures nodes[i] + [b] == nodes[j] + [c] <==> i == j && b == c
  {
    if nodes[i] + [b] == nodes[j] + [c] {
      assert nodes[i] == (nodes[i] + [b])[..|nodes[i]|];
      assert nodes[j] == (nodes[j] + [c])[..|nodes[j]|];
    }
  }

  /** A proper prefix of a word is no word. */
  lemma NotAWord(codes: seq<BitString>, p: nat, b: BitString)
    requires PrefixFree(codes) && p < |codes| && b <= codes[p] && |b| < |codes[p]|
    ensures b !in codes
    ensures forall q :: 0 <= q <= |codes| ==> b !in codes[..q]
  {
  }

  /** The first node of a path: its entry is in the byte table. */
  lemma AddTopNode(packed: bool, codes: seq<BitString>, vals: seq<nat>, p: nat, nodes: seq<BitString>, tree: seq<int>,
                   table: seq<int>)
    requires Coded(codes, vals) && p < |codes| && Nodes(codes, p + 1, nodes) && Covered(codes, p, nodes)
    requires Tree(codes, vals, p, nodes, tree) && Top(packed, codes, vals, p, nodes, table)
    requires |codes[p]| > 8 && codes[p][..8] !in nodes
    ensures var b := codes[p][..8]; var nodes' := nodes + [b];
      && Nodes(codes, p + 1, nodes') && Tree(codes, vals, p, nodes', tree)
      && Val(b) < 256 && Top(packed, codes, vals, p, nodes', table[Val(b) := Entry(|nodes|)])
  {
    var b := codes[p][..8];
    var nodes' := nodes + [b];
    AddNodeOrder(codes, p, nodes, b);
    forall i, bit' | 0 <= i < |nodes'| && Cell(i, bit') < TREE_MAX
      ensures Points(codes, vals, p, nodes', nodes'[i] + [bit'], tree[Cell(i, bit')])
    {
      if i < |nodes| {
        AddNodePoints(codes, vals, p, nodes, b, nodes[i] + [bit'], tree[Cell(i, bit')]);
      } else {
        NothingBelow(codes, vals, p, nodes, b, bit');
      }
    }
    Pow2Values();
    AddTopEntries(packed, codes, vals, p, nodes, table);
  }

  lemma AddTopEntries(packed: bool, codes: seq<BitString>, vals: seq<nat>, p: nat, nodes: seq<BitString>,
                      table: seq<int>)
    requires Coded(codes, vals) && p < |codes| && Top(packed, codes, vals, p, nodes, table)
    requires |codes[p]| > 8 && codes[p][..8] !in nodes && Val(codes[p][..8]) < 256
    ensures var b := codes[p][..8]; Top(packed, codes, vals, p, nodes + [b], table[Val(b) := Entry(|nodes|)])
  {
    var b := codes[p][..8];
    var nodes', table' := nodes + [b], table[Val(b) := Entry(|nodes|)];
    NoWordInside(codes, p, b);
    forall x | 0 <= x < 256 ensures TopPoints(packed, codes, vals, p, nodes', Enc(x, 8), table'[x]) {
      assert TopPoints(packed, codes, vals, p, nodes, Enc(x, 8), table[x]);
      ByteIs(x, b);
      assert Enc(x, 8) in nodes ==> Enc(x, 8) in nodes';
      if x != Val(b) && Enc(x, 8) in nodes' {
        var i :| 0 <= i < |nodes'| && nodes'[i] == Enc(x, 8);
        assert nodes[i] == Enc(x, 8);
      }
    }
  }

  lemma ByteIs(x: nat, b: BitString)
    requires x < 256 && |b| == 8
    ensures Enc(x, 8) == b <==> x == Val(b)
  {
    Pow2Values();
    ValEnc(x, 8);
    EncVal(b);
  }

  /** No word is a prefix of a proper prefix of a word. */
  lemma NoWordInside(codes: seq<BitString>, p: nat, b: BitString)
    requires PrefixFree(codes) && p < |codes| && b <= codes[p] && |b| < |codes[p]|
    ensures forall k :: 0 <= k < |codes| ==> !(codes[k] <= b)
  {
  }

  // ----- Entering a word -----

  /** A long word's symbol goes into the last cell of its path. */
  lemma SetLongWord(codes: seq<BitString>, vals: seq<nat>, p: nat, nodes: seq<BitString>, tree: seq<int>, j: nat,
                    bit: bool)
    requires Coded(codes, vals) && p < |codes| && Nodes(codes, p + 1, nodes)
    requires Tree(codes, vals, p, nodes, tree)
    requires j < |nodes| && Cell(j, bit) < TREE_MAX && codes[p] == nodes[j] + [bit]
    ensures Tree(codes, vals, p + 1, nodes, tree[Cell(j, bit) := vals[p]])
  {
    var tree' := tree[Cell(j, bit) := vals[p]];
    WordIsNoNode(codes, p, nodes);
    forall i, bit' | 0 <= i < |nodes| && Cell(i, bit') < TREE_MAX
      ensures Points(codes, vals, p + 1, nodes, nodes[i] + [bit'], tree'[Cell(i, bit')])
    {
      assert Points(codes, vals, p, nodes, nodes[i] + [bit'], tree[Cell(i, bit')]);
      SameCell(nodes, i, bit', j, bit);
      NextWordPoints(codes, vals, p, nodes, nodes[i] + [bit'], tree[Cell(i, bit')]);
    }
  }

  lemma WordIsNoNode(codes: seq<BitString>, p: nat, nodes: seq<BitString>)
    requires PrefixFree(codes) && p < |codes| && Nodes(codes, p + 1, nodes)
    ensures codes[p] !in nodes
  {
  }

  lemma NextWordPoints(codes: seq<BitString>, vals: seq<nat>, p: nat, nodes: seq<BitString>, c: BitString, v: int)
    requires Coded(codes, vals) && p < |codes| && Points(codes, vals, p, nodes, c, v) && codes[p] !in nodes
    ensures c != codes[p] ==> Points(codes, vals, p + 1, nodes, c, v)
    ensures c == codes[p] ==> Points(codes, vals, p + 1, nodes, c, vals[p])
  {
    assert codes[..p + 1] == codes[..p] + [codes[p]];
    if c == codes[p] {
      forall k | 0 <= k < p ensures codes[k] != c { assert !(codes[k] <= codes[p]); }
    }
  }

  /** A short word does not show in the tree. */
  lemma ShortWordTree(codes: seq<BitString>, vals: seq<nat>, p: nat, nodes: seq<BitString>, tree: seq<int>)
    requires Coded(codes, vals) && p < |codes| && Nodes(codes, p + 1, nodes) && |codes[p]| <= 8
    requires Tree(codes, vals, p, nodes, tree)
    ensures Tree(codes, vals, p + 1, nodes, tree)
  {
    forall i, bit' | 0 <= i < |nodes| && Cell(i, bit') < TREE_MAX
      ensures Points(codes, vals, p + 1, nodes, nodes[i] + [bit'], tree[Cell(i, bit')])
    {
      assert Points(codes, vals, p, nodes, nodes[i] + [bit'], tree[Cell(i, bit')]);
      WordIsNoNode(codes, p, nodes);
      assert |nodes[i]| >= 8;
      NextWordPoints(codes, vals, p, nodes, nodes[i] + [bit'], tree[Cell(i, bit')]);
    }
  }

  /** A long word does not show in the byte table beyond its node. */
  lemma LongWordTop(packed: bool, codes: seq<BitString>, vals: seq<nat>, p: nat, nodes: seq<BitString>, table: seq<int>)
    requires p < |codes| <= |vals| && |codes[p]| > 8 && Top(packed, codes, vals, p, nodes, table)
    ensures Top(packed, codes, vals, p + 1, nodes, table)
  {
    forall x | 0 <= x < 256 ensures TopPoints(packed, codes, vals, p + 1, nodes, Enc(x, 8), table[x]) {
      assert TopPoints(packed, codes, vals, p, nodes, Enc(x, 8), table[x]);
    }
  }

  /** A short word owns every byte that starts with it. */
  lemma ShortWordTop(packed: bool, codes: seq<BitString>, vals: seq<nat>, p: nat, nodes: seq<BitString>,
                     table: seq<int>, table': seq<int>)
    requires Coded(codes, vals) && p < |codes| && |codes[p]| <= 8 && Nodes(codes, p + 1, nodes)
    requires Top(packed, codes, vals, p, nodes, table) && |table'| == 256
    requires forall x :: 0 <= x < 256 ==> table'[x] == if codes[p] <= Enc(x, 8)
        then SymbolEntry(packed, vals[p], |codes[p]|, Enc(x, 8)) else table[x]
    ensures Top(packed, codes, vals, p + 1, nodes, table')
  {
    forall x | 0 <= x < 256 ensures TopPoints(packed, codes, vals, p + 1, nodes, Enc(x, 8), table'[x]) {
      var b := Enc(x, 8);
      assert TopPoints(packed, codes, vals, p, nodes, b, table[x]);
      if codes[p] <= b {
        forall k | 0 <= k < p ensures !(codes[k] <= b) {
          if codes[k] <= b { CommonPrefix(codes, k, p, b); }
        }
      }
    }
  }

  lemma CommonPrefix(codes: seq<BitString>, j: nat, k: nat, b: BitString)
    requires PrefixFree(codes) && j < |codes| && k < |codes| && codes[j] <= b && codes[k] <= b
    ensures j == k
  {
    PrefixOrder(codes[j], codes[k], b);
    PrefixOrder(codes[k], codes[j], b);
  }
}
