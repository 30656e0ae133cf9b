/** huff_tables and make_huff_table(): canonical codes and the tables that decode them. */
module HuffTables {
  import opened Bits
  import opened Canonical
  import opened CodeTrees

  /** Where words of each length stop among the first words: the counts' lengths, one after the other. */
  method ExpandCounts(counts: seq<nat>, huffsize: array<nat>) returns (p: nat)
    requires |counts| == 17 && |Lens(counts, 16)| < huffsize.Length
    modifies huffsize
    ensures p == |Lens(counts, 16)| && huffsize[..p] == Lens(counts, 16) && huffsize[p] == 0
  {
    p := 0;
    for l := 1 to 17
      invariant p == |Lens(counts, l - 1)| <= |Lens(counts, 16)| && huffsize[..p] == Lens(counts, l - 1)
    {
      LensMono(counts, l, 16);
      for i := 0 to counts[l]
        invariant p == |Lens(counts, l - 1)| + i
        invariant huffsize[..p] == Lens(counts, l - 1) + Repeat(l, i)
      {
        huffsize[p] := l;
        p := p + 1;
        assert Repeat(l, i + 1) == Repeat(l, i) + [l];
      }
    }
    huffsize[p] := 0;
  }

  method AssignCodes(huffsize: array<nat>, huffcode: array<nat>, ghost lens: seq<nat>)
    requires huffsize.Length > |lens| && huffcode.Length >= |lens| && huffsize != huffcode
    requires huffsize[..|lens|] == lens && huffsize[|lens|] == 0
    requires AtMost16(lens) && forall i, j :: 0 <= i <= j < |lens| ==> lens[i] <= lens[j]
    modifies huffcode
    ensures forall k :: 0 <= k < |lens| ==> huffcode[k] == Code(lens, k)
  {
    hide Widening, Code;
    ghost var n := |lens|;
    var code: nat, p: nat, si: nat := 0, 0, huffsize[0];
    WideningFirst(lens);
    while huffsize[p] != 0
      invariant p <= n && Widening(lens, p, si, code) && (n > 0 ==> si >= 1) && (p < n ==> si <= lens[p])
      invariant forall k :: 0 <= k < p ==> huffcode[k] == Code(lens, k)
      decreases n - p, if p < n then lens[p] - si else 0
    {
      while huffsize[p] == si
        invariant p <= n && Widening(lens, p, si, code) && (n > 0 ==> si >= 1) && (p < n ==> si <= lens[p])
        invariant forall k :: 0 <= k < p ==> huffcode[k] == Code(lens, k)
        decreases n - p
      {
        WideningNext(lens, p, si, code);
        huffcode[p] := code;
        p := p + 1;
        code := code + 1;
      }
      WideningStep(lens, p, si, code);
      code := code * 2;
      si := si + 1;
    }
  }

  // ----- Bytes and codes as numbers -----

  /** The bytes that start with a word are those from its code widened to 8 bits up to the next code. */
  lemma ByteStarts(c: BitString, x: nat)
    requires |c| <= 8 && x < 256
    ensures c <= Enc(x, 8) <==> Val(c) * Pow2(8 - |c|) <= x < (Val(c) + 1) * Pow2(8 - |c|)
  {
    hide *;
    var b, n := Enc(x, 8), |c|;
    ByteParts(x, n);
    ByteRange(Val(b[..n]), Val(b[n..]), Val(c), Pow2(8 - n), x);
    SamePrefix(b, c);
  }

  lemma ByteParts(x: nat, n: nat)
    requires n <= 8 && x < 256
    ensures var b := Enc(x, 8); x == Val(b[..n]) * Pow2(8 - n) + Val(b[n..]) && Val(b[n..]) < Pow2(8 - n)
  {
    hide *;
    Pow2Values();
    ValEnc(x, 8);
    ValSplit(Enc(x, 8), n);
  }

  lemma SamePrefix(b: BitString, c: BitString)
    requires |c| <= |b|
    ensures c <= b <==> Val(b[..|c|]) == Val(c)
  {
    hide *;
    if Val(b[..|c|]) == Val(c) { ValInjective(b[..|c|], c); }
    if c <= b { assert b[..|c|] == c; }
  }

  lemma ByteRange(q: nat, r: nat, c: nat, d: nat, x: nat)
    requires r < d && x == q * d + r
    ensures q == c <==> c * d <= x < (c + 1) * d
  {
    MulDistr(c, 1, d);
    MulDistr(q, 1, d);
    if q < c { MulMono(q + 1, c, d); }
    if c < q { MulMono(c + 1, q, d); }
  }

  /** Shifting and masking cut a field out of a byte. */
  lemma ByteField(x: nat, i: nat, n: nat)
    requires x < 256 && i + n <= 8
    ensures x / Pow2(8 - (i + n)) % Pow2(n) == Val(Enc(x, 8)[i..i + n])
  {
    var b := Enc(x, 8);
    Pow2Values();
    ValEnc(x, 8);
    ValSplit(b, i + n);
    var c := b[..i + n];
    ValSplit(c, i);
    assert c[i..] == b[i..i + n];
  }

  /** Bit t of a word, read off at position 15 of its code shifted so that the first byte is gone. */
  lemma BitOfCode(c: BitString, t: nat)
    requires |c| <= 16 && 8 <= t < |c|
    ensures Val(c) * Pow2(16 + t - |c|) / 0x8000 % 2 == if c[t] then 1 else 0
    ensures Val(c) * Pow2(16 + t - |c|) < 0x1_0000_0000
  {
    hide *;
    var r, a := |c| - t - 1, 16 + t - |c|;
    assert Pow2(r) * Pow2(a) == 0x8000 by { Pow2Add(r, a); Pow2Values(); }
    ValSplit(c, t + 1);
    ShiftQuotient(Val(c), Val(c[..t + 1]), Val(c[t + 1..]), Pow2(r), Pow2(a));
    LastBit(c, t);
    SmallShift(Val(c[..t + 1]), Val(c) * Pow2(a));
  }

  lemma LastBit(c: BitString, t: nat)
    requires t < |c| && t < 16
    ensures Val(c[..t + 1]) % 2 == (if c[t] then 1 else 0) && Val(c[..t + 1]) < 0x1_0000
  {
    assert c[..t + 1][..t] == c[..t] && c[..t + 1][t] == c[t];
    Pow2Mono(t + 1, 16);
    Pow2Values();
  }

  lemma ShiftQuotient(v: nat, hi: nat, lo: nat, p: nat, q: nat)
    requires lo < p && q >= 1 && p * q == 0x8000 && v == hi * p + lo
    ensures v * q / 0x8000 == hi
  {
    ShiftArithmetic(v, hi, lo, p, q, 0x8000);
    MulAssoc(hi, p, q);
    MulDistr(hi * p, lo, q);
    DivMod(hi, lo * q, 0x8000);
  }

  lemma SmallShift(hi: nat, x: nat)
    requires x / 0x8000 == hi < 0x1_0000
    ensures x < 0x1_0000_0000
  {
  }

  /** The first byte of a long word, by shifting. */
  lemma FirstByte(c: BitString)
    requires 8 <= |c|
    ensures Val(c) / Pow2(|c| - 8) == Val(c[..8]) < 256
  {
    ValSplit(c, 8);
    Pow2Values();
  }

  // ----- The tables -----

  /** What all tables hold once the first p words are in. */
  ghost predicate Entered(codes: seq<BitString>, vals: seq<nat>, p: nat, nodes: seq<BitString>,
                          lookUp: seq<int>, lookUp2: seq<int>, codeSize: seq<nat>, tree: seq<int>)
  {
    && Coded(codes, vals) && p <= |codes|
    && Nodes(codes, p, nodes) && Covered(codes, p, nodes) && 2 * |nodes| <= TREE_MAX
    && Tree(codes, vals, p, nodes, tree)
    && Top(false, codes, vals, p, nodes, lookUp)
    && Top(true, codes, vals, p, nodes, lookUp2)
    && Sizes(codes, vals, p, codeSize)
  }

  ghost predicate Sizes(codes: seq<BitString>, vals: seq<nat>, p: nat, codeSize: seq<nat>) {
    && p <= |codes| <= |vals| && |codeSize| == 256
    && (forall k :: 0 <= k < p ==> vals[k] < 256 && codeSize[vals[k]] == |codes[k]|)
    && (forall i :: 0 <= i < 256 ==> codeSize[i] <= 16)
  }

  lemma NodesWiden(codes: seq<BitString>, p: nat, nodes: seq<BitString>)
    requires p < |codes| && Nodes(codes, p, nodes)
    ensures Nodes(codes, p + 1, nodes)
  {
    forall j | 0 <= j < |nodes| ensures ProperPrefix(codes, p + 1, nodes[j]) {
      assert ProperPrefix(codes, p, nodes[j]);
    }
  }

  lemma NothingEntered(codes: seq<BitString>, vals: seq<nat>, lookUp: seq<int>, lookUp2: seq<int>, codeSize: seq<nat>,
                       tree: seq<int>)
    requires Coded(codes, vals) && |lookUp| == |lookUp2| == |codeSize| == 256 && |tree| == TREE_MAX
    requires forall x :: 0 <= x < 256 ==> lookUp[x] == lookUp2[x] == 0
    requires forall i :: 0 <= i < TREE_MAX ==> tree[i] == 0
    requires forall x :: 0 <= x < 256 ==> codeSize[x] == 0
    ensures Entered(codes, vals, 0, [], lookUp, lookUp2, codeSize, tree)
  {
  }

  lemma SizesNext(codes: seq<BitString>, vals: seq<nat>, p: nat, codeSize: seq<nat>)
    requires Coded(codes, vals) && p < |codes| && Sizes(codes, vals, p, codeSize)
    ensures vals[p] < 256 && Sizes(codes, vals, p + 1, codeSize[vals[p] := |codes[p]|])
  {
  }

  /** A short word: every byte that starts with its code. */
  lemma ShortEntered(codes: seq<BitString>, vals: seq<nat>, p: nat, nodes: seq<BitString>,
                     lookUp: seq<int>, lookUp2: seq<int>, codeSize: seq<nat>, tree: seq<int>,
                     lookUp': seq<int>, lookUp2': seq<int>)
    requires p < |codes| && |codes[p]| <= 8 && Entered(codes, vals, p, nodes, lookUp, lookUp2, codeSize, tree)
    requires |lookUp'| == |lookUp2'| == 256
    requires forall x :: 0 <= x < 256 ==> lookUp'[x] == if codes[p] <= Enc(x, 8) then vals[p] else lookUp[x]
    requires forall x :: 0 <= x < 256 ==>
      lookUp2'[x] == if codes[p] <= Enc(x, 8) then SymbolEntry(true, vals[p], |codes[p]|, Enc(x, 8)) else lookUp2[x]
    ensures vals[p] < 256
    ensures Entered(codes, vals, p + 1, nodes, lookUp', lookUp2', codeSize[vals[p] := |codes[p]|], tree)
  {
    hide Nodes, Tree;
    assert Covered(codes, p + 1, nodes);
    assert forall x :: 0 <= x < 256 ==>
      lookUp'[x] == if codes[p] <= Enc(x, 8) then SymbolEntry(false, vals[p], |codes[p]|, Enc(x, 8)) else lookUp[x];
    hide Covered, Sizes, Coded, Top;
    NodesWiden(codes, p, nodes);
    ShortWordTree(codes, vals, p, nodes, tree);
    ShortWordTop(false, codes, vals, p, nodes, lookUp, lookUp');
    ShortWordTop(true, codes, vals, p, nodes, lookUp2, lookUp2');
    SizesNext(codes, vals, p, codeSize);
  }

  /** The packed entry, computed with the source's shifts and masks. */
  function PackedEntry(i: nat, size: nat, x: nat): int
    requires 1 <= size <= 8 && i < 256
  {
    var extra := i % 16;
    var total := size + extra;
    if extra != 0 && total <= 8 then i + 0x8000 + 0x1_0000 * (x / Pow2(8 - total) % Pow2(extra)) + 256 * total
    else i + 256 * size
  }

  lemma PackedIs(i: nat, size: nat, x: nat)
    requires 1 <= size <= 8 && i < 256 && x < 256
    ensures PackedEntry(i, size, x) == SymbolEntry(true, i, size, Enc(x, 8))
  {
    var extra := i % 16;
    if extra != 0 && size + extra <= 8 { ByteField(x, size, extra); }
  }

  /** Enters word p, whose code of `size` bits is at most a byte; false where the source stops decoding. */
  method EnterShort(lookUp: array<int>, lookUp2: array<int>, i: nat, code: nat, size: nat, ghost c: BitString)
    returns (ok: bool)
    requires lookUp.Length == lookUp2.Length == 256 && lookUp != lookUp2
    requires 1 <= size == |c| <= 8 && i < 256 && code == Val(c)
    modifies lookUp, lookUp2
    ensures ok
    ensures forall x :: 0 <= x < 256 ==> lookUp[x] == if c <= Enc(x, 8) then i else old(lookUp[x])
    ensures forall x :: 0 <= x < 256 ==>
      lookUp2[x] == if c <= Enc(x, 8) then SymbolEntry(true, i, size, Enc(x, 8)) else old(lookUp2[x])
  {
    hide *;
    ghost var first, n := code * Pow2(8 - size), Pow2(8 - size);
    LastByte(c);
    var at, l := code * Pow2(8 - size), Pow2(8 - size);
    while l > 0
      invariant 0 <= l <= n && at == first + n - l && first + n <= 256
      invariant forall x :: first <= x < at ==> lookUp[x] == i && lookUp2[x] == PackedEntry(i, size, x)
      invariant forall x :: 0 <= x < 256 && !(first <= x < at) ==>
          lookUp[x] == old(lookUp[x]) && lookUp2[x] == old(lookUp2[x])
    {
      if at >= 256 { return false; }
      lookUp[at] := i;
      lookUp2[at] := PackedEntry(i, size, at);
      at := at + 1;
      l := l - 1;
    }
    forall x | 0 <= x < 256
      ensures c <= Enc(x, 8) <==> first <= x < first + n
      ensures PackedEntry(i, size, x) == SymbolEntry(true, i, size, Enc(x, 8))
    {
      ByteIn(c, x);
      PackedIs(i, size, x);
    }
    ok := true;
  }

  lemma ByteIn(c: BitString, x: nat)
    requires |c| <= 8 && x < 256
    ensures c <= Enc(x, 8) <==> Val(c) * Pow2(8 - |c|) <= x < Val(c) * Pow2(8 - |c|) + Pow2(8 - |c|)
  {
    hide *;
    ByteStarts(c, x);
    MulDistr(Val(c), 1, Pow2(8 - |c|));
  }

  lemma LastByte(c: BitString)
    requires |c| <= 8
    ensures Val(c) * Pow2(8 - |c|) + Pow2(8 - |c|) <= 256
  {
    hide *;
    Pow2Add(|c|, 8 - |c|);
    Pow2Values();
    MulMono(Val(c) + 1, Pow2(|c|), Pow2(8 - |c|));
    MulDistr(Val(c), 1, Pow2(8 - |c|));
  }

  // ----- Long words -----

  /** The path of word p has been built down to its first t bits, at node j. */
  ghost predicate OnPath(codes: seq<BitString>, vals: seq<nat>, p: nat, nodes: seq<BitString>, tree: seq<int>,
                         lookUp: seq<int>, lookUp2: seq<int>, j: nat, t: nat)
  {
    && p < |codes| && Coded(codes, vals) && Nodes(codes, p + 1, nodes) && Covered(codes, p, nodes)
    && Tree(codes, vals, p, nodes, tree)
    && Top(false, codes, vals, p, nodes, lookUp) && Top(true, codes, vals, p, nodes, lookUp2)
    && 8 <= t < |codes[p]| && j < |nodes| && nodes[j] == codes[p][..t]
    && (forall u :: 8 <= u < t ==> codes[p][..u] in nodes)
    && 2 * |nodes| <= TREE_MAX + if j == |nodes| - 1 then 2 else 0
  }

  /** The words have more proper prefixes of 8 bits and more than the tree has room for. */
  ghost predicate Overfull(codes: seq<BitString>) {
    exists nodes: seq<BitString> :: 2 * |nodes| > TREE_MAX && Nodes(codes, |codes|, nodes)
  }

  lemma PathOverfull(codes: seq<BitString>, vals: seq<nat>, p: nat, nodes: seq<BitString>, tree: seq<int>,
                     lookUp: seq<int>, lookUp2: seq<int>, j: nat, t: nat, bit: bool)
    requires OnPath(codes, vals, p, nodes, tree, lookUp, lookUp2, j, t) && Cell(j, bit) >= TREE_MAX
    ensures Overfull(codes)
  {
    forall i | 0 <= i < |nodes| ensures ProperPrefix(codes, |codes|, nodes[i]) {
      assert ProperPrefix(codes, p + 1, nodes[i]);
    }
    assert Nodes(codes, |codes|, nodes);
  }

  /** Once all words are in, there are no more proper prefixes than the tree has room for. */
  lemma EnteredNotOverfull(codes: seq<BitString>, vals: seq<nat>, nodes: seq<BitString>, lookUp: seq<int>,
                           lookUp2: seq<int>,
                           codeSize: seq<nat>, tree: seq<int>)
    requires Entered(codes, vals, |codes|, nodes, lookUp, lookUp2, codeSize, tree)
    ensures !Overfull(codes)
  {
    if Overfull(codes) {
      var others: seq<BitString> :| 2 * |others| > TREE_MAX && Nodes(codes, |codes|, others);
      hide Top, Tree, Sizes, Coded;
      forall i | 0 <= i < |others| ensures others[i] in nodes {
        assert ProperPrefix(codes, |codes|, others[i]);
        var k :| 0 <= k < |codes| && |others[i]| < |codes[k]| && others[i] <= codes[k];
        assert codes[k][..|others[i]|] == others[i];
      }
      NoMoreThan(others, nodes);
      assert false;
    }
  }

  /** A sequence without repetition is no longer than one that has all its elements. */
  lemma {:induction false} NoMoreThan<T>(a: seq<T>, b: seq<T>)
    requires forall i, j :: 0 <= i < j < |a| ==> a[i] != a[j]
    requires forall i :: 0 <= i < |a| ==> a[i] in b
    ensures |a| <= |b|
  {
    if a != [] {
      var k :| 0 <= k < |b| && b[k] == a[0];
      var b' := b[..k] + b[k + 1..];
      forall i | 0 <= i < |a| - 1 ensures a[1..][i] in b' {
        var m :| 0 <= m < |b| && b[m] == a[i + 1];
        assert m != k;
        assert b[m] == if m < k then b'[m] else b'[m - 1];
      }
      NoMoreThan(a[1..], b');
    }
  }

  /** The byte table's entry for a long word's first byte: its node if there is one. */
  lemma TopEntry(packed: bool, codes: seq<BitString>, vals: seq<nat>, p: nat, nodes: seq<BitString>, table: seq<int>)
      returns (j: nat)
    requires p < |codes| && Coded(codes, vals) && |codes[p]| > 8 && Top(packed, codes, vals, p, nodes, table)
    ensures Val(codes[p][..8]) < 256 == |table|
    ensures codes[p][..8] !in nodes ==> table[Val(codes[p][..8])] == 0
    ensures codes[p][..8] in nodes ==>
      j < |nodes| && nodes[j] == codes[p][..8] && table[Val(codes[p][..8])] == Entry(j)
  {
    var b := codes[p][..8];
    Pow2Values();
    EncVal(b);
    assert TopPoints(packed, codes, vals, p, nodes, Enc(Val(b), 8), table[Val(b)]);
    NoWordInside(codes, p, b);
    j := 0;
    if b in nodes { j :| 0 <= j < |nodes| && nodes[j] == b; }
  }

  lemma StartPath(codes: seq<BitString>, vals: seq<nat>, p: nat, nodes: seq<BitString>, tree: seq<int>,
                  lookUp: seq<int>, lookUp2: seq<int>, codeSize: seq<nat>, j: nat)
    requires Entered(codes, vals, p, nodes, lookUp, lookUp2, codeSize, tree) && p < |codes| && |codes[p]| > 8
    requires j < |nodes| && nodes[j] == codes[p][..8]
    ensures OnPath(codes, vals, p, nodes, tree, lookUp, lookUp2, j, 8)
  {
    hide Coded, Tree, Top, Covered;
    NodesWiden(codes, p, nodes);
  }

  lemma StartNewPath(codes: seq<BitString>, vals: seq<nat>, p: nat, nodes: seq<BitString>, tree: seq<int>,
                     lookUp: seq<int>, lookUp2: seq<int>, codeSize: seq<nat>)
    requires Entered(codes, vals, p, nodes, lookUp, lookUp2, codeSize, tree) && p < |codes| && |codes[p]| > 8
    requires codes[p][..8] !in nodes
    ensures var b := codes[p][..8]; var x := Val(b); var e := Entry(|nodes|);
      && x < 256 == |lookUp| == |lookUp2|
      && OnPath(codes, vals, p, nodes + [b], tree, lookUp[x := e], lookUp2[x := e], |nodes|, 8)
  {
    var b := codes[p][..8];
    assert 2 * |nodes| <= TREE_MAX && |lookUp| == |lookUp2| == 256;
    assert (nodes + [b])[|nodes|] == b;
    NodesWiden(codes, p, nodes);
    hide Coded, Tree, Top, Nodes;
    AddTopNode(false, codes, vals, p, nodes, tree, lookUp);
    AddTopEntries(true, codes, vals, p, nodes, lookUp2);
    CoveredWiden(codes, p, nodes, b);
  }

  lemma CoveredWiden(codes: seq<BitString>, p: nat, nodes: seq<BitString>, b: BitString)
    requires p <= |codes| && Covered(codes, p, nodes)
    ensures Covered(codes, p, nodes + [b])
  {
    forall k, t | 0 <= k < p && 8 <= t < |codes[k]| ensures codes[k][..t] in nodes + [b] {
      assert codes[k][..t] in nodes;
    }
  }

  /** The tree entry for the next proper prefix of word p: its node if there is one. */
  lemma PathEntry(codes: seq<BitString>, vals: seq<nat>, p: nat, nodes: seq<BitString>, tree: seq<int>,
                  lookUp: seq<int>, lookUp2: seq<int>, j: nat, t: nat) returns (i: nat)
    requires OnPath(codes, vals, p, nodes, tree, lookUp, lookUp2, j, t) && t + 1 < |codes[p]|
    requires Cell(j, codes[p][t]) < TREE_MAX
    ensures var b := codes[p][..t + 1]; var v := tree[Cell(j, codes[p][t])];
      && b == nodes[j] + [codes[p][t]]
      && (b !in nodes ==> v == 0)
      && (b in nodes ==> i < |nodes| && nodes[i] == b && v == Entry(i))
  {
    var b := codes[p][..t + 1];
    assert b == nodes[j] + [codes[p][t]];
    assert Points(codes, vals, p, nodes, b, tree[Cell(j, codes[p][t])]);
    NotAWord(codes, p, b);
    i := 0;
    if b in nodes { i :| 0 <= i < |nodes| && nodes[i] == b; }
  }

  lemma FollowPath(codes: seq<BitString>, vals: seq<nat>, p: nat, nodes: seq<BitString>, tree: seq<int>,
                   lookUp: seq<int>, lookUp2: seq<int>, j: nat, t: nat, i: nat)
    requires OnPath(codes, vals, p, nodes, tree, lookUp, lookUp2, j, t) && t + 1 < |codes[p]|
    requires Cell(j, codes[p][t]) < TREE_MAX && i < |nodes| && nodes[i] == codes[p][..t + 1]
    ensures OnPath(codes, vals, p, nodes, tree, lookUp, lookUp2, i, t + 1)
  {
    hide Coded, Tree, Top, Nodes, Covered;
    RoomForNodes(nodes, j, TREE_MAX);
  }

  lemma RoomForNodes(nodes: seq<BitString>, j: nat, max: nat)
    requires 2 * |nodes| <= max + if j == |nodes| - 1 then 2 else 0
    requires 2 * j < max && max % 2 == 0
    ensures 2 * |nodes| <= max
  {
  }

  lemma ExtendPath(codes: seq<BitString>, vals: seq<nat>, p: nat, nodes: seq<BitString>, tree: seq<int>,
                   lookUp: seq<int>, lookUp2: seq<int>, j: nat, t: nat)
    requires OnPath(codes, vals, p, nodes, tree, lookUp, lookUp2, j, t) && t + 1 < |codes[p]|
    requires Cell(j, codes[p][t]) < TREE_MAX && codes[p][..t + 1] !in nodes && |tree| == TREE_MAX
    ensures OnPath(codes, vals, p, nodes + [codes[p][..t + 1]], tree[Cell(j, codes[p][t]) := Entry(|nodes|)],
                   lookUp, lookUp2, |nodes|, t + 1)
  {
    var b := codes[p][..t + 1];
    assert b == nodes[j] + [codes[p][t]];
    var nodes' := nodes + [b];
    assert nodes'[|nodes|] == b;
    RoomForNodes(nodes, j, TREE_MAX);
    AddNodeTree(codes, vals, p, nodes, tree, j, codes[p][t]);
    CoveredWiden(codes, p, nodes, b);
    TopKeeps(false, codes, vals, p, nodes, lookUp, b);
    TopKeeps(true, codes, vals, p, nodes, lookUp2, b);
    hide Coded, Tree, Top, Nodes, Covered;
    forall u | 8 <= u < t + 1 ensures codes[p][..u] in nodes' {
      if u < t { assert codes[p][..u] in nodes; } else { assert nodes[j] in nodes; }
    }
  }

  /** A node of more than 8 bits is no byte. */
  lemma TopKeeps(packed: bool, codes: seq<BitString>, vals: seq<nat>, p: nat, nodes: seq<BitString>, table: seq<int>,
                 b: BitString)
    requires p <= |codes| <= |vals| && Top(packed, codes, vals, p, nodes, table) && |b| > 8
    ensures Top(packed, codes, vals, p, nodes + [b], table)
  {
    forall x | 0 <= x < 256 ensures TopPoints(packed, codes, vals, p, nodes + [b], Enc(x, 8), table[x]) {
      assert TopPoints(packed, codes, vals, p, nodes, Enc(x, 8), table[x]);
      assert Enc(x, 8) in nodes ==> Enc(x, 8) in nodes + [b];
    }
  }

  /** The symbol goes in at the end of the path. */
  lemma FinishPath(codes: seq<BitString>, vals: seq<nat>, p: nat, nodes: seq<BitString>, tree: seq<int>,
                   lookUp: seq<int>, lookUp2: seq<int>, codeSize: seq<nat>, j: nat, t: nat)
    requires OnPath(codes, vals, p, nodes, tree, lookUp, lookUp2, j, t) && t + 1 == |codes[p]|
    requires Cell(j, codes[p][t]) < TREE_MAX == |tree| && Sizes(codes, vals, p, codeSize)
    ensures vals[p] < 256
    ensures Entered(codes, vals, p + 1, nodes, lookUp, lookUp2, codeSize[vals[p] := |codes[p]|],
                    tree[Cell(j, codes[p][t]) := vals[p]])
  {
    assert codes[p] == nodes[j] + [codes[p][t]];
    RoomForNodes(nodes, j, TREE_MAX);
    CoverWord(codes, p, nodes, j, t);
    hide Coded, Tree, Top, Nodes, Covered;
    SetLongWord(codes, vals, p, nodes, tree, j, codes[p][t]);
    SizesNext(codes, vals, p, codeSize);
    hide Sizes;
    LongWordTop(false, codes, vals, p, nodes, lookUp);
    LongWordTop(true, codes, vals, p, nodes, lookUp2);
  }

  lemma CoverWord(codes: seq<BitString>, p: nat, nodes: seq<BitString>, j: nat, t: nat)
    requires p < |codes| && Covered(codes, p, nodes) && t + 1 == |codes[p]| && j < |nodes| && nodes[j] == codes[p][..t]
    requires forall u :: 8 <= u < t ==> codes[p][..u] in nodes
    ensures Covered(codes, p + 1, nodes)
  {
    forall k, u | 0 <= k < p + 1 && 8 <= u < |codes[k]| ensures codes[k][..u] in nodes {
      if k == p && u == t { assert nodes[j] in nodes; }
    }
  }

  /** Enters word p by its path of nodes; false where the source stops decoding because the tree is full. */
  method EnterLong(lookUp: array<int>, lookUp2: array<int>, tree: array<int>, nextFree: int, i: nat, codeNo: nat,
                   size: nat,
                   ghost codes: seq<BitString>, ghost vals: seq<nat>, ghost p: nat, ghost nodes: seq<BitString>,
                   ghost codeSize: seq<nat>)
    returns (ok: bool, nextFree': int, ghost nodes': seq<BitString>)
    requires lookUp != lookUp2 && lookUp != tree && lookUp2 != tree
    requires Entered(codes, vals, p, nodes, lookUp[..], lookUp2[..], codeSize, tree[..]) && p < |codes|
    requires |codes[p]| == size > 8 && size <= 16 && Val(codes[p]) == codeNo && vals[p] == i && i < |codeSize|
    requires nextFree == Entry(|nodes|)
    modifies lookUp, lookUp2, tree
    ensures ok ==> nextFree' == Entry(|nodes'|)
    ensures ok ==> Entered(codes, vals, p + 1, nodes', lookUp[..], lookUp2[..], codeSize[i := size], tree[..])
    ensures !ok ==> Overfull(codes)
  {
    Lengths3(codes, vals, p, nodes, lookUp[..], lookUp2[..], codeSize, tree[..]);
    hide *;
    FirstByte(codes[p]);
    var cur;
    ghost var j;
    cur, nextFree', j, nodes' :=
      EnterTop(lookUp, lookUp2, codeNo / Pow2(size - 8), nextFree, codes, vals, p, nodes, codeSize, tree[..]);
    var at;
    ok, at, nextFree', j, nodes' := WalkPath(tree, cur, nextFree', codeNo, size, codes, vals, p, nodes', lookUp[..],
                                             lookUp2[..], j);
    if !ok { return; }
    FinishPath(codes, vals, p, nodes', tree[..], lookUp[..], lookUp2[..], codeSize, j, size - 1);
    ghost var was := tree[..];
    tree[at] := i;
    assert tree[..] == was[at := i];
  }

  /** The node of the first byte: the one in the byte table, or a new one. */
  method EnterTop(lookUp: array<int>, lookUp2: array<int>, subtree: nat, nextFree: int,
                  ghost codes: seq<BitString>, ghost vals: seq<nat>, ghost p: nat, ghost nodes: seq<BitString>,
                  ghost codeSize: seq<nat>, ghost tree: seq<int>)
    returns (cur: int, nextFree': int, ghost j: nat, ghost nodes': seq<BitString>)
    requires lookUp != lookUp2
    requires Entered(codes, vals, p, nodes, lookUp[..], lookUp2[..], codeSize, tree) && p < |codes|
    requires |codes[p]| > 8 && subtree == Val(codes[p][..8]) && nextFree == Entry(|nodes|)
    modifies lookUp, lookUp2
    ensures OnPath(codes, vals, p, nodes', tree, lookUp[..], lookUp2[..], j, 8)
    ensures cur == Entry(j) && nextFree' == Entry(|nodes'|)
  {
    Lengths3(codes, vals, p, nodes, lookUp[..], lookUp2[..], codeSize, tree);
    hide *;
    j := TopEntry(false, codes, vals, p, nodes, lookUp[..]);
    cur, nextFree', nodes' := lookUp[subtree], nextFree, nodes;
    EntryNegative(j);
    if cur == 0 {
      StartNewPath(codes, vals, p, nodes, tree, lookUp[..], lookUp2[..], codeSize);
      EntryStep(|nodes|);
      ghost var up, up2 := lookUp[..], lookUp2[..];
      lookUp[subtree] := nextFree;
      lookUp2[subtree] := nextFree;
      assert lookUp[..] == up[subtree := nextFree] && lookUp2[..] == up2[subtree := nextFree];
      cur, nextFree' := nextFree, nextFree - 2;
      j, nodes' := |nodes|, nodes + [codes[p][..8]];
    } else {
      StartPath(codes, vals, p, nodes, tree, lookUp[..], lookUp2[..], codeSize, j);
    }
  }

  lemma Lengths3(codes: seq<BitString>, vals: seq<nat>, p: nat, nodes: seq<BitString>, lookUp: seq<int>,
                 lookUp2: seq<int>,
                 codeSize: seq<nat>, tree: seq<int>)
    requires Entered(codes, vals, p, nodes, lookUp, lookUp2, codeSize, tree) && p < |codes|
    ensures |lookUp| == |lookUp2| == |codeSize| == 256 && |tree| == TREE_MAX == 512 && Coded(codes, vals)
    ensures Top(false, codes, vals, p, nodes, lookUp) && Sizes(codes, vals, p, codeSize)
  {
  }

  lemma EntryNegative(j: nat)
    ensures Entry(j) < 0
  {
  }

  lemma EntryStep(j: nat)
    ensures Entry(j + 1) == Entry(j) - 2
  {
  }

  /** Down the tree, one node per bit, until the last bit's cell; false if a cell lies outside the tree. */
  method WalkPath(tree: array<int>, top: int, nextFree: int, codeNo: nat, size: nat,
                  ghost codes: seq<BitString>, ghost vals: seq<nat>, ghost p: nat, ghost nodes: seq<BitString>,
                  ghost lookUp: seq<int>, ghost lookUp2: seq<int>, ghost top_: nat)
    returns (ok: bool, at: nat, nextFree': int, ghost j: nat, ghost nodes': seq<BitString>)
    requires tree.Length == TREE_MAX && OnPath(codes, vals, p, nodes, tree[..], lookUp, lookUp2, top_, 8)
    requires p < |codes| && |codes[p]| == size <= 16 && Val(codes[p]) == codeNo && size > 8
    requires top == Entry(top_) && nextFree == Entry(|nodes|)
    modifies tree
    ensures ok ==> OnPath(codes, vals, p, nodes', tree[..], lookUp, lookUp2, j, size - 1)
    ensures ok ==> at == Cell(j, codes[p][size - 1]) < TREE_MAX && nextFree' == Entry(|nodes'|)
    ensures !ok ==> Overfull(codes)
  {
    ghost var c := codes[p];
    hide *;
    nodes', j, nextFree' := nodes, top_, nextFree;
    ghost var t: nat := 8;
    var cur, code, l := top, Shifted(codeNo, size, 8), size;
    at := 0;
    ok := true;
    while l > 9
      invariant 9 <= l <= size && t == 8 + (size - l) && cur == Entry(j) && nextFree' == Entry(|nodes'|)
      invariant code == Shifted(codeNo, size, t)
      invariant OnPath(codes, vals, p, nodes', tree[..], lookUp, lookUp2, j, t)
    {
      ShiftedBit(c, t);
      if !Bit15(code) { cur := cur - 1; }
      ok, cur, nextFree', j, nodes' := WalkStep(tree, cur, nextFree', codes, vals, p, nodes', lookUp, lookUp2, j, t);
      if !ok { return; }
      ShiftedNext(codeNo, size, t);
      code := code * 2;
      t, l := t + 1, l - 1;
    }
    ShiftedBit(c, size - 1);
    if !Bit15(code) { cur := cur - 1; }
    CellOfEntry(j, c[size - 1], cur);
    ok := -cur - 1 < TREE_MAX;
    if ok {
      at := -cur - 1;
    } else {
      PathOverfull(codes, vals, p, nodes', tree[..], lookUp, lookUp2, j, size - 1, c[size - 1]);
    }
  }

  /** One bit down: to the node that is there, or to a new one. */
  method WalkStep(tree: array<int>, cur: int, nextFree: int, ghost codes: seq<BitString>, ghost vals: seq<nat>,
                  ghost p: nat, ghost nodes: seq<BitString>, ghost lookUp: seq<int>, ghost lookUp2: seq<int>,
                  ghost j: nat, ghost t: nat)
    returns (ok: bool, cur': int, nextFree': int, ghost j': nat, ghost nodes': seq<BitString>)
    requires tree.Length == TREE_MAX && OnPath(codes, vals, p, nodes, tree[..], lookUp, lookUp2, j, t)
    requires p < |codes| && 8 <= t && t + 1 < |codes[p]| <= 16
    requires cur == (if codes[p][t] then Entry(j) else Entry(j) - 1) && nextFree == Entry(|nodes|)
    modifies tree
    ensures ok ==> cur' == Entry(j') && nextFree' == Entry(|nodes'|)
    ensures ok ==> OnPath(codes, vals, p, nodes', tree[..], lookUp, lookUp2, j', t + 1)
    ensures !ok ==> Overfull(codes)
  {
    hide *;
    ghost var c := codes[p];
    cur', nextFree', j', nodes' := cur, nextFree, j, nodes;
    CellOfEntry(j, c[t], cur);
    var idx := -cur - 1;
    if idx >= TREE_MAX {
      PathOverfull(codes, vals, p, nodes, tree[..], lookUp, lookUp2, j, t, c[t]);
      return false, cur', nextFree', j', nodes';
    }
    ghost var i := PathEntry(codes, vals, p, nodes, tree[..], lookUp, lookUp2, j, t);
    EntryNegative(i);
    if tree[idx] == 0 {
      ExtendPath(codes, vals, p, nodes, tree[..], lookUp, lookUp2, j, t);
      ghost var was := tree[..];
      tree[idx] := nextFree;
      assert tree[..] == was[idx := nextFree];
      EntryStep(|nodes|);
      cur', nextFree' := nextFree, nextFree - 2;
      j', nodes' := |nodes|, nodes + [c[..t + 1]];
    } else {
      FollowPath(codes, vals, p, nodes, tree[..], lookUp, lookUp2, j, t, i);
      cur', j' := tree[idx], i;
    }
    ok := true;
  }

  lemma CellOfEntry(j: nat, bit: bool, cur: int)
    requires cur == if bit then Entry(j) else Entry(j) - 1
    ensures -cur - 1 == Cell(j, bit)
  {
  }

  /** The code of a word shifted so that its bit t stands at position 15. */
  function Shifted(codeNo: nat, size: nat, t: nat): nat
    requires size <= 16 + t
  {
    codeNo * Pow2(16 + t - size)
  }

  predicate Bit15(code: nat) {
    code / 0x8000 % 2 == 1
  }

  lemma ShiftedBit(c: BitString, t: nat)
    requires |c| <= 16 && 8 <= t < |c|
    ensures Bit15(Shifted(Val(c), |c|, t)) == c[t]
    ensures Shifted(Val(c), |c|, t) < 0x1_0000_0000
  {
    BitOfCode(c, t);
  }

  lemma ShiftedNext(codeNo: nat, size: nat, t: nat)
    requires size <= 16 + t
    ensures Shifted(codeNo, size, t) * 2 == Shifted(codeNo, size, t + 1)
  {
    MulAssoc(codeNo, Pow2(16 + t - size), 2);
  }

  // ----- make_huff_table() -----

  /** Counts per length and symbols that make up a Huffman table: the lengths fit into the code space and the symbols
    * are distinct bytes. */
  ghost predicate ProperTable(counts: seq<nat>, vals: seq<nat>) {
    && |counts| == 17
    && CodeLengths(Lens(counts, 16))
    && |Lens(counts, 16)| <= |vals| == 256
    && (forall k :: 0 <= k < |Lens(counts, 16)| ==> vals[k] < 256)
    && (forall j, k :: 0 <= j < k < |Lens(counts, 16)| ==> vals[j] != vals[k])
  }

  lemma ProperIsCoded(counts: seq<nat>, vals: seq<nat>)
    requires ProperTable(counts, vals)
    ensures Coded(Codes(Lens(counts, 16)), vals)
  {
    hide Code, Start, Lens;
    CodesPrefixFree(Lens(counts, 16));
  }

  class Tables {
    const lookUp: array<int>
    const lookUp2: array<int>
    const codeSize: array<nat>
    const tree: array<int>
    ghost var codes: seq<BitString>
    ghost var vals: seq<nat>
    ghost var nodes: seq<BitString>

    ghost predicate Shaped() {
      && lookUp.Length == lookUp2.Length == codeSize.Length == 256 && tree.Length == TREE_MAX
      && lookUp != lookUp2 && lookUp != tree && lookUp2 != tree
    }

    /** All words are in: the tables decode the code `codes` with the symbols `vals`. */
    ghost predicate Valid()
      reads this, lookUp, lookUp2, codeSize, tree
    {
      Shaped() && Entered(codes, vals, |codes|, nodes, lookUp[..], lookUp2[..], codeSize[..], tree[..])
    }

    constructor ()
      ensures Shaped() && fresh(lookUp) && fresh(lookUp2) && fresh(codeSize) && fresh(tree)
    {
      lookUp := new int[256](_ => 0);
      lookUp2 := new int[256](_ => 0);
      codeSize := new nat[256](_ => 0);
      tree := new int[TREE_MAX](_ => 0);
      codes, vals, nodes := [], [], [];
    }

    method Clear()
      requires Shaped()
      modifies lookUp, lookUp2, codeSize, tree
      ensures forall i :: 0 <= i < 256 ==> lookUp[i] == lookUp2[i] == 0 && codeSize[i] == 0
      ensures forall i :: 0 <= i < TREE_MAX ==> tree[i] == 0
    {
      forall i | 0 <= i < 256 { lookUp[i] := 0; }
      forall i | 0 <= i < 256 { lookUp2[i] := 0; }
      forall i | 0 <= i < 256 { codeSize[i] := 0; }
      forall i | 0 <= i < TREE_MAX { tree[i] := 0; }
    }

    /** Builds the tables of a proper Huffman table; false where the source stops decoding, which is exactly where the
      * tree has no room for all proper prefixes of the words. */
    method MakeHuffTable(counts: seq<nat>, vals: seq<nat>) returns (ok: bool)
      requires Shaped() && ProperTable(counts, vals)
      modifies this, lookUp, lookUp2, codeSize, tree
      ensures IsCodeOf(codes, counts) && this.vals == vals
      ensures ok ==> Valid()
      ensures ok <==> !Overfull(codes)
    {
      hide Entered, Coded, ProperTable, Entry, IsCodeOf, Overfull;
      var huffsize, huffcode, lastp;
      ghost var words;
      huffsize, huffcode, lastp, words := SizesAndCodes(counts, vals);
      Clear();
      NothingEntered(words, vals, lookUp[..], lookUp2[..], codeSize[..], tree[..]);
      ok := EnterAll(huffsize, huffcode, vals, lastp, words);
      this.codes, this.vals := words, vals;
      if ok {
        IsValid();
        EnteredNotOverfull(words, vals, nodes, lookUp[..], lookUp2[..], codeSize[..], tree[..]);
      }
    }

    lemma IsValid()
      requires Shaped() && Entered(codes, vals, |codes|, nodes, lookUp[..], lookUp2[..], codeSize[..], tree[..])
      ensures Valid()
    {
    }

    method EnterAll(huffsize: array<nat>, huffcode: array<nat>, vals: seq<nat>, lastp: nat, ghost words: seq<BitString>)
      returns (ok: bool)
      requires Shaped() && lastp == |words| <= 256 && huffsize.Length == huffcode.Length == 258 && |vals| == 256
      requires huffsize != codeSize && huffcode != codeSize
      requires forall k :: 0 <= k < lastp ==>
        1 <= huffsize[k] == |words[k]| <= 16 && huffcode[k] == Val(words[k]) && vals[k] < 256
      requires Entered(words, vals, 0, [], lookUp[..], lookUp2[..], codeSize[..], tree[..])
      modifies this`nodes, lookUp, lookUp2, codeSize, tree
      ensures ok ==> Entered(words, vals, |words|, nodes, lookUp[..], lookUp2[..], codeSize[..], tree[..])
      ensures !ok ==> Overfull(words)
    {
      hide *;
      nodes := [];
      var nextFree, p := -1, 0;
      FirstEntry();
      while p < lastp
        invariant 0 <= p <= lastp && nextFree == Entry(|nodes|)
        invariant forall k :: 0 <= k < lastp ==>
          1 <= huffsize[k] == |words[k]| <= 16 && huffcode[k] == Val(words[k]) && vals[k] < 256
        invariant Entered(words, vals, p, nodes, lookUp[..], lookUp2[..], codeSize[..], tree[..])
      {
        ok, nextFree := EnterWord(vals[p], huffcode[p], huffsize[p], nextFree, words, vals, p);
        if !ok { return; }
        p := p + 1;
      }
      ok := true;
    }

    method EnterWord(i: nat, code: nat, size: nat, nextFree: int, ghost words: seq<BitString>, ghost vals: seq<nat>,
                     ghost p: nat)
      returns (ok: bool, nextFree': int)
      requires Shaped() && p < |words| && p < |vals| && 1 <= size == |words[p]| <= 16 && code == Val(words[p])
          && i == vals[p] < 256
      requires nextFree == Entry(|nodes|)
      requires Entered(words, vals, p, nodes, lookUp[..], lookUp2[..], codeSize[..], tree[..])
      modifies this`nodes, lookUp, lookUp2, codeSize, tree
      ensures ok ==> nextFree' == Entry(|nodes|)
      ensures ok ==> Entered(words, vals, p + 1, nodes, lookUp[..], lookUp2[..], codeSize[..], tree[..])
      ensures !ok ==> Overfull(words)
    {
      hide Entered, Entry, SymbolEntry, Val, Overfull;
      ghost var sizes, up, up2 := codeSize[..], lookUp[..], lookUp2[..];
      if size <= 8 {
        ok := EnterShort(lookUp, lookUp2, i, code, size, words[p]);
        ShortEntered(words, vals, p, nodes, up, up2, sizes, tree[..], lookUp[..], lookUp2[..]);
        nextFree' := nextFree;
      } else {
        ghost var more;
        ok, nextFree', more := EnterLong(lookUp, lookUp2, tree, nextFree, i, code, size, words, vals, p, nodes, sizes);
        nodes := more;
      }
      codeSize[i] := size;
      assert codeSize[..] == sizes[i := size];
    }
  }

  lemma FirstEntry()
    ensures Entry(0) == -1
  {
  }

  /** The canonical code of the counts. */
  ghost predicate IsCodeOf(words: seq<BitString>, counts: seq<nat>) {
    |counts| == 17 && CodeLengths(Lens(counts, 16)) && words == Codes(Lens(counts, 16))
  }

  /** The lengths and the codes of all words, in arrays. */
  method SizesAndCodes(counts: seq<nat>, ghost vals: seq<nat>)
    returns (huffsize: array<nat>, huffcode: array<nat>, lastp: nat, ghost words: seq<BitString>)
    requires ProperTable(counts, vals)
    ensures fresh(huffsize) && fresh(huffcode) && huffsize.Length == huffcode.Length == 258
    ensures IsCodeOf(words, counts) && Coded(words, vals) && lastp == |words| <= 256 == |vals|
    ensures forall k :: 0 <= k < lastp ==>
      1 <= huffsize[k] == |words[k]| <= 16 && huffcode[k] == Val(words[k]) && vals[k] < 256
  {
    hide Code, Lens, Start, Val, Coded;
    ghost var lens := Lens(counts, 16);
    huffsize, huffcode := new nat[258], new nat[258];
    lastp := ExpandCounts(counts, huffsize);
    AssignCodes(huffsize, huffcode, lens);
    assert forall k :: 0 <= k < lastp ==> huffsize[k] == huffsize[..lastp][k];
    ProperIsCoded(counts, vals);
    words := Codes(lens);
    forall k | 0 <= k < lastp ensures Val(words[k]) == Code(lens, k) {
      CodeFits(lens, k);
    }
  }
}
