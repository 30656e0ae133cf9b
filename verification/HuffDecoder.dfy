/** huff_decode(): one symbol through the 8-bit table or the tree, alone or with its extra bits. */
module HuffDecoder {
  import opened Bits
  import opened CodeTrees
  import opened HuffTables
  import opened BitReader

  /** What a search in the tables finds for the upcoming bits: a symbol and the length of its word. If a word starts the
    * window, it is that word. */
  ghost predicate Found(codes: seq<BitString>, vals: seq<nat>, window: BitString, sym: nat, size: nat) {
    && sym < 256 && size <= 16 && |codes| <= |vals|
    && (forall k :: 0 <= k < |codes| && codes[k] <= window ==> sym == vals[k] && size == |codes[k]|)
  }

  /** The tree entry below node j on the window's next bit. */
  lemma StepDown(codes: seq<BitString>, vals: seq<nat>, nodes: seq<BitString>, tree: seq<int>, j: nat,
                 window: BitString, t: nat)
    returns (i: nat)
    requires Coded(codes, vals) && Nodes(codes, |codes|, nodes) && Tree(codes, vals, |codes|, nodes, tree)
    requires Covered(codes, |codes|, nodes)
    requires 2 * |nodes| <= TREE_MAX && j < |nodes| && |window| >= 16 && 8 <= t < 16 && nodes[j] == window[..t]
    ensures Cell(j, window[t]) < TREE_MAX == |tree|
    ensures var v := tree[Cell(j, window[t])];
      if v < 0 then t + 1 < 16 && i < |nodes| && nodes[i] == window[..t + 1] && v == Entry(i)
      else Found(codes, vals, window, v, t + 1)
  {
    var c := window[..t + 1];
    assert c == nodes[j] + [window[t]];
    var v := tree[Cell(j, window[t])];
    assert codes[..|codes|] == codes;
    assert Points(codes, vals, |codes|, nodes, c, v);
    i := 0;
    if c in nodes {
      i :| 0 <= i < |nodes| && nodes[i] == c;
    } else {
      OnlyWordBelow(codes, vals, nodes, j, window, t);
    }
  }

  /** Of the words that a window can start with, only one ends right below a node whose next node is missing. */
  lemma OnlyWordBelow(codes: seq<BitString>, vals: seq<nat>, nodes: seq<BitString>, j: nat, window: BitString, t: nat)
    requires Coded(codes, vals) && Nodes(codes, |codes|, nodes) && Covered(codes, |codes|, nodes)
    requires j < |nodes| && |window| >= 16 && 8 <= t < 16
    requires nodes[j] == window[..t] && window[..t + 1] !in nodes
    ensures forall k :: 0 <= k < |codes| && codes[k] <= window ==> codes[k] == window[..t + 1]
  {
    forall k | 0 <= k < |codes| && codes[k] <= window ensures codes[k] == window[..t + 1] {
      if |codes[k]| <= t {
        assert codes[k] == window[..t][..|codes[k]|];
        NoWordAbove(codes, nodes, j, k);
      } else if |codes[k]| > t + 1 {
        WayCovered(codes, nodes, k, t + 1, window);
      }
    }
  }

  /** The way to a word that a window starts with leads through nodes. */
  lemma WayCovered(codes: seq<BitString>, nodes: seq<BitString>, k: nat, n: nat, window: BitString)
    requires Covered(codes, |codes|, nodes) && k < |codes| && codes[k] <= window && 8 <= n < |codes[k]|
    ensures window[..n] in nodes
  {
    assert codes[k][..n] == window[..n];
  }

  lemma NoWordAbove(codes: seq<BitString>, nodes: seq<BitString>, j: nat, k: nat)
    requires PrefixCodes.PrefixFree(codes) && Nodes(codes, |codes|, nodes) && j < |nodes| && k < |codes|
    ensures !(codes[k] <= nodes[j])
  {
    var p :| 0 <= p < |codes| && |nodes[j]| < |codes[p]| && nodes[j] <= codes[p];
    NoWordInside(codes, p, nodes[j]);
  }

  /** The byte table's entry for the window's first byte. */
  lemma TopStep(packed: bool, codes: seq<BitString>, vals: seq<nat>, nodes: seq<BitString>, table: seq<int>,
                window: BitString)
    returns (j: nat)
    requires Coded(codes, vals) && Covered(codes, |codes|, nodes) && Top(packed, codes, vals, |codes|, nodes, table)
    requires |window| >= 16
    ensures Val(window[..8]) < 256 == |table|
    ensures var v := table[Val(window[..8])];
      && (v < 0 ==> j < |nodes| && nodes[j] == window[..8] && v == Entry(j))
      && (v >= 0 ==> v == 0 || exists k :: 0 <= k < |codes| && codes[k] <= window[..8]
                                       && v == SymbolEntry(packed, vals[k], |codes[k]|, window[..8]))
      && (v >= 0 ==> forall k :: 0 <= k < |codes| && codes[k] <= window ==>
            codes[k] <= window[..8] && v == SymbolEntry(packed, vals[k], |codes[k]|, window[..8]))
  {
    var b := window[..8];
    Pow2Values();
    EncVal(b);
    var v := table[Val(b)];
    assert TopPoints(packed, codes, vals, |codes|, nodes, b, v);
    j := 0;
    if b in nodes {
      j :| 0 <= j < |nodes| && nodes[j] == b;
    } else {
      forall k | 0 <= k < |codes| && codes[k] <= window ensures codes[k] <= b {
        if |codes[k]| <= 8 { assert codes[k] == b[..|codes[k]|]; } else { WayCovered(codes, nodes, k, 8, window); }
      }
      SymbolsNatural(packed, codes, vals, b);
    }
  }

  lemma SymbolsNatural(packed: bool, codes: seq<BitString>, vals: seq<nat>, b: BitString)
    requires |codes| <= |vals| && |b| == 8
    ensures forall k :: 0 <= k < |codes| && codes[k] <= b ==> SymbolEntry(packed, vals[k], |codes[k]|, b) >= 0
  {
  }

  /** A bit of the register. */
  lemma RegisterBit(buf: nat, left: int, window: BitString, t: nat)
    requires Register(buf, left, window) && t < 16
    ensures |window| >= 16 && buf / Pow2(31 - t) % 2 == if window[t] then 1 else 0
  {
    Peek(buf, left, window, t + 1);
    LastBit(window, t);
  }

  /** The walk down the tree; the source's checks against the table size never fire. */
  method SearchTree(t: Tables, buf: nat, entry: int, ghost left: int, ghost window: BitString, ghost top: nat)
    returns (sym: nat, size: nat)
    requires t.Valid() && Register(buf, left, window)
    requires top < |t.nodes| && t.nodes[top] == window[..8] && entry == Entry(top)
    ensures Found(t.codes, t.vals, window, sym, size)
  {
    hide Register, Coded, Nodes, Covered, Tree, Top, Sizes, Found;
    WindowLength(buf, left, window);
    var symbol, ofs := entry, 23;
    ghost var j: nat := top;
    while true
      invariant 16 <= ofs <= 23 && j < |t.nodes| && t.nodes[j] == window[..31 - ofs] && symbol == Entry(j)
      decreases ofs
    {
      RegisterBit(buf, left, window, 31 - ofs);
      ghost var i := StepDown(t.codes, t.vals, t.nodes, t.tree[..], j, window, 31 - ofs);
      var idx := -(symbol + buf / Pow2(ofs) % 2);
      assert idx == Cell(j, window[31 - ofs]);
      symbol := t.tree[idx];
      ofs := ofs - 1;
      if symbol >= 0 { break; }
      j := i;
    }
    sym, size := symbol, 8 + (23 - ofs);
  }

  /** The search for one symbol. */
  method Search(t: Tables, buf: nat, ghost left: int, ghost window: BitString) returns (sym: nat, size: nat)
    requires t.Valid() && Register(buf, left, window)
    ensures Found(t.codes, t.vals, window, sym, size)
  {
    hide Register, Coded, Nodes, Covered, Tree, Top, Sizes, Found;
    WindowLength(buf, left, window);
    Peek(buf, left, window, 8);
    ghost var j := TopStep(false, t.codes, t.vals, t.nodes, t.lookUp[..], window);
    Pow2Values();
    var symbol := t.lookUp[buf / Pow2(24)];
    if symbol < 0 {
      sym, size := SearchTree(t, buf, symbol, left, window, j);
    } else {
      ShortFound(t.codes, t.vals, t.codeSize[..], window, symbol);
      sym, size := symbol, t.codeSize[symbol];
    }
  }

  lemma ShortFound(codes: seq<BitString>, vals: seq<nat>, codeSize: seq<nat>, window: BitString, v: nat)
    requires Coded(codes, vals) && Sizes(codes, vals, |codes|, codeSize) && |window| >= 16
    requires v == 0 || exists k :: 0 <= k < |codes| && codes[k] <= window[..8]
                              && v == SymbolEntry(false, vals[k], |codes[k]|, window[..8])
    requires forall k :: 0 <= k < |codes| && codes[k] <= window ==>
      codes[k] <= window[..8] && v == SymbolEntry(false, vals[k], |codes[k]|, window[..8])
    ensures v < 256 == |codeSize| && Found(codes, vals, window, v, codeSize[v])
  {
  }

  // ----- Reading symbols -----

  /** Bits that start with a word put that word at the front of the window. */
  lemma WordInWindow(window: BitString, rest: seq<nat>, tem: bool, word: BitString, more: BitString)
    requires Upcoming(window, rest, tem, word + more) && |word| <= 16 <= |window|
    ensures word <= window && window[..|word|] == word
  {
    hide Upcoming;
    Skip(window, rest, tem, word + more, |word|);
    assert (word + more)[..|word|] == word;
  }

  lemma Split(a: BitString, b: BitString)
    ensures (a + b)[..|a|] == a && (a + b)[|a|..] == b
  {
  }

  lemma PassWord(w: BitString, rest: seq<nat>, tem: bool, word: BitString, more: BitString,
                 w': BitString, rest': seq<nat>, tem': bool)
    requires Passed(w, rest, tem, |word|, w', rest', tem') && Upcoming(w, rest, tem, word + more)
    ensures Upcoming(w', rest', tem', more)
  {
    hide Upcoming;
    Split(word, more);
  }

  /** The symbol, and what is then upcoming, if the upcoming bits start with one of the words. */
  ghost predicate DecodedWord(codes: seq<BitString>, vals: seq<nat>, w: BitString, rest: seq<nat>, tem: bool, sym: nat,
                              w': BitString, rest': seq<nat>, tem': bool)
  {
    |codes| <= |vals| &&
    forall k, more {:trigger Upcoming(w, rest, tem, codes[k] + more)} ::
      0 <= k < |codes| && Upcoming(w, rest, tem, codes[k] + more) ==> sym == vals[k] && Upcoming(w', rest', tem', more)
  }

  lemma WordFound(codes: seq<BitString>, vals: seq<nat>, w: BitString, rest: seq<nat>, tem: bool, sym: nat, size: nat,
                  w': BitString, rest': seq<nat>, tem': bool)
    requires Coded(codes, vals) && |w| >= 16 && Found(codes, vals, w, sym, size)
    requires Passed(w, rest, tem, size, w', rest', tem')
    ensures DecodedWord(codes, vals, w, rest, tem, sym, w', rest', tem')
  {
    WordSizes(codes, vals);
    hide Coded, Upcoming, Passed;
    forall k, more {:trigger Upcoming(w, rest, tem, codes[k] + more)} | 0 <= k < |codes|
        && Upcoming(w, rest, tem, codes[k] + more)
      ensures sym == vals[k] && Upcoming(w', rest', tem', more)
    {
      WordInWindow(w, rest, tem, codes[k], more);
      PassWord(w, rest, tem, codes[k], more, w', rest', tem');
    }
  }

  lemma FoundBounds(codes: seq<BitString>, vals: seq<nat>, window: BitString, sym: nat, size: nat)
    requires Found(codes, vals, window, sym, size)
    ensures sym < 256 && size <= 16
  {
  }

  /** huff_decode(pH): the symbol of the word that comes next. */
  method HuffDecode(r: Reader, t: Tables) returns (sym: nat)
    requires r.Valid() && t.Valid()
    modifies r
    ensures r.Valid() && sym < 256
    ensures DecodedWord(t.codes, t.vals, old(r.window), old(r.rest), old(r.temFlag), sym, r.window, r.rest, r.temFlag)
  {
    ghost var w, rest, tem := r.window, r.rest, r.temFlag;
    ghost var codes, vals := t.codes, t.vals;
    ReaderWindow(r);
    TablesFacts(t);
    hide Entered, Coded, Upcoming, Register, Top, Nodes, Covered, Tree, Sizes, Passed, Found, DecodedWord;
    var size;
    sym, size := Search(t, r.bitBuf, r.bitsLeft, w);
    FoundBounds(codes, vals, w, sym, size);
    var _ := r.GetBitsNoMarkers(size);
    WordFound(codes, vals, w, rest, tem, sym, size, r.window, r.rest, r.temFlag);
  }

  lemma ReaderWindow(r: Reader)
    requires r.Valid()
    ensures Register(r.bitBuf, r.bitsLeft, r.window) && |r.window| >= 16
  {
  }

  lemma TablesFacts(t: Tables)
    requires t.Valid()
    ensures Coded(t.codes, t.vals) && Covered(t.codes, |t.codes|, t.nodes) && |t.codes| <= |t.vals|
    ensures t.lookUp2.Length == 256 && Top(true, t.codes, t.vals, |t.codes|, t.nodes, t.lookUp2[..])
  {
  }

  lemma WordSizes(codes: seq<BitString>, vals: seq<nat>)
    requires Coded(codes, vals)
    ensures |codes| <= |vals|
    ensures forall k :: 0 <= k < |codes| ==> 1 <= |codes[k]| <= 16 && vals[k] < 256
  {
  }

  /** The packed entry v describes the word and its symbol i. */
  ghost predicate PackedFor(word: BitString, i: nat, window: BitString, v: nat) {
    && |word| <= 8 && v % 256 == i && v % 16 == i % 16 && |window| >= 16
    && (v / 0x8000 % 2 == 1 <==> i % 16 != 0 && |word| + i % 16 <= 8)
    && (v / 0x8000 % 2 == 1 ==> v / 256 % 16 == |word| + i % 16 && v / 0x1_0000 == Val(window[|word|..|word| + i % 16]))
    && (v / 0x8000 % 2 == 0 ==> v / 256 % 32 == |word|)
  }

  lemma PackedFields(i: nat, word: BitString, window: BitString)
    requires i < 256 && 1 <= |word| <= 8 && |window| >= 16
    ensures var v := SymbolEntry(true, i, |word|, window[..8]); v >= 0 && PackedFor(word, i, window, v)
  {
    hide Val, Pow2;
    var e, n := i % 16, |word|;
    if e != 0 && n + e <= 8 {
      assert window[..8][n..n + e] == window[n..n + e];
      PackedArithmetic(i, Val(window[n..n + e]), n + e);
    } else {
      PackedBytes(i, n);
    }
  }

  lemma PackedArithmetic(i: nat, x: nat, n: nat)
    requires i < 256 && n <= 8
    ensures var v := i + 0x8000 + 0x1_0000 * x + 256 * n;
      && v % 256 == i && v % 16 == i % 16 && v / 0x8000 % 2 == 1 && v / 256 % 16 == n && v / 0x1_0000 == x
  {
    PackedBytes(i, 0x80 + 256 * x + n);
    PackedUpper(x, n);
    PackedHalves(i + 256 * n, x);
  }

  lemma PackedBytes(i: nat, y: nat)
    requires i < 256
    ensures (256 * y + i) % 256 == i && (256 * y + i) % 16 == i % 16 && (256 * y + i) / 256 == y
  {
    hide *;
    DivMod(y, i, 256);
    PackedLow(i / 16, i % 16, y);
  }

  lemma PackedLow(hi: nat, lo: nat, y: nat)
    requires lo < 16
    ensures (256 * y + (16 * hi + lo)) % 16 == lo
  {
    hide *;
    DivMod(16 * y + hi, lo, 16);
  }

  lemma PackedUpper(x: nat, n: nat)
    requires n <= 8
    ensures (0x80 + 256 * x + n) % 16 == n
  {
    hide *;
    DivMod(8 + 16 * x, n, 16);
  }

  lemma PackedHalves(low: nat, x: nat)
    requires low < 0x8000
    ensures (low + 0x8000 + 0x1_0000 * x) / 0x8000 == 2 * x + 1 && (low + 0x8000 + 0x1_0000 * x) / 0x1_0000 == x
  {
    hide *;
    DivMod(2 * x + 1, low, 0x8000);
    DivMod(x, low + 0x8000, 0x1_0000);
  }

  /** A packed entry fetches at most 8 bits before its extra bits. */
  predicate Fetchable(v: nat) {
    v / 0x8000 % 2 == 0 ==> v / 256 % 32 <= 8
  }

  lemma PackedSymbol(codes: seq<BitString>, vals: seq<nat>, window: BitString, v: nat)
    requires Coded(codes, vals) && |window| >= 16
    requires v == 0 || exists k :: 0 <= k < |codes| && codes[k] <= window[..8]
                              && v == SymbolEntry(true, vals[k], |codes[k]|, window[..8])
    requires forall k :: 0 <= k < |codes| && codes[k] <= window ==>
      codes[k] <= window[..8] && v == SymbolEntry(true, vals[k], |codes[k]|, window[..8])
    ensures Fetchable(v) && |codes| <= |vals|
    ensures forall k :: 0 <= k < |codes| && codes[k] <= window ==> PackedFor(codes[k], vals[k], window, v)
  {
    WordSizes(codes, vals);
    hide Coded, SymbolEntry, PackedFor;
    if v != 0 {
      var k :| 0 <= k < |codes| && codes[k] <= window[..8] && v == SymbolEntry(true, vals[k], |codes[k]|, window[..8]);
      PackedFields(vals[k], codes[k], window);
      PackedFetch(codes[k], vals[k], window, v);
    }
    forall k | 0 <= k < |codes| && codes[k] <= window ensures PackedFor(codes[k], vals[k], window, v) {
      PackedFields(vals[k], codes[k], window);
    }
  }

  lemma PackedFetch(word: BitString, i: nat, window: BitString, v: nat)
    requires PackedFor(word, i, window, v)
    ensures Fetchable(v)
  {
  }

  /** The symbol, its extra bits, and what is then upcoming. */
  ghost predicate Decoded(codes: seq<BitString>, vals: seq<nat>, w: BitString, rest: seq<nat>, tem: bool, sym: nat,
                          extra: nat,
                          w': BitString, rest': seq<nat>, tem': bool)
  {
    |codes| <= |vals| &&
    forall k, e, more {:trigger Upcoming(w, rest, tem, codes[k] + e + more)} ::
      0 <= k < |codes| && |e| == vals[k] % 16 && Upcoming(w, rest, tem, codes[k] + e + more) ==>
        sym == vals[k] && extra == Val(e) && Upcoming(w', rest', tem', more)
  }

  /** huff_decode(pH, extra_bits): the symbol of the next word and as many extra bits as its low four bits say. */
  method HuffDecodeExtra(r: Reader, t: Tables) returns (sym: nat, extra: nat)
    requires r.Valid() && t.Valid()
    modifies r
    ensures r.Valid() && sym < 256
    ensures Decoded(t.codes, t.vals, old(r.window), old(r.rest), old(r.temFlag), sym, extra, r.window, r.rest,
                    r.temFlag)
  {
    ghost var w, rest, tem := r.window, r.rest, r.temFlag;
    ghost var codes, vals := t.codes, t.vals;
    ReaderWindow(r);
    TablesFacts(t);
    hide Entered, Coded, Upcoming, Register, Top, Nodes, Covered, Tree, Sizes, SymbolEntry, PackedFor, Fetchable, Pow2,
      Decoded, Found;
    Peek(r.bitBuf, r.bitsLeft, w, 8);
    ghost var j := TopStep(true, codes, vals, t.nodes, t.lookUp2[..], w);
    Pow2Values();
    var symbol := t.lookUp2[r.bitBuf / Pow2(24)];
    if symbol < 0 {
      sym, extra := DecodeTree(r, t, symbol, j);
    } else {
      PackedSymbol(codes, vals, w, symbol);
      sym, extra := DecodePacked(r, symbol, codes, vals);
    }
  }

  /** Through the tree: the word, then its extra bits. */
  method DecodeTree(r: Reader, t: Tables, entry: int, ghost top: nat) returns (sym: nat, extra: nat)
    requires r.Valid() && t.Valid() && |r.window| >= 16
    requires top < |t.nodes| && t.nodes[top] == r.window[..8] && entry == Entry(top)
    modifies r
    ensures r.Valid() && sym < 256
    ensures Decoded(t.codes, t.vals, old(r.window), old(r.rest), old(r.temFlag), sym, extra, r.window, r.rest,
                    r.temFlag)
  {
    ghost var w, rest, tem := r.window, r.rest, r.temFlag;
    ghost var codes, vals := t.codes, t.vals;
    ReaderWindow(r);
    TablesFacts(t);
    hide Entered, Coded, Upcoming, Register, Top, Nodes, Covered, Tree, Sizes, Entry, Passed, Decoded, DecodedWord;
    var size;
    sym, size := SearchTree(t, r.bitBuf, entry, r.bitsLeft, w, top);
    var _ := r.GetBitsNoMarkers(size);
    ghost var w1, rest1, tem1 := r.window, r.rest, r.temFlag;
    extra := r.GetBitsNoMarkers(sym % 16);
    WordFound(codes, vals, w, rest, tem, sym, size, w1, rest1, tem1);
    TwoReads(codes, vals, w, rest, tem, sym, extra, w1, rest1, tem1, r.window, r.rest, r.temFlag);
  }

  /** A word, and then its extra bits in a read of their own. */
  lemma TwoReads(codes: seq<BitString>, vals: seq<nat>, w: BitString, rest: seq<nat>, tem: bool, sym: nat, extra: nat,
                 w1: BitString, rest1: seq<nat>, tem1: bool, w2: BitString, rest2: seq<nat>, tem2: bool)
    requires |codes| <= |vals| && |w1| >= 16 && extra == Val(w1[..sym % 16])
    requires DecodedWord(codes, vals, w, rest, tem, sym, w1, rest1, tem1)
    requires Passed(w1, rest1, tem1, sym % 16, w2, rest2, tem2)
    ensures Decoded(codes, vals, w, rest, tem, sym, extra, w2, rest2, tem2)
  {
    hide Upcoming, Passed;
    forall k, e, more {:trigger Upcoming(w, rest, tem, codes[k] + e + more)} | 0 <= k < |codes|
        && |e| == vals[k] % 16 && Upcoming(w, rest, tem, codes[k] + e + more)
      ensures sym == vals[k] && extra == Val(e) && Upcoming(w2, rest2, tem2, more)
    {
      assert codes[k] + e + more == codes[k] + (e + more);
      WordInWindow(w1, rest1, tem1, e, more);
      PassWord(w1, rest1, tem1, e, more, w2, rest2, tem2);
    }
  }

  /** Through a packed entry: all in one read, or in two if that is more than 16 bits. */
  method DecodePacked(r: Reader, symbol: nat, ghost codes: seq<BitString>, ghost vals: seq<nat>)
      returns (sym: nat, extra: nat)
    requires r.Valid() && Coded(codes, vals) && |codes| <= |vals| && Fetchable(symbol)
    requires forall k :: 0 <= k < |codes| && codes[k] <= r.window ==> PackedFor(codes[k], vals[k], r.window, symbol)
    modifies r
    ensures r.Valid() && sym < 256
    ensures Decoded(codes, vals, old(r.window), old(r.rest), old(r.temFlag), sym, extra, r.window, r.rest, r.temFlag)
  {
    hide *;
    ghost var w, rest, tem := r.window, r.rest, r.temFlag;
    ReaderWindow(r);
    WordSizes(codes, vals);
    FetchBounds(symbol);
    sym := symbol % 256;
    if symbol / 0x8000 % 2 == 1 {
      var _ := r.GetBitsNoMarkers(symbol / 256 % 16);
      extra := symbol / 0x1_0000;
      PackedInEntry(codes, vals, w, rest, tem, symbol, r.window, r.rest, r.temFlag);
    } else {
      var codeSize, numExtra := symbol / 256 % 32, symbol % 16;
      if codeSize + numExtra <= 16 {
        var i := r.GetBitsNoMarkers(codeSize + numExtra);
        extra := i % Pow2(numExtra);
        PackedOneRead(codes, vals, w, rest, tem, symbol, i, r.window, r.rest, r.temFlag);
      } else {
        var _ := r.GetBitsNoMarkers(codeSize);
        ghost var w1, rest1, tem1 := r.window, r.rest, r.temFlag;
        extra := r.GetBitsNoMarkers(numExtra);
        PackedWord(codes, vals, w, rest, tem, symbol, w1, rest1, tem1);
        SameLow(symbol);
        TwoReads(codes, vals, w, rest, tem, sym, extra, w1, rest1, tem1, r.window, r.rest, r.temFlag);
      }
    }
  }

  lemma FetchBounds(v: nat)
    requires Fetchable(v)
    ensures v / 0x8000 % 2 == 0 ==> v / 256 % 32 <= 8
    ensures v / 256 % 16 < 16 && v % 16 < 16 && v % 256 < 256 && (v / 0x8000 % 2 == 0 || v / 0x8000 % 2 == 1)
  {
  }

  lemma SameLow(v: nat)
    ensures v % 256 % 16 == v % 16
  {
  }

  lemma PackedWord(codes: seq<BitString>, vals: seq<nat>, w: BitString, rest: seq<nat>, tem: bool, v: nat,
                   w': BitString, rest': seq<nat>, tem': bool)
    requires v / 0x8000 % 2 == 0 && |codes| <= |vals| && |w| >= 16
    requires forall k :: 0 <= k < |codes| ==> 1 <= |codes[k]| <= 16
    requires forall k :: 0 <= k < |codes| && codes[k] <= w ==> PackedFor(codes[k], vals[k], w, v)
    requires Passed(w, rest, tem, v / 256 % 32, w', rest', tem')
    ensures DecodedWord(codes, vals, w, rest, tem, v % 256, w', rest', tem')
  {
    hide Upcoming, Passed;
    forall k, more {:trigger Upcoming(w, rest, tem, codes[k] + more)} | 0 <= k < |codes|
        && Upcoming(w, rest, tem, codes[k] + more)
      ensures v % 256 == vals[k] && Upcoming(w', rest', tem', more)
    {
      WordInWindow(w, rest, tem, codes[k], more);
      assert PackedFor(codes[k], vals[k], w, v);
      PassWord(w, rest, tem, codes[k], more, w', rest', tem');
    }
  }

  /** Both the word and the extra bits are in the entry. */
  lemma PackedInEntry(codes: seq<BitString>, vals: seq<nat>, w: BitString, rest: seq<nat>, tem: bool, v: nat,
                      w': BitString, rest': seq<nat>, tem': bool)
    requires v / 0x8000 % 2 == 1 && |codes| <= |vals| && |w| >= 16
    requires forall k :: 0 <= k < |codes| ==> 1 <= |codes[k]| <= 16
    requires forall k :: 0 <= k < |codes| && codes[k] <= w ==> PackedFor(codes[k], vals[k], w, v)
    requires Passed(w, rest, tem, v / 256 % 16, w', rest', tem')
    ensures Decoded(codes, vals, w, rest, tem, v % 256, v / 0x1_0000, w', rest', tem')
  {
    hide Upcoming, Passed;
    forall k, e, more {:trigger Upcoming(w, rest, tem, codes[k] + e + more)} | 0 <= k < |codes|
        && |e| == vals[k] % 16 && Upcoming(w, rest, tem, codes[k] + e + more)
      ensures v % 256 == vals[k] && v / 0x1_0000 == Val(e) && Upcoming(w', rest', tem', more)
    {
      assert codes[k] + e + more == codes[k] + (e + more);
      WordInWindow(w, rest, tem, codes[k], e + more);
      assert PackedFor(codes[k], vals[k], w, v);
      WordInWindow(w, rest, tem, codes[k] + e, more);
      PassWord(w, rest, tem, codes[k] + e, more, w', rest', tem');
      assert w[|codes[k]|..|codes[k]| + |e|] == e;
    }
  }

  /** The word and the extra bits in one read. */
  lemma PackedOneRead(codes: seq<BitString>, vals: seq<nat>, w: BitString, rest: seq<nat>, tem: bool, v: nat, i: nat,
                      w': BitString, rest': seq<nat>, tem': bool)
    requires v / 0x8000 % 2 == 0 && |codes| <= |vals| && |w| >= 16 && v / 256 % 32 + v % 16 <= 16
    requires forall k :: 0 <= k < |codes| ==> 1 <= |codes[k]| <= 16
    requires forall k :: 0 <= k < |codes| && codes[k] <= w ==> PackedFor(codes[k], vals[k], w, v)
    requires Passed(w, rest, tem, v / 256 % 32 + v % 16, w', rest', tem') && i == Val(w[..v / 256 % 32 + v % 16])
    ensures Decoded(codes, vals, w, rest, tem, v % 256, i % Pow2(v % 16), w', rest', tem')
  {
    hide Upcoming, Passed, Pow2;
    forall k, e, more {:trigger Upcoming(w, rest, tem, codes[k] + e + more)} | 0 <= k < |codes|
        && |e| == vals[k] % 16 && Upcoming(w, rest, tem, codes[k] + e + more)
      ensures v % 256 == vals[k] && i % Pow2(v % 16) == Val(e) && Upcoming(w', rest', tem', more)
    {
      assert codes[k] + e + more == codes[k] + (e + more);
      WordInWindow(w, rest, tem, codes[k], e + more);
      assert PackedFor(codes[k], vals[k], w, v);
      WordInWindow(w, rest, tem, codes[k] + e, more);
      PassWord(w, rest, tem, codes[k] + e, more, w', rest', tem');
      ValSplit(codes[k] + e, |codes[k]|);
      Split(codes[k], e);
    }
  }
}
