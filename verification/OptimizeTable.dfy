/** jpge's optimize_huffman_table(): from symbol counts to the lengths and symbols of a Huffman table. */
module OptimizeTable {
  import opened Bits
  import opened PrefixCodes
  import opened TwoQueues
  import opened MinimumRedundancy
  import opened RadixSort
  import opened Canonical
  import opened HuffTables
  import Limiter = LengthLimiter
  import TreeRoom

  // ----- The symbols in use -----

  /** The symbols below k that occur, with their counts; indices are one too high, which leaves 0 to the dummy. */
  function Used(count: seq<nat>, k: nat): (s: seq<SymFreq>)
    requires k <= |count|
    ensures |s| <= k
  {
    if k == 0 then []
    else Used(count, k - 1) + if count[k - 1] > 0 then [SymFreq(count[k - 1], k)] else []
  }

  /** The dummy symbol and the symbols in use. */
  function WithDummy(count: seq<nat>, k: nat): (s: seq<SymFreq>)
    requires k <= |count|
    ensures |s| == |Used(count, k)| + 1
  {
    [SymFreq(1, 0)] + Used(count, k)
  }

  lemma UsedAre(count: seq<nat>, k: nat)
    requires k <= |count|
    ensures forall x :: x in Used(count, k) ==> 1 <= x.sym <= k && x.key == count[x.sym - 1] > 0
    ensures forall s :: 0 <= s < k && count[s] > 0 ==> SymFreq(count[s], s + 1) in Used(count, k)
    ensures forall i, j :: 0 <= i < j < |Used(count, k)| ==> Used(count, k)[i].sym < Used(count, k)[j].sym
  {
    hide *;
    UsedOnly(count, k);
    UsedAll(count, k);
    UsedOrder(count, k);
  }

  lemma {:induction false} UsedOnly(count: seq<nat>, k: nat)
    requires k <= |count|
    ensures forall x :: x in Used(count, k) ==> 1 <= x.sym <= k && x.key == count[x.sym - 1] > 0
  {
    if k > 0 { UsedOnly(count, k - 1); }
  }

  lemma {:induction false} UsedAll(count: seq<nat>, k: nat)
    requires k <= |count|
    ensures forall s :: 0 <= s < k && count[s] > 0 ==> SymFreq(count[s], s + 1) in Used(count, k)
  {
    if k > 0 { UsedAll(count, k - 1); }
  }

  lemma {:induction false} UsedOrder(count: seq<nat>, k: nat)
    requires k <= |count|
    ensures forall i, j :: 0 <= i < j < |Used(count, k)| ==> Used(count, k)[i].sym < Used(count, k)[j].sym
  {
    if k > 0 {
      UsedOrder(count, k - 1);
      UsedOnly(count, k - 1);
      var u := Used(count, k - 1);
      assert forall i :: 0 <= i < |u| ==> u[i] in u;
    }
  }

  method Collect(count: seq<nat>, tableLen: nat) returns (syms: array<SymFreq>, n: nat)
    requires tableLen <= |count| <= 256
    ensures fresh(syms) && syms.Length == 257 && n <= 257 && syms[..n] == WithDummy(count, tableLen)
  {
    syms := new SymFreq[257](_ => SymFreq(0, 0));
    syms[0] := SymFreq(1, 0);
    n := 1;
    for i := 0 to tableLen
      invariant 1 <= n <= i + 1 && syms[..n] == WithDummy(count, i)
    {
      if count[i] > 0 {
        ghost var was := syms[..n];
        syms[n] := SymFreq(count[i], i + 1);
        n := n + 1;
        assert syms[..n] == was + [SymFreq(count[i], i + 1)];
      }
    }
  }

  // ----- Sorted -----

  /** The first element of a key is the first among those of the key. */
  lemma {:induction false} FirstWithKey(s: seq<SymFreq>)
    requires s != []
    ensures WithKey(s, s[0].key) != [] && WithKey(s, s[0].key)[0] == s[0]
  {
    if |s| == 1 {
      assert s[..0] == [];
    } else {
      FirstWithKey(s[..|s| - 1]);
    }
  }

  /** Since the sort is stable, the dummy stays first. */
  lemma DummyFirst(count: seq<nat>, k: nat, r: seq<SymFreq>)
    requires k <= |count| && StableSorted(WithDummy(count, k), r)
    ensures r != [] && r[0] == SymFreq(1, 0)
  {
    var s := WithDummy(count, k);
    UsedAre(count, k);
    hide WithKey;
    assert r[0] in multiset(r);
    assert r[0] in s;
    assert SymFreq(1, 0) in multiset(s);
    assert SymFreq(1, 0) in r;
    var i :| 0 <= i < |r| && r[i] == SymFreq(1, 0);
    assert r[0].key <= r[i].key;
    FirstWithKey(s);
    FirstWithKey(r);
    assert WithKey(r, 1) == WithKey(s, 1);
  }

  lemma RestOf(r: seq<SymFreq>, d: SymFreq, u: seq<SymFreq>)
    requires r != [] && r[0] == d && multiset(r) == multiset([d] + u)
    ensures multiset(r[1..]) == multiset(u)
  {
    assert r == [d] + r[1..];
    assert multiset([d] + r[1..]) == multiset{d} + multiset(r[1..]);
    assert multiset([d] + u) == multiset{d} + multiset(u);
    forall x ensures multiset(r[1..])[x] == multiset(u)[x] {
      assert (multiset{d} + multiset(r[1..]))[x] == (multiset{d} + multiset(u))[x];
    }
  }

  /** The sorted symbols after the dummy are those in use, each once. */
  lemma SortedUsed(count: seq<nat>, k: nat, r: seq<SymFreq>)
    requires k <= |count| && StableSorted(WithDummy(count, k), r)
    ensures r != [] && r[0] == SymFreq(1, 0)
    ensures forall i :: 1 <= i < |r| ==> 1 <= r[i].sym <= k && r[i].key == count[r[i].sym - 1] > 0
    ensures forall s :: 0 <= s < k && count[s] > 0 ==> SymFreq(count[s], s + 1) in r[1..]
    ensures forall i, j :: 1 <= i < j < |r| ==> r[i].sym != r[j].sym
  {
    DummyFirst(count, k, r);
    UsedAre(count, k);
    var u := Used(count, k);
    RestOf(r, SymFreq(1, 0), u);
    hide *;
    SameElements(r[1..], u);
    forall i | 1 <= i < |r| ensures r[i] in u { assert r[1..][i - 1] == r[i]; }
    forall i, j | 1 <= i < j < |r| ensures r[i].sym != r[j].sym {
      if r[i].sym == r[j].sym {
        TwiceIn(r[1..], i - 1, j - 1);
        OnceIn(u, r[i]);
        assert false;
      }
    }
  }

  lemma SameElements(a: seq<SymFreq>, b: seq<SymFreq>)
    requires multiset(a) == multiset(b)
    ensures forall x :: x in a <==> x in b
  {
    forall x | x in a ensures x in b { assert x in multiset(a); }
    forall x | x in b ensures x in a { assert x in multiset(b); }
  }

  lemma TwiceIn(s: seq<SymFreq>, i: nat, j: nat)
    requires i < j < |s| && s[i] == s[j]
    ensures multiset(s)[s[i]] >= 2
  {
    assert s == s[..j] + s[j..];
    assert s[i] in s[..j] && s[j] in s[j..];
  }

  lemma {:induction false} OnceIn(s: seq<SymFreq>, x: SymFreq)
    requires forall i, j :: 0 <= i < j < |s| ==> s[i].sym < s[j].sym
    ensures multiset(s)[x] <= 1
  {
    if s != [] {
      OnceIn(s[1..], x);
      assert s == [s[0]] + s[1..];
    }
  }

  // ----- Code sizes and their numbers -----

  /** The keys of the symbols, which the minimum-redundancy step turns into code sizes. */
  function Keys(s: seq<SymFreq>): (ws: seq<nat>)
    ensures |ws| == |s| && forall i :: 0 <= i < |s| ==> ws[i] == s[i].key
  {
    seq(|s|, i requires 0 <= i < |s| => s[i].key)
  }

  /** The first i sizes have been counted. */
  ghost predicate Counted(num: seq<int>, lens: seq<nat>, i: nat) {
    && |num| == 33 && i <= |lens| && Limiter.Natural(num) && AtMost(lens, 32)
    && (forall l :: 0 <= l <= 32 ==> num[l] == multiset(lens[..i])[l])
    && Limiter.Count(num, 32) == i && AtMost(lens[..i], 32) && Limiter.Space(num, 32, 32) == Kraft(lens[..i], 32)
  }

  lemma CountNext(num: seq<int>, lens: seq<nat>, i: nat)
    requires Counted(num, lens, i) && i < |lens| && 1 <= lens[i] <= 32
    ensures Counted(num[lens[i] := num[lens[i]] + 1], lens, i + 1)
  {
    hide Limiter.Count, Limiter.Space, Kraft;
    Limiter.UpdateCount(num, lens[i], num[lens[i]] + 1, 32, 32);
    assert lens[..i + 1] == lens[..i] + [lens[i]];
    KraftConcat(lens[..i], [lens[i]], 32);
    KraftOne(lens[i], 32);
  }

  lemma CountFirst(num: seq<int>, lens: seq<nat>)
    requires |num| == 33 && (forall i :: 0 <= i < |num| ==> num[i] == 0) && forall i :: 0 <= i < |lens| ==>
        1 <= lens[i] <= 32
    ensures Counted(num, lens, 0)
  {
    NoSizes(num, 32);
    assert lens[..0] == [];
  }

  lemma CountLast(num: seq<int>, lens: seq<nat>)
    requires Counted(num, lens, |lens|)
    ensures |num| == 33 && Limiter.Natural(num) && forall l :: 0 <= l <= 32 ==> num[l] == multiset(lens)[l]
    ensures AtMost(lens, 32) && Limiter.Count(num, 32) == |lens| && Limiter.Space(num, 32, 32) == Kraft(lens, 32)
  {
    hide Limiter.Count, Limiter.Space, Kraft;
    assert lens[..|lens|] == lens;
  }

  /** The number of symbols of each code size. */
  method CountSizes(lens: seq<nat>) returns (num: array<int>)
    requires forall i :: 0 <= i < |lens| ==> 1 <= lens[i] <= 32
    ensures fresh(num) && num.Length == 33 && Limiter.Natural(num[..])
    ensures forall l :: 1 <= l <= 32 ==> num[l] == multiset(lens)[l]
    ensures AtMost(lens, 32) && Limiter.Count(num[..], 32) == |lens|
        && Limiter.Space(num[..], 32, 32) == Kraft(lens, 32)
  {
    hide *;
    num := new int[33](_ => 0);
    CountFirst(num[..], lens);
    for i := 0 to |lens|
      invariant Counted(num[..], lens, i)
    {
      ghost var was := num[..];
      CountNext(was, lens, i);
      num[lens[i]] := num[lens[i]] + 1;
      assert num[..] == was[lens[i] := was[lens[i]] + 1];
    }
    CountLast(num[..], lens);
    assert forall l :: 0 <= l <= 32 ==> num[l] == num[..][l];
  }

  lemma {:induction false} NoSizes(c: seq<int>, k: nat)
    requires k < |c| && k <= 32 && forall i :: 0 <= i < |c| ==> c[i] == 0
    ensures Limiter.Count(c, k) == 0 && Limiter.Space(c, k, 32) == 0 && Kraft([], 32) == 0
  {
    if k > 0 { NoSizes(c, k - 1); }
  }

  // ----- The table -----

  /** The limiter's counts as the counts of a table. */
  lemma {:induction false} SpaceOfBits(c: seq<int>, bits: seq<nat>, k: nat)
    requires |c| == 33 && |bits| == 17 && k <= 16 && forall l :: 1 <= l <= 16 ==> bits[l] == c[l]
    ensures Limiter.Count(c, k) == |Lens(bits, k)| && Limiter.Space(c, k, 16) == TreeRoom.Space(bits, k)
  {
    if k > 0 { SpaceOfBits(c, bits, k - 1); }
  }

  lemma {:induction false} CountAtMost(c: seq<int>, l: nat, k: nat)
    requires |c| == 33 && Limiter.Natural(c) && 1 <= l <= k <= 32
    ensures c[l] <= Limiter.Count(c, k)
    decreases k
  {
    if l < k { CountAtMost(c, l, k - 1); } else { Limiter.CountMono(c, 0, k - 1); }
  }

  /** One word less of the longest length. */
  lemma {:induction false} OneLess(bits: seq<nat>, m: nat, k: nat)
    requires |bits| == 17 && 1 <= m <= 16 && bits[m] > 0 && k <= 16
    ensures var less := bits[m := bits[m] - 1];
      && TreeRoom.Space(less, k) == TreeRoom.Space(bits, k) - (if m <= k then Pow2(16 - m) else 0)
      && |Lens(less, k)| == |Lens(bits, k)| - if m <= k then 1 else 0
  {
    if k > 0 {
      OneLess(bits, m, k - 1);
      if k == m { MulDistr(bits[m] - 1, 1, Pow2(16 - m)); }
    }
  }

  /** With room left in the code space, the words make a code, and none of them is all ones. */
  lemma RoomLeft(bits: seq<nat>)
    requires |bits| == 17 && TreeRoom.Space(bits, 16) < 0x1_0000
    ensures CodeLengths(Lens(bits, 16))
    ensures forall k :: 0 <= k < |Lens(bits, 16)| ==> !AllOnesWord(Lens(bits, 16), k)
  {
    var lens := Lens(bits, 16);
    LensOrder(bits, 16);
    TreeRoom.SpaceIsStart(bits, 16);
    hide Lens, Start, Code, CodeBits, TreeRoom.Space;
    forall k | 0 <= k < |lens| ensures !AllOnesWord(lens, k) {
      AllOnes(lens, k);
      StartMono(lens, k + 1, |lens|);
    }
  }

  ghost predicate AllOnesWord(lens: seq<nat>, k: nat)
    requires k < |lens| && forall i, j :: 0 <= i <= j < |lens| ==> lens[i] <= lens[j]
  {
    forall i :: 0 <= i < lens[k] ==> CodeBits(lens, k)[i]
  }

  /** The counts as bytes. */
  function Bytes(c: seq<int>): (b: seq<nat>)
    requires |c| == 33
    ensures |b| == 17
  {
    [0] + seq(16, l requires 0 <= l < 16 => c[l + 1] % 256)
  }

  /** One word less of the longest length up to i that has any. */
  function OneWordLess(b: seq<nat>, i: nat): (less: seq<nat>)
    requires |b| == 17 && i <= 16
    ensures |less| == 17
  {
    if i == 0 then b else if b[i] > 0 then b[i := b[i] - 1] else OneWordLess(b, i - 1)
  }

  /** No length has more words than a byte can count. */
  predicate Narrow(c: seq<int>)
    requires |c| == 33
  {
    forall l :: 1 <= l <= 16 ==> c[l] < 256
  }

  /** m_huff_bits: the limited counts as bytes, less the dummy in the longest bucket. */
  method HuffBits(num: array<int>) returns (bits: seq<nat>)
    requires num.Length == 33
    ensures bits == OneWordLess(Bytes(num[..]), 16)
  {
    ghost var c := num[..];
    var b := new nat[17](_ => 0);
    for i := 1 to 17
      invariant b[0] == 0 && forall l :: 1 <= l < i ==> b[l] == c[l] % 256
    {
      b[i] := num[i] % 256;
    }
    assert b[..] == Bytes(c);
    var i := 16;
    while i >= 1
      invariant 0 <= i <= 16 && b[..] == Bytes(c) && OneWordLess(Bytes(c), 16) == OneWordLess(Bytes(c), i)
    {
      if b[i] > 0 {
        b[i] := b[i] - 1;
        assert b[..] == Bytes(c)[i := Bytes(c)[i] - 1];
        break;
      }
      i := i - 1;
    }
    bits := b[..];
  }

  /** If the bytes are the counts, the table has all words but the dummy's, and none is all ones. */
  lemma NarrowBits(c: seq<int>, n: nat)
    requires |c| == 33 && Limiter.Natural(c) && n >= 1 && Limiter.Count(c, 16) == n && Narrow(c)
    requires n > 1 ==> Limiter.Space(c, 16, 16) == 0x1_0000
    requires n == 1 ==> Limiter.Space(c, 16, 16) <= 0x1_0000
    ensures var bits := OneWordLess(Bytes(c), 16);
      && |Lens(bits, 16)| == n - 1 && CodeLengths(Lens(bits, 16))
      && (forall k :: 0 <= k < |Lens(bits, 16)| ==> !AllOnesWord(Lens(bits, 16), k))
      && forall all: seq<nat> :: |all| == 17 && (forall l :: 1 <= l <= 16 ==> all[l] == c[l]) ==>
           n - 1 <= |Lens(all, 16)| && Lens(bits, 16) == Lens(all, 16)[..n - 1]
  {
    var all := Bytes(c);
    assert forall l :: 1 <= l <= 16 ==> all[l] == c[l];
    SpaceOfBits(c, all, 16);
    hide Lens, Limiter.Count, Limiter.Space, TreeRoom.Space, Start, Code, CodeBits, Narrow, Bytes, AllOnesWord;
    var m := LongestUsed(all, 16);
    if m == 0 {
      NoLens(all, 16);
      assert false;
    }
    var bits := all[m := all[m] - 1];
    OneLess(all, m, 16);
    Pow2Positive(16 - m);
    RoomLeft(bits);
    WithLongest(bits, m, 16);
    SameLens(all, c, n, bits, m);
  }

  /** The length that loses a word; 0 if there are no words. */
  lemma {:induction false} LongestUsed(b: seq<nat>, i: nat) returns (m: nat)
    requires |b| == 17 && i <= 16 && forall l :: i < l <= 16 ==> b[l] == 0
    ensures m <= i && forall l :: m < l <= 16 ==> b[l] == 0
    ensures m > 0 ==> b[m] > 0 && OneWordLess(b, i) == b[m := b[m] - 1]
    ensures m == 0 ==> OneWordLess(b, i) == b
  {
    if i == 0 || b[i] > 0 { m := i; } else { m := LongestUsed(b, i - 1); }
  }

  /** If a length has more words than a byte can count, the table lists too few. */
  lemma WideBits(c: seq<int>, n: nat)
    requires |c| == 33 && Limiter.Natural(c) && Limiter.Count(c, 16) == n && !Narrow(c)
    ensures |Lens(OneWordLess(Bytes(c), 16), 16)| < n - 1
  {
    FewerBytes(c, 16);
    var b := Bytes(c);
    hide Lens, Bytes, Limiter.Count;
    if forall l :: 1 <= l <= 16 ==> b[l] == 0 {
      var m := LongestUsed(b, 16);
    } else {
      var m := LongestUsed(b, 16);
      OneLess(b, m, 16);
    }
  }

  lemma {:induction false} FewerBytes(c: seq<int>, k: nat)
    requires |c| == 33 && Limiter.Natural(c) && k <= 16
    ensures |Lens(Bytes(c), k)| <= Limiter.Count(c, k)
    ensures (exists l :: 1 <= l <= k && c[l] >= 256) ==> |Lens(Bytes(c), k)| + 256 <= Limiter.Count(c, k)
  {
    if k > 0 { FewerBytes(c, k - 1); }
  }

  /** One word more of the longest length comes last. */
  lemma {:induction false} WithLongest(bits: seq<nat>, m: nat, k: nat)
    requires |bits| == 17 && 1 <= m <= k <= 16 && forall l :: m < l <= 16 ==> bits[l] == 0
    ensures Lens(bits[m := bits[m] + 1], k) == Lens(bits, k) + [m]
  {
    if k > m {
      WithLongest(bits, m, k - 1);
    } else {
      LensUpdate(bits, m, bits[m] + 1, m - 1);
      assert Repeat(m, bits[m] + 1) == Repeat(m, bits[m]) + [m];
    }
  }

  lemma {:induction false} LensUpdate(bits: seq<nat>, m: nat, v: nat, k: nat)
    requires k < m < |bits|
    ensures Lens(bits[m := v], k) == Lens(bits, k)
  {
    if k > 0 { LensUpdate(bits, m, v, k - 1); }
  }

  lemma {:induction false} LensSame(a: seq<nat>, b: seq<nat>, k: nat)
    requires k < |a| && k < |b| && forall l :: 1 <= l <= k ==> a[l] == b[l]
    ensures Lens(a, k) == Lens(b, k)
  {
    if k > 0 { LensSame(a, b, k - 1); }
  }

  lemma SameLens(b: seq<nat>, num: seq<int>, n: nat, bits: seq<nat>, m: nat)
    requires |b| == |bits| == 17 && |num| == 33 && (forall l :: 1 <= l <= 16 ==> b[l] == num[l]) && 1 <= m <= 16
    requires b[m] > 0 && bits == b[m := b[m] - 1] && |Lens(bits, 16)| == n - 1
    requires Lens(bits[m := bits[m] + 1], 16) == Lens(bits, 16) + [m]
    ensures forall all: seq<nat> :: |all| == 17 && (forall l :: 1 <= l <= 16 ==> all[l] == num[l]) ==>
      n - 1 <= |Lens(all, 16)| && Lens(bits, 16) == Lens(all, 16)[..n - 1]
  {
    hide Lens;
    assert bits[m := bits[m] + 1] == b;
    forall all: seq<nat> | |all| == 17 && (forall l :: 1 <= l <= 16 ==> all[l] == num[l])
      ensures n - 1 <= |Lens(all, 16)| && Lens(bits, 16) == Lens(all, 16)[..n - 1]
    {
      LensSame(all, b, 16);
    }
  }

  /** Expanding the numbers of each size gives the sizes back, the shortest first. */
  lemma {:induction false} SizesExpanded(lens: seq<nat>, bits: seq<nat>)
    requires |bits| == 17 && forall i :: 0 <= i < |lens| ==> 1 <= lens[i] <= 16
    requires forall i, j :: 0 <= i <= j < |lens| ==> lens[i] >= lens[j]
    requires forall l :: 1 <= l <= 16 ==> bits[l] == multiset(lens)[l]
    ensures |Lens(bits, 16)| == |lens| && forall k :: 0 <= k < |lens| ==> Lens(bits, 16)[k] == lens[|lens| - 1 - k]
  {
    hide *;
    if lens == [] {
      NoLens(bits, 16);
    } else {
      var m := lens[0];
      var less := bits[m := bits[m] - 1];
      FirstSize(lens, bits);
      SizesExpanded(lens[1..], less);
      NoneLonger(lens, less);
      WithLongest(less, m, 16);
      assert less[m := less[m] + 1] == bits;
    }
  }

  lemma FirstSize(lens: seq<nat>, bits: seq<nat>)
    requires |bits| == 17 && lens != [] && 1 <= lens[0] <= 16 && forall l :: 1 <= l <= 16 ==>
        bits[l] == multiset(lens)[l]
    ensures bits[lens[0]] >= 1
    ensures forall l :: 1 <= l <= 16 ==> bits[lens[0] := bits[lens[0]] - 1][l] == multiset(lens[1..])[l]
  {
    assert lens == [lens[0]] + lens[1..];
    assert multiset(lens) == multiset{lens[0]} + multiset(lens[1..]);
  }

  lemma NoneLonger(lens: seq<nat>, less: seq<nat>)
    requires |less| == 17 && lens != [] && forall i, j :: 0 <= i <= j < |lens| ==> lens[i] >= lens[j]
    requires forall l :: lens[0] < l <= 16 ==> less[l] == multiset(lens)[l]
    ensures forall l :: lens[0] < l <= 16 ==> less[l] == 0
  {
    forall l | lens[0] < l <= 16 ensures less[l] == 0 {
      assert l !in lens;
    }
  }

  lemma Pow2Positive(n: nat)
    ensures Pow2(n) > 0
  {
  }

  lemma {:induction false} NoLens(bits: seq<nat>, k: nat)
    requires k < |bits| && forall l :: 1 <= l <= k ==> bits[l] == 0
    ensures |Lens(bits, k)| == 0
  {
    if k > 0 { NoLens(bits, k - 1); }
  }

  /** m_huff_val: the symbols, from the most frequent one down, without the dummy. */
  method HuffVals(syms: seq<SymFreq>) returns (vals: seq<nat>)
    requires 1 <= |syms| <= 257 && forall i :: 1 <= i < |syms| ==> 1 <= syms[i].sym <= 256
    ensures |vals| == 256 && forall k :: 0 <= k < |syms| - 1 ==> vals[k] == syms[|syms| - 1 - k].sym - 1
  {
    var v := new nat[256](_ => 0);
    var n := |syms|;
    var i := n - 1;
    while i >= 1
      invariant 0 <= i < n && forall k :: 0 <= k < n - 1 - i ==> v[k] == syms[n - 1 - k].sym - 1
    {
      v[n - 1 - i] := (syms[i].sym - 1) % 256;
      i := i - 1;
    }
    vals := v[..];
  }

  /** The sum of the keys without one of the symbols. */
  lemma SumWithout(b: seq<SymFreq>, i: nat)
    requires i < |b|
    ensures Sum(Keys(b)) == b[i].key + Sum(Keys(b[..i] + b[i + 1..]))
  {
    var x, y := Keys(b[..i]), Keys(b[i + 1..]);
    assert Keys(b) == x + ([b[i].key] + y);
    assert Keys(b[..i] + b[i + 1..]) == x + y;
    assert ([b[i].key] + y)[1..] == y;
    SumConcat(x, [b[i].key] + y);
    SumConcat(x, y);
  }

  /** Sorting does not change the sum of the keys. */
  lemma {:induction false} SumOfKeys(a: seq<SymFreq>, b: seq<SymFreq>)
    requires multiset(a) == multiset(b)
    ensures Sum(Keys(a)) == Sum(Keys(b))
  {
    hide Sum, Keys;
    if a == [] {
      assert |multiset(b)| == 0;
      assert b == [];
    } else {
      assert a[0] in multiset(a);
      var i :| 0 <= i < |b| && b[i] == a[0];
      var b' := b[..i] + b[i + 1..];
      assert b == b[..i] + [b[i]] + b[i + 1..];
      assert a == [a[0]] + a[1..];
      RestSame(a[1..], b', a[0], multiset(a), multiset(b));
      SumOfKeys(a[1..], b');
      SumWithout(b, i);
      SumWithout(a, 0);
      assert a[..0] + a[1..] == a[1..];
    }
  }

  lemma RestSame(a: seq<SymFreq>, b: seq<SymFreq>, x: SymFreq, ma: multiset<SymFreq>, mb: multiset<SymFreq>)
    requires ma == multiset{x} + multiset(a) && mb == multiset(b) + multiset{x} && ma == mb
    ensures multiset(a) == multiset(b)
  {
    forall y ensures multiset(a)[y] == multiset(b)[y] {
      assert (multiset{x} + multiset(a))[y] == (multiset(b) + multiset{x})[y];
    }
  }

  /** The sorted keys are weights for the minimum-redundancy step. */
  lemma SortedWeights(count: seq<nat>, k: nat, r: seq<SymFreq>)
    requires k <= |count| && StableSorted(WithDummy(count, k), r) && Sum(Keys(Used(count, k))) + 1 < Fib(35)
    ensures |r| == |Used(count, k)| + 1 && Sum(Keys(r)) < Fib(35) <= 0x1_0000_0000
    ensures |r| >= 2 ==> Weights(Keys(r))
  {
    hide *;
    FibValue();
    SortedSum(count, k, r);
    WeightsOf(count, k, r);
  }

  lemma SortedSum(count: seq<nat>, k: nat, r: seq<SymFreq>)
    requires k <= |count| && StableSorted(WithDummy(count, k), r)
    ensures Sum(Keys(r)) == 1 + Sum(Keys(Used(count, k)))
  {
    DummySum(Used(count, k));
    hide Used, WithKey, Sum, Keys;
    SumOfKeys(WithDummy(count, k), r);
  }

  lemma WeightsOf(count: seq<nat>, k: nat, r: seq<SymFreq>)
    requires k <= |count| && StableSorted(WithDummy(count, k), r) && Sum(Keys(r)) < 0x1_0000_0000
    ensures |r| == |Used(count, k)| + 1 && (|r| >= 2 ==> Weights(Keys(r)))
  {
    SortedUsed(count, k, r);
    hide Used, WithKey, Sum;
  }

  lemma DummySum(u: seq<SymFreq>)
    ensures Sum(Keys([SymFreq(1, 0)] + u)) == 1 + Sum(Keys(u))
  {
    var s := [SymFreq(1, 0)] + u;
    SumWithout(s, 0);
    assert s[..0] + s[1..] == u;
  }

  lemma FibValue()
    ensures Fib(35) == 9227465
  {
    assert Fib(10) == 55 && Fib(11) == 89;
    assert Fib(20) == 6765 && Fib(21) == 10946;
    assert Fib(30) == 832040 && Fib(31) == 1346269;
  }

  /** No prefix code has a smaller weighted length. */
  ghost predicate Optimal(weights: seq<nat>, lens: seq<nat>) {
    |lens| == |weights| &&
    forall codes :: PrefixFree(codes) && |codes| == |weights| ==> Cost(weights, lens) <= Cost(weights, Lengths(codes))
  }

  /** The code sizes of the sorted symbols. */
  method Sizes(r: seq<SymFreq>) returns (lens: seq<nat>)
    requires |r| >= 1 && (|r| >= 2 ==> Weights(Keys(r))) && Sum(Keys(r)) < Fib(35)
    ensures |lens| == |r| && forall i :: 0 <= i < |lens| ==> 1 <= lens[i] <= 32
    ensures forall i, j :: 0 <= i <= j < |lens| ==> lens[i] >= lens[j]
    ensures AtMost(lens, 32) && (|r| >= 2 ==> Kraft(lens, 32) == Pow2(32) && Optimal(Keys(r), lens))
    ensures |r| == 1 ==> lens == [1]
  {
    hide Weights, Kraft, Cost, Fib, PrefixFree, Sum, HuffmanCost;
    var keys := Keys(r);
    var a := new nat[|r|](i requires 0 <= i < |r| => keys[i]);
    assert a[..] == keys;
    CalculateMinimumRedundancy(a);
    lens := a[..];
    if |r| >= 2 {
      ShortEnough(lens[0], Sum(keys));
      KraftTo32(lens);
    }
  }

  lemma ShortEnough(l: nat, total: nat)
    requires Fib(l + 2) <= total < Fib(35)
    ensures l <= 32
  {
    hide Fib;
    if l > 32 { FibMono(35, l + 2); }
  }

  lemma KraftTo32(lens: seq<nat>)
    requires |lens| >= 1 && AtMost(lens, lens[0]) && lens[0] <= 32 && Kraft(lens, lens[0]) == Pow2(lens[0])
    ensures AtMost(lens, 32) && Kraft(lens, 32) == Pow2(32)
  {
    KraftScale(lens, lens[0], 32 - lens[0]);
    Pow2Add(32 - lens[0], lens[0]);
  }

  /** The counts, limited to codes of 16 bits, without the dummy. */
  method Limited(num: array<int>, n: nat, ghost lens: seq<nat>) returns (bits: seq<nat>)
    requires num.Length == 33 && Limiter.Natural(num[..]) && 1 <= n == |lens| <= 257
    requires forall l :: 1 <= l <= 32 ==> num[l] == multiset(lens)[l]
    requires Limiter.Count(num[..], 32) == n && (n > 1 ==> Limiter.Space(num[..], 32, 32) == Pow2(32))
    requires forall i :: 0 <= i < |lens| ==> 1 <= lens[i] <= 32
    requires forall i, j :: 0 <= i <= j < |lens| ==> lens[i] >= lens[j]
    requires n == 1 ==> lens == [1]
    modifies num
    ensures |bits| == 17 && (|Lens(bits, 16)| == n - 1 <==> Narrow(num[..])) && (n <= 255 ==> Narrow(num[..]))
    ensures Narrow(num[..]) ==> CodeLengths(Lens(bits, 16))
    ensures Narrow(num[..]) ==> forall k :: 0 <= k < |Lens(bits, 16)| ==> !AllOnesWord(Lens(bits, 16), k)
    ensures Narrow(num[..]) && AtMost(lens, 16) ==> forall k :: 0 <= k < n - 1 ==> Lens(bits, 16)[k] == lens[n - 1 - k]
    ensures AtMost(lens, 16) ==> forall l :: 1 <= l <= 16 ==> num[l] == multiset(lens)[l]
  {
    hide *;
    ghost var c := num[..];
    if n == 1 { OneWord(c); }
    AtLeast(n);
    Limiter.EnforceMaxCodeSize(num, n, 16);
    bits := HuffBits(num);
    if n <= 255 { FewWords(num[..], n); }
    if Narrow(num[..]) { NarrowBits(num[..], n); } else { WideBits(num[..], n); }
    if forall i :: 0 <= i < n ==> lens[i] <= 16 {
      NoLongWords(c, lens);
      if Narrow(num[..]) { Expanded(c, lens, bits, n); }
    }
    AtMostMeans(lens);
  }

  lemma FewWords(c: seq<int>, n: nat)
    requires |c| == 33 && Limiter.Natural(c) && Limiter.Count(c, 16) == n <= 255
    ensures Narrow(c)
  {
    forall l | 1 <= l <= 16 ensures c[l] < 256 { CountAtMost(c, l, 16); }
  }

  lemma AtMostMeans(lens: seq<nat>)
    ensures AtMost(lens, 16) <==> forall i :: 0 <= i < |lens| ==> lens[i] <= 16
  {
  }

  lemma Expanded(c: seq<int>, lens: seq<nat>, bits: seq<nat>, n: nat)
    requires |c| == 33 && |bits| == 17 && n == |lens| >= 1 && forall l :: 1 <= l <= 32 ==> c[l] == multiset(lens)[l]
    requires forall i :: 0 <= i < n ==> 1 <= lens[i] <= 16
    requires forall i, j :: 0 <= i <= j < n ==> lens[i] >= lens[j]
    requires forall all: seq<nat> :: |all| == 17 && (forall l :: 1 <= l <= 16 ==> all[l] == c[l]) ==>
      n - 1 <= |Lens(all, 16)| && Lens(bits, 16) == Lens(all, 16)[..n - 1]
    ensures |Lens(bits, 16)| == n - 1 && forall k :: 0 <= k < n - 1 ==> Lens(bits, 16)[k] == lens[n - 1 - k]
  {
    hide Lens;
    var all: seq<nat> := seq(17, l requires 0 <= l < 17 => multiset(lens)[l]);
    SizesExpanded(lens, all);
    assert forall l :: 1 <= l <= 16 ==> all[l] == c[l];
  }

  lemma AtLeast(n: nat)
    requires n <= 257
    ensures n <= Pow2(16) == 0x1_0000 && Limiter.MAX_HUFF_CODESIZE == 32
  {
    Pow2Values();
  }

  lemma NoLongWords(c: seq<int>, lens: seq<nat>)
    requires |c| == 33 && (forall i :: 0 <= i < |lens| ==> lens[i] <= 16)
    requires forall l :: 1 <= l <= 32 ==> c[l] == multiset(lens)[l]
    ensures forall l :: 16 < l <= 32 ==> c[l] == 0
  {
    forall l | 16 < l <= 32 ensures c[l] == 0 {
      assert l !in lens;
    }
  }

  lemma OneWord(c: seq<int>)
    requires |c| == 33 && Limiter.Natural(c) && forall l :: 1 <= l <= 32 ==> c[l] == multiset([1])[l]
    ensures Limiter.Count(c, 16) == 1 && Limiter.Space(c, 16, 16) <= 0x1_0000
  {
    assert c[1] == 1 && forall l :: 2 <= l <= 32 ==> c[l] == 0;
    OnlyFirst(c, 16);
    Pow2Values();
  }

  lemma {:induction false} OnlyFirst(c: seq<int>, k: nat)
    requires |c| == 33 && 1 <= k <= 16 && c[1] == 1 && forall l :: 2 <= l <= 32 ==> c[l] == 0
    ensures Limiter.Count(c, k) == 1 && Limiter.Space(c, k, 16) == Pow2(15)
  {
    if k > 1 { OnlyFirst(c, k - 1); }
  }

  lemma KeysBounded(count: seq<nat>, k: nat)
    requires k <= |count| && Sum(Keys(Used(count, k))) + 1 < Fib(35)
    ensures forall x :: x in WithDummy(count, k) ==> x.key < 0x1_0000_0000
  {
    FibValue();
    hide Used, Fib, Sum;
    forall x | x in WithDummy(count, k) ensures x.key < 0x1_0000_0000 {
      if x in Used(count, k) {
        var i :| 0 <= i < |Used(count, k)| && Used(count, k)[i] == x;
        SumWithout(Used(count, k), i);
      }
    }
  }

  /** The first n values are the symbols in use, each once, from the most frequent one down. */
  ghost predicate ListsInUse(count: seq<nat>, k: nat, vals: seq<nat>, n: nat)
    requires k <= |count| && n <= |vals|
  {
    && (forall i :: 0 <= i < n ==> vals[i] < k && count[vals[i]] > 0)
    && (forall s :: 0 <= s < k && count[s] > 0 ==> s in vals[..n])
    && (forall i, j :: 0 <= i < j < n ==> vals[i] != vals[j] && count[vals[i]] >= count[vals[j]])
  }

  lemma ListsUsed(count: seq<nat>, k: nat, r: seq<SymFreq>, vals: seq<nat>)
    requires k <= |count| <= 256 && StableSorted(WithDummy(count, k), r) && 1 <= |r| <= 257 == |vals| + 1
    requires forall i :: 0 <= i < |r| - 1 ==> vals[i] == r[|r| - 1 - i].sym - 1
    ensures ListsInUse(count, k, vals, |r| - 1) && Keys(r)[0] == 1
    ensures forall i :: 0 <= i < |r| - 1 ==> vals[i] < k && Keys(r)[|r| - 1 - i] == count[vals[i]]
  {
    hide *;
    AllListed(count, k, r, vals);
    OnlyListed(count, k, r, vals);
    InUse(count, k, vals, |r| - 1);
  }

  lemma AllListed(count: seq<nat>, k: nat, r: seq<SymFreq>, vals: seq<nat>)
    requires k <= |count| <= 256 && StableSorted(WithDummy(count, k), r) && 1 <= |r| <= 257 == |vals| + 1
    requires forall i :: 0 <= i < |r| - 1 ==> vals[i] == r[|r| - 1 - i].sym - 1
    ensures forall s :: 0 <= s < k && count[s] > 0 ==> s in vals[..|r| - 1]
  {
    hide *;
    forall s | 0 <= s < k && count[s] > 0 ensures s in vals[..|r| - 1] {
      IsSorted(count, k, r, s);
      IsListed(r, vals, SymFreq(count[s], s + 1));
    }
  }

  lemma IsSorted(count: seq<nat>, k: nat, r: seq<SymFreq>, s: nat)
    requires k <= |count| <= 256 && StableSorted(WithDummy(count, k), r) && s < k && count[s] > 0
    ensures r != [] && SymFreq(count[s], s + 1) in r[1..]
  {
    hide *;
    SortedUsed(count, k, r);
  }

  lemma OnlyListed(count: seq<nat>, k: nat, r: seq<SymFreq>, vals: seq<nat>)
    requires k <= |count| <= 256 && StableSorted(WithDummy(count, k), r) && 1 <= |r| <= 257 == |vals| + 1
    requires forall i :: 0 <= i < |r| - 1 ==> vals[i] == r[|r| - 1 - i].sym - 1
    ensures Keys(r)[0] == 1
    ensures forall i :: 0 <= i < |r| - 1 ==> vals[i] < k && Keys(r)[|r| - 1 - i] == count[vals[i]] > 0
    ensures forall i, j :: 0 <= i < j < |r| - 1 ==> vals[i] != vals[j] && count[vals[i]] >= count[vals[j]]
  {
    hide *;
    SortedOnly(count, k, r);
    KeysAscend(WithDummy(count, k), r);
    InUseFacts(count, k, r, vals);
  }

  lemma SortedOnly(count: seq<nat>, k: nat, r: seq<SymFreq>)
    requires k <= |count| && StableSorted(WithDummy(count, k), r)
    ensures r != [] && r[0] == SymFreq(1, 0)
    ensures forall i :: 1 <= i < |r| ==> 1 <= r[i].sym <= k && r[i].key == count[r[i].sym - 1] > 0
    ensures forall i, j :: 1 <= i < j < |r| ==> r[i].sym != r[j].sym
  {
    hide *;
    SortedUsed(count, k, r);
  }

  lemma IsListed(r: seq<SymFreq>, vals: seq<nat>, x: SymFreq)
    requires 1 <= |r| <= |vals| + 1 && x in r[1..] && x.sym > 0
    requires forall i :: 0 <= i < |r| - 1 ==> vals[i] == r[|r| - 1 - i].sym - 1
    ensures x.sym - 1 in vals[..|r| - 1]
  {
    var n := |r| - 1;
    var i :| 0 <= i < |r[1..]| && r[1..][i] == x;
    assert vals[n - 1 - i] == r[i + 1].sym - 1;
    assert vals[..n][n - 1 - i] == x.sym - 1;
  }

  lemma KeysAscend(s: seq<SymFreq>, r: seq<SymFreq>)
    requires StableSorted(s, r)
    ensures forall i, j :: 0 <= i < j < |r| ==> r[i].key <= r[j].key
  {
    hide WithKey;
  }

  lemma InUseFacts(count: seq<nat>, k: nat, r: seq<SymFreq>, vals: seq<nat>)
    requires k <= |count| && 1 <= |r| <= 257 == |vals| + 1
    requires forall i :: 0 <= i < |r| - 1 ==> vals[i] == r[|r| - 1 - i].sym - 1
    requires forall i, j :: 0 <= i < j < |r| ==> r[i].key <= r[j].key
    requires forall i :: 1 <= i < |r| ==> 1 <= r[i].sym <= k && r[i].key == count[r[i].sym - 1] > 0
    requires forall i, j :: 1 <= i < j < |r| ==> r[i].sym != r[j].sym
    ensures forall i :: 0 <= i < |r| - 1 ==> vals[i] < k && count[vals[i]] == r[|r| - 1 - i].key > 0
    ensures forall i, j :: 0 <= i < j < |r| - 1 ==> vals[i] != vals[j] && count[vals[i]] >= count[vals[j]]
  {
    var n := |r| - 1;
    forall i, j | 0 <= i < j < n ensures vals[i] != vals[j] && count[vals[i]] >= count[vals[j]] {
      assert r[n - j].sym != r[n - i].sym && r[n - j].key <= r[n - i].key;
    }
  }

  lemma InUse(count: seq<nat>, k: nat, vals: seq<nat>, n: nat)
    requires k <= |count| && n <= |vals|
    requires forall i :: 0 <= i < n ==> vals[i] < k && count[vals[i]] > 0
    requires forall s :: 0 <= s < k && count[s] > 0 ==> s in vals[..n]
    requires forall i, j :: 0 <= i < j < n ==> vals[i] != vals[j] && count[vals[i]] >= count[vals[j]]
    ensures ListsInUse(count, k, vals, n)
  {
  }

  lemma IsProperTable(count: seq<nat>, k: nat, bits: seq<nat>, vals: seq<nat>, n: nat)
    requires |bits| == 17 && CodeLengths(Lens(bits, 16)) && |Lens(bits, 16)| == n <= 256 == |vals| && k <= 256
    requires k <= |count| && ListsInUse(count, k, vals, n)
    ensures ProperTable(bits, vals)
  {
    hide Lens;
  }

  /** optimize_huffman_table(): if no length has more words than a byte can count, a table that lists each symbol in use
    * once, the more frequent ones with shorter codes, and without a code of all ones; otherwise one with too few words.
    * Together with the dummy's, the code lengths are the best possible ones if these have at most 16 bits. */
  method OptimizeHuffmanTable(count: seq<nat>, tableLen: nat)
    returns (bits: seq<nat>, vals: seq<nat>, ghost weights: seq<nat>, ghost lens: seq<nat>, ghost limited: seq<int>)
    requires tableLen <= |count| <= 256 && Sum(Keys(Used(count, tableLen))) + 1 < Fib(35)
    ensures |bits| == 17 && |limited| == 33
    ensures |Lens(bits, 16)| == |Used(count, tableLen)| <==> Narrow(limited)
    ensures |Used(count, tableLen)| < 255 ==> Narrow(limited)
    ensures Narrow(limited) ==> ProperTable(bits, vals)
    ensures Narrow(limited) ==> forall k :: 0 <= k < |Lens(bits, 16)| ==> !AllOnesWord(Lens(bits, 16), k)
    ensures |vals| == 256 && ListsInUse(count, tableLen, vals, |Used(count, tableLen)|)
    ensures var n := |Used(count, tableLen)|;
      && |weights| == |lens| == n + 1 && weights[0] == 1
      && (forall k :: 0 <= k < n ==> vals[k] < |count| && weights[n - k] == count[vals[k]])
      && (forall i :: 0 <= i <= n ==> 1 <= lens[i] <= 32) && AtMost(lens, 32)
      && (n > 0 ==> Optimal(weights, lens) && Kraft(lens, 32) == Pow2(32))
      && (AtMost(lens, 16) ==> forall l :: 1 <= l <= 16 ==> limited[l] == multiset(lens)[l])
      && (Narrow(limited) && AtMost(lens, 16) ==> forall k :: 0 <= k < n ==> Lens(bits, 16)[k] == lens[n - k])
  {
    hide *;
    var syms, n := Collect(count, tableLen);
    var other := new SymFreq[257](_ => SymFreq(0, 0));
    KeysBounded(count, tableLen);
    var sorted := RadixSortSyms(syms, other, n);
    var r := sorted[..n];
    SortedUsed(count, tableLen, r);
    SortedWeights(count, tableLen, r);
    var sizes := Sizes(r);
    var num := CountSizes(sizes);
    bits := Limited(num, n, sizes);
    vals := HuffVals(r);
    weights, lens, limited := Keys(r), sizes, num[..];
    ListsUsed(count, tableLen, r, vals);
    if Narrow(limited) { IsProperTable(count, tableLen, bits, vals, |r| - 1); }
  }

  // ----- 255 symbols that are equally frequent -----

  lemma {:induction false} AllUsed(count: seq<nat>, k: nat)
    requires k <= |count| && forall i :: 0 <= i < k ==> count[i] == 1
    ensures |Used(count, k)| == k && Sum(Keys(Used(count, k))) == k
  {
    if k == 0 {
      assert Keys(Used(count, 0)) == [];
    } else {
      AllUsed(count, k - 1);
      assert Keys(Used(count, k)) == Keys(Used(count, k - 1)) + [1];
      SumConcat(Keys(Used(count, k - 1)), [1]);
      SumOne(1);
    }
  }

  /** A word of length l takes at least 9 - l times as much space as one of 8 bits, and more unless it has 7 or 8
    * bits. */
  lemma {:induction false} Convex(l: nat)
    requires 1 <= l <= 32
    ensures Pow2(32 - l) >= 0x100_0000 * (9 - l)
    ensures Pow2(32 - l) == 0x100_0000 * (9 - l) ==> l == 7 || l == 8
    decreases 32 - l
  {
    Pow2Values();
    if l < 8 { Convex(l + 1); }
  }

  lemma {:induction false} LongCost(lens: seq<nat>)
    requires forall i :: 0 <= i < |lens| ==> 1 <= lens[i] <= 32
    ensures AtMost(lens, 32) && Kraft(lens, 32) >= 0x100_0000 * (9 * |lens| - Sum(lens))
    ensures Kraft(lens, 32) == 0x100_0000 * (9 * |lens| - Sum(lens)) ==> forall i :: 0 <= i < |lens| ==>
        lens[i] in {7, 8}
  {
    if lens != [] {
      LongCost(lens[1..]);
      Convex(lens[0]);
    }
  }

  lemma {:induction false} UnitCost(ws: seq<nat>, lens: seq<nat>)
    requires |ws| == |lens| && forall i :: 0 <= i < |ws| ==> ws[i] == 1
    ensures Cost(ws, lens) == Sum(lens)
  {
    if ws != [] { UnitCost(ws[1..], lens[1..]); }
  }

  /** All words of 8 bits. */
  function FlatCode(): (codes: seq<BitString>)
    ensures |codes| == 256
  {
    seq(256, i requires 0 <= i < 256 => Enc(i, 8))
  }

  lemma FlatIsPrefixFree()
    ensures PrefixFree(FlatCode()) && forall i :: 0 <= i < 256 ==> Lengths(FlatCode())[i] == 8
  {
    hide Enc, Val;
    Pow2Values();
    forall i, j | 0 <= i < 256 && 0 <= j < 256 && i != j ensures !(FlatCode()[i] <= FlatCode()[j]) {
      ValEnc(i, 8);
      ValEnc(j, 8);
      EqualLength(FlatCode()[i], FlatCode()[j]);
    }
  }

  lemma EqualLength(a: BitString, b: BitString)
    requires |a| == |b|
    ensures a <= b <==> a == b
  {
  }

  lemma {:induction false} SumOfSame(s: seq<nat>, x: nat)
    requires forall i :: 0 <= i < |s| ==> s[i] == x
    ensures Sum(s) == |s| * x && multiset(s)[x] == |s|
  {
    if s != [] {
      SumOfSame(s[1..], x);
      assert s == [s[0]] + s[1..];
    }
  }

  /** Lengths of 7 and 8 that add up to 8 each are all 8. */
  lemma {:induction false} NoneShort(lens: seq<nat>)
    requires forall i :: 0 <= i < |lens| ==> lens[i] in {7, 8}
    ensures Sum(lens) <= 8 * |lens|
    ensures Sum(lens) == 8 * |lens| ==> forall i :: 0 <= i < |lens| ==> lens[i] == 8
  {
    if lens != [] { NoneShort(lens[1..]); }
  }

  /** The only optimal lengths for 256 equal weights that fill the code space are 8 bits throughout. */
  lemma EqualWeights(ws: seq<nat>, lens: seq<nat>)
    requires |ws| == |lens| == 256 && (forall i :: 0 <= i < 256 ==> ws[i] == 1 <= lens[i] <= 32)
    requires Optimal(ws, lens) && AtMost(lens, 32) && Kraft(lens, 32) == Pow2(32)
    ensures forall i :: 0 <= i < 256 ==> lens[i] == 8
  {
    hide *;
    AtMostFlat(ws, lens);
    LongCost(lens);
    Pow2Values();
    NoneShortIf(lens);
  }

  /** No optimal lengths cost more than 8 bits for each word. */
  lemma AtMostFlat(ws: seq<nat>, lens: seq<nat>)
    requires |ws| == |lens| == 256 && (forall i :: 0 <= i < 256 ==> ws[i] == 1) && Optimal(ws, lens)
    ensures Sum(lens) <= 2048
  {
    FlatIsPrefixFree();
    hide FlatCode, PrefixFree, Cost, Sum;
    UnitCost(ws, lens);
    UnitCost(ws, Lengths(FlatCode()));
    SumOfSame(Lengths(FlatCode()), 8);
  }

  lemma NoneShortIf(lens: seq<nat>)
    ensures (forall i :: 0 <= i < |lens| ==> lens[i] in {7, 8}) && Sum(lens) == 8 * |lens| ==>
      forall i :: 0 <= i < |lens| ==> lens[i] == 8
  {
    hide Sum;
    if forall i :: 0 <= i < |lens| ==> lens[i] in {7, 8} { NoneShort(lens); }
  }

  lemma AlikeIsWide(count: seq<nat>, vals: seq<nat>, weights: seq<nat>, lens: seq<nat>, limited: seq<int>)
    requires |count| == 255 && (forall i :: 0 <= i < 255 ==> count[i] == 1) && |limited| == 33 && |vals| == 256
    requires |weights| == |lens| == 256 && weights[0] == 1
    requires forall k :: 0 <= k < 255 ==> vals[k] < |count| && weights[255 - k] == count[vals[k]]
    requires (forall i :: 0 <= i < 256 ==> 1 <= lens[i] <= 32) && AtMost(lens, 32)
    requires Optimal(weights, lens) && Kraft(lens, 32) == Pow2(32)
    requires AtMost(lens, 16) ==> forall l :: 1 <= l <= 16 ==> limited[l] == multiset(lens)[l]
    ensures !Narrow(limited)
  {
    hide Optimal, Kraft;
    forall i | 0 <= i < 256 ensures weights[i] == 1 {
      if i > 0 { assert weights[255 - (255 - i)] == count[vals[255 - i]]; }
    }
    EqualWeights(weights, lens);
    SumOfSame(lens, 8);
    assert limited[8] == 256;
  }

  /** For 255 symbols that each occur once, all words have 8 bits, a byte counts 256 of them as none, and the table
    * lists too few. */
  method TooManyAlike() returns (bits: seq<nat>, vals: seq<nat>)
    ensures |bits| == 17 && |Lens(bits, 16)| != 255
  {
    hide *;
    var count: seq<nat> := seq(255, _ => 1);
    AllUsed(count, 255);
    FibValue();
    ghost var weights, lens, limited;
    bits, vals, weights, lens, limited := OptimizeHuffmanTable(count, 255);
    AlikeIsWide(count, vals, weights, lens, limited);
  }
}
