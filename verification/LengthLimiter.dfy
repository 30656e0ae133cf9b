/** huffman_enforce_max_code_size(): limiting the longest code length (section K.2 of ITU-T T.81). */
module LengthLimiter {
  import opened Bits

  const MAX_HUFF_CODESIZE := 32

  /** How many words have length 1 to k. */
  ghost function Count(c: seq<int>, k: nat): int
    requires k < |c|
  {
    if k == 0 then 0 else Count(c, k - 1) + c[k]
  }

  /** The code space, in units of 2^-m, that the words of length 1 to k take. */
  ghost function Space(c: seq<int>, k: nat, m: nat): int
    requires k < |c| && k <= m
  {
    if k == 0 then 0 else Space(c, k - 1, m) + c[k] * Pow2(m - k)
  }

  ghost predicate Natural(c: seq<int>) {
    forall i :: 0 <= i < |c| ==> c[i] >= 0
  }

  lemma {:induction false} SpaceScale(c: seq<int>, k: nat, m: nat, d: nat)
    requires k < |c| && k <= m
    ensures Space(c, k, m + d) == Pow2(d) * Space(c, k, m)
  {
    if k > 0 {
      SpaceScale(c, k - 1, m, d);
      Pow2Add(d, m - k);
      ScaleTerm(Pow2(d), Space(c, k - 1, m), c[k], Pow2(m - k));
    }
  }

  lemma ScaleTerm(p: int, x: int, y: int, z: int)
    ensures p * x + y * (p * z) == p * (x + y * z)
  {
    assert y * (p * z) == p * (y * z);
  }

  /** Changing one count. */
  lemma {:induction false} UpdateCount(c: seq<int>, i: nat, v: int, k: nat, m: nat)
    requires 1 <= i < |c| && k < |c| && k <= m
    ensures Count(c[i := v], k) == Count(c, k) + if i <= k then v - c[i] else 0
    ensures Space(c[i := v], k, m) == Space(c, k, m) + if i <= k then (v - c[i]) * Pow2(m - i) else 0
  {
    if k > 0 {
      UpdateCount(c, i, v, k - 1, m);
      if i == k { MulDistr(v - c[i], c[i], Pow2(m - k)); }
    }
  }

  lemma {:induction false} LongWords(c: seq<int>, max: nat, k: nat)
    requires Natural(c) && |c| == 33 && max <= k <= 32
    ensures var s := Count(c, k) - Count(c, max); var t := Space(c, k, 32) - Space(c, max, 32);
      && 0 <= s <= t && 2 * t <= s * Pow2(32 - max)
    decreases k
  {
    if k > max {
      LongWords(c, max, k - 1);
      Pow2Mono(32 - k + 1, 32 - max);
      LongTerm(c[k], Count(c, k - 1) - Count(c, max), Pow2(32 - k), Pow2(32 - max));
    }
  }

  lemma LongTerm(x: nat, s: nat, q: nat, p: nat)
    requires q >= 1 && 2 * q <= p
    ensures x <= x * q && s * p + 2 * (x * q) <= (s + x) * p
  {
    MulMono(1, q, x);
    MulMono(2 * q, p, x);
    MulDistr(s, x, p);
  }

  lemma {:induction false} CountMono(c: seq<int>, j: nat, k: nat)
    requires Natural(c) && j <= k < |c|
    ensures 0 <= Count(c, j) <= Count(c, k)
    decreases k
  {
    if j < k { CountMono(c, j, k - 1); } else if k > 0 { CountMono(c, j - 1, k - 1); }
  }

  /** With nothing below length max, the space is the number of words. */
  lemma {:induction false} OnlyLongest(c: seq<int>, k: nat, m: nat)
    requires k < |c| && k <= m && forall i :: 1 <= i <= k ==> c[i] == 0
    ensures Count(c, k) == 0 && Space(c, k, m) == 0
  {
    if k > 0 { OnlyLongest(c, k - 1, m); assert 0 * Pow2(m - k) == 0; }
  }

  lemma Folded(c: seq<int>, max: nat)
    requires |c| == 33 && 1 <= max <= 16 && Natural(c) && Space(c, 32, 32) == Pow2(32)
    ensures var s := Count(c, 32) - Count(c, max); var excess := Space(c, max, max) + s - Pow2(max);
      0 <= s && 0 <= excess && (excess > 0 ==> excess < s)
  {
    hide *;
    LongWords(c, max, 32);
    Remainder(c, max);
    Gap(Pow2(max) - Space(c, max, max), Count(c, 32) - Count(c, max), Pow2(32) - Space(c, max, 32), Pow2(32 - max));
  }

  lemma Remainder(c: seq<int>, max: nat)
    requires |c| == 33 && max <= 32
    ensures Pow2(32) - Space(c, max, 32) == (Pow2(max) - Space(c, max, max)) * Pow2(32 - max)
  {
    SpaceScale(c, max, max, 32 - max);
    Pow2Add(32 - max, max);
    RemainderTerm(Pow2(32 - max), Pow2(max), Space(c, max, max));
  }

  lemma RemainderTerm(p: int, q: int, x: int)
    ensures p * q - p * x == (q - x) * p
  {
  }

  lemma Gap(g: int, s: int, t: int, p: nat)
    requires p >= 1 && 0 <= s <= t == g * p && 2 * t <= s * p
    ensures 0 <= 2 * g <= s && (g == 0 ==> s == 0)
  {
    if g < 0 { MulMono(g, -1, p); assert false; }
    if 2 * g > s {
      MulMono(s + 1, 2 * g, p);
      MulDistr(s, 1, p);
      MulDistr(g, g, p);
      assert false;
    }
  }

  /** One step of the limiter: a word of length i gives way to two of length i + 1, one of them taken from the
    * longest. */
  ghost function Shift(c: seq<int>, i: nat, max: nat): seq<int>
    requires 1 <= i < max < |c|
  {
    var d := c[max := c[max] - 1];
    var e := d[i := d[i] - 1];
    e[i + 1 := e[i + 1] + 2]
  }

  lemma ShiftKeeps(c: seq<int>, i: nat, max: nat)
    requires 1 <= i < max < |c|
    ensures Count(Shift(c, i, max), max) == Count(c, max)
    ensures Space(Shift(c, i, max), max, max) == Space(c, max, max) - 1
  {
    var d := c[max := c[max] - 1];
    var e := d[i := d[i] - 1];
    UpdateCount(c, max, c[max] - 1, max, max);
    UpdateCount(d, i, d[i] - 1, max, max);
    UpdateCount(e, i + 1, e[i + 1] + 2, max, max);
    assert Pow2(max - i) == 2 * Pow2(max - (i + 1));
  }

  /** The too long words join the longest allowed length, and words move there one at a time until the code space is
    * used up exactly. The counts past the limit are left as they were. */
  method EnforceMaxCodeSize(num: array<int>, codeListLen: int, max: nat)
    requires num.Length == MAX_HUFF_CODESIZE + 1 && 1 <= max <= 16 && Natural(num[..])
    requires codeListLen > 1 ==>
      Count(num[..], 32) == codeListLen <= Pow2(max) && Space(num[..], 32, 32) == Pow2(32)
    modifies num
    ensures codeListLen <= 1 ==> num[..] == old(num[..])
    ensures codeListLen > 1 ==>
      && Natural(num[..])
      && Count(num[..], max) == codeListLen
      && Space(num[..], max, max) == Pow2(max)
    ensures forall i :: max < i <= 32 ==> num[i] == old(num[i])
    ensures (forall i :: max < i <= 32 ==> old(num[i]) == 0) ==> num[..] == old(num[..])
  {
    if codeListLen <= 1 { return; }
    hide *;
    var total := FoldAndTotal(num, codeListLen, max);
    TakeExcess(num, max, codeListLen, total);
  }

  /** The lengths past the limit are folded into it; the total does not wrap around. */
  method FoldAndTotal(num: array<int>, n: nat, max: nat) returns (total: int)
    requires num.Length == 33 && 1 <= max <= 16 && Natural(num[..])
    requires Count(num[..], 32) == n <= Pow2(max) && Space(num[..], 32, 32) == Pow2(32)
    modifies num
    ensures Natural(num[..]) && Count(num[..], max) == n
    ensures 0x1_0000_0000 > total == Space(num[..], max, max) >= Pow2(max)
    ensures total > Pow2(max) ==> num[max] > total - Pow2(max)
    ensures forall i :: max < i <= 32 ==> num[i] == old(num[i])
    ensures (forall i :: max < i <= 32 ==> old(num[i]) == 0) ==> num[..] == old(num[..]) && total == Pow2(max)
  {
    hide Count, Space, Pow2;
    ghost var c := num[..];
    Folded(c, max);
    FoldLong(num, max);
    FoldedCounts(c, num[..], max);
    NothingLong(c, max, 32);
    total := TotalSpace(num, max);
    TotalSmall(num[..], n, max);
  }

  /** The loop: each round takes one off the excess, and the longest bucket always has more words than that. */
  method TakeExcess(num: array<int>, max: nat, n: int, excessive: int)
    requires num.Length == 33 && 1 <= max <= 16 && Natural(num[..]) && Count(num[..], max) == n <= Pow2(max)
    requires excessive == Space(num[..], max, max) >= Pow2(max)
    requires excessive > Pow2(max) ==> num[max] > excessive - Pow2(max)
    modifies num
    ensures Natural(num[..]) && Count(num[..], max) == n && Space(num[..], max, max) == Pow2(max)
    ensures forall i :: max < i <= 32 ==> num[i] == old(num[i])
    ensures excessive == Pow2(max) ==> num[..] == old(num[..])
  {
    hide *;
    var total := excessive;
    while total != Pow2(max)
      invariant Natural(num[..]) && Count(num[..], max) == n
      invariant total == Space(num[..], max, max) >= Pow2(max)
      invariant total > Pow2(max) ==> num[max] > total - Pow2(max)
      invariant forall i :: max < i <= 32 ==> num[i] == old(num[i])
      invariant excessive == Pow2(max) ==> num[..] == old(num[..])
      decreases total - Pow2(max)
    {
      ShiftOne(num, max, n);
      total := total - 1;
    }
  }

  lemma TotalSmall(c: seq<int>, n: nat, max: nat)
    requires |c| == 33 && Natural(c) && 1 <= max <= 16 && Count(c, max) == n <= Pow2(max)
    ensures Space(c, max, max) < 0x1_0000_0000
  {
    TotalFits(c, max, max);
    Pow2Mono(max, 16);
    Pow2Mono(max - 1, 15);
    Pow2Values();
    MulMono(n, 0x1_0000, Pow2(max - 1));
  }

  lemma FoldedCounts(c: seq<int>, d: seq<int>, max: nat)
    requires |c| == 33 && 1 <= max <= 32 && d == c[max := c[max] + Count(c, 32) - Count(c, max)]
    ensures Count(d, max) == Count(c, 32)
    ensures Space(d, max, max) == Space(c, max, max) + Count(c, 32) - Count(c, max)
  {
    UpdateCount(c, max, d[max], max, max);
    assert Pow2(0) == 1;
  }

  lemma {:induction false} NothingLong(c: seq<int>, max: nat, k: nat)
    requires |c| == 33 && max <= k <= 32
    ensures (forall i :: max < i <= k ==> c[i] == 0) ==> Count(c, k) == Count(c, max)
    ensures (forall i :: max < i <= k ==> c[i] == 0) ==> Space(c, k, 32) == Space(c, max, 32)
    decreases k
  {
    if k > max { NothingLong(c, max, k - 1); assert 0 * Pow2(32 - k) == 0; }
  }

  /** The 32-bit running total cannot wrap: n words of at least one bit take at most n halves of the space. */
  lemma {:induction false} TotalFits(c: seq<int>, k: nat, m: nat)
    requires Natural(c) && k < |c| && 1 <= m && k <= m
    ensures Space(c, k, m) <= Count(c, k) * Pow2(m - 1)
  {
    if k > 0 {
      TotalFits(c, k - 1, m);
      Pow2Mono(m - k, m - 1);
      MulMono(Pow2(m - k), Pow2(m - 1), c[k]);
      MulDistr(Count(c, k - 1), c[k], Pow2(m - 1));
    } else {
      assert 0 * Pow2(m - 1) == 0;
    }
  }

  method FoldLong(num: array<int>, max: nat)
    requires num.Length == 33 && max <= 32
    modifies num
    ensures num[..] == old(num[..])[max := old(num[max]) + Count(old(num[..]), 32) - Count(old(num[..]), max)]
  {
    ghost var c := num[..];
    for i := max + 1 to MAX_HUFF_CODESIZE + 1
      invariant num[..] == c[max := c[max] + Count(c, i - 1) - Count(c, max)]
    {
      num[max] := num[max] + num[i];
    }
  }

  method TotalSpace(num: array<int>, max: nat) returns (total: int)
    requires num.Length == 33 && max <= 16
    ensures total == Space(num[..], max, max)
  {
    total := 0;
    var i := max;
    while i > 0
      invariant 0 <= i <= max
      invariant total + Space(num[..], i, max) == Space(num[..], max, max)
    {
      total := total + num[i] * Pow2(max - i);
      i := i - 1;
    }
  }

  /** One round of the limiter loop. */
  method ShiftOne(num: array<int>, max: nat, n: int)
    requires num.Length == 33 && 1 <= max <= 16 && Natural(num[..]) && num[max] >= 1
    requires Count(num[..], max) == n <= Pow2(max) < Space(num[..], max, max)
    modifies num
    ensures Natural(num[..]) && Count(num[..], max) == n
    ensures Space(num[..], max, max) == Space(old(num[..]), max, max) - 1
    ensures num[max] >= old(num[max]) - 1
    ensures forall i :: max < i <= 32 ==> num[i] == old(num[i])
  {
    ghost var c := num[..];
    num[max] := num[max] - 1;
    var i := max - 1;
    while i > 0
      invariant 0 <= i < max && num[..] == c[max := c[max] - 1]
      invariant forall j :: i < j < max ==> c[j] == 0
    {
      if num[i] != 0 {
        num[i] := num[i] - 1;
        num[i + 1] := num[i + 1] + 2;
        assert num[..] == Shift(c, i, max);
        ShiftKeeps(c, i, max);
        return;
      }
      i := i - 1;
    }
    assert Pow2(0) == 1 && num[..][max] == c[max] - 1;
    OnlyLongest(c, max - 1, max);
    assert false;
  }
}
