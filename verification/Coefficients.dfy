/** Coefficient values: categories and amplitudes, their extension on the decoding side, and the zig-zag order. */
module Coefficients {
  import opened Bits

  function Abs(v: int): nat {
    if v < 0 then -v else v
  }

  /** The number of bits of a magnitude: the category of section F.1.2.1 of ITU-T T.81. */
  function BitLen(a: nat): nat {
    if a == 0 then 0 else 1 + BitLen(a / 2)
  }

  /** The low bits that tell the values of one category apart: the value itself, or the value less one if negative,
    * modulo the category's power of two. */
  function Amplitude(v: int): (x: nat)
  {
    (if v < 0 then v - 1 else v) % Pow2(BitLen(Abs(v)))
  }

  lemma {:induction false} BitLenRange(a: nat)
    requires a > 0
    ensures BitLen(a) >= 1 && Pow2(BitLen(a) - 1) <= a < Pow2(BitLen(a))
  {
    if a > 1 { BitLenRange(a / 2); }
  }

  lemma {:induction false} BitLenUnique(a: nat, n: nat)
    requires n >= 1 && Pow2(n - 1) <= a < Pow2(n)
    ensures BitLen(a) == n
  {
    if n > 1 { BitLenUnique(a / 2, n - 1); }
  }

  /** tjei_calculate_variable_length_int() */
  method VariableLengthInt(value: int) returns (bits: nat, num: nat)
    requires -0x8000_0000 < value < 0x8000_0000
    ensures num == if value == 0 then 1 else BitLen(Abs(value))
    ensures bits == if value == 0 then 0 else Amplitude(value) % 0x1_0000
  {
    var v, absVal := value, value;
    if value < 0 {
      absVal := -absVal;
      v := v - 1;
    }
    num := 1;
    absVal := absVal / 2;
    while absVal != 0
      invariant absVal >= 0 && num >= 1
      invariant value != 0 ==> num + BitLen(absVal) == BitLen(Abs(value))
      invariant value == 0 ==> num == 1 && absVal == 0
      decreases absVal
    {
      num := num + 1;
      absVal := absVal / 2;
    }
    bits := v % Pow2(num) % 0x1_0000;
    if value == 0 { ZeroMod(Pow2(num)); }
  }

  lemma ZeroMod(d: nat)
    requires d > 0
    ensures 0 % d == 0
  {
  }

  // ----- Extension -----

  const S_EXTEND_TEST: seq<int> :=
    [0, 0x0001, 0x0002, 0x0004, 0x0008, 0x0010, 0x0020, 0x0040, 0x0080, 0x0100, 0x0200, 0x0400, 0x0800, 0x1000,
     0x2000, 0x4000]

  const S_EXTEND_OFFSET: seq<int> :=
    [0, -1, -3, -7, -15, -31, -63, -127, -255, -511, -1023, -2047, -4095, -8191, -16383, -32767]

  /** JPGD_HUFF_EXTEND */
  function Extend(x: int, s: nat): int {
    if x < S_EXTEND_TEST[s % 16] then x + S_EXTEND_OFFSET[s % 16] else x
  }

  lemma ExtendTables(s: nat)
    requires 1 <= s <= 15
    ensures S_EXTEND_TEST[s] == Pow2(s - 1) && S_EXTEND_OFFSET[s] == 1 - Pow2(s)
  {
    Pow2Values();
    assert Pow2(13) == 0x2000 && Pow2(14) == 0x4000;
  }

  lemma ExtendIs(x: int, s: nat)
    requires 1 <= s <= 15
    ensures Extend(x, s) == if x < Pow2(s - 1) then x + 1 - Pow2(s) else x
  {
    ExtendTables(s);
  }

  lemma AmplitudeIs(v: int)
    requires v != 0
    ensures var n := BitLen(Abs(v));
      n >= 1 && Amplitude(v) == (if v < 0 then v - 1 + Pow2(n) else v) && Amplitude(v) < Pow2(n)
      && (v < 0 <==> Amplitude(v) < Pow2(n - 1))
  {
    BitLenRange(Abs(v));
    var n := BitLen(Abs(v));
    assert Pow2(n) == 2 * Pow2(n - 1);
    if v < 0 { WrapMod(v - 1, Pow2(n)); } else { DivMod(0, v, Pow2(n)); }
  }

  lemma WrapMod(x: int, d: nat)
    requires d > 0 && x < 0 <= x + d
    ensures x % d == x + d
  {
    var q := x / d;
    if q >= 0 { MulMono(0, q, d); assert false; }
    if q <= -2 { MulMono(q, -2, d); assert false; }
  }

  /** The decoder's extension inverts the encoder's category and amplitude. */
  lemma ExtendInverts(v: int)
    requires v != 0 && BitLen(Abs(v)) <= 15
    ensures Extend(Amplitude(v), BitLen(Abs(v))) == v
  {
    hide *;
    AmplitudeIs(v);
    ExtendIs(Amplitude(v), BitLen(Abs(v)));
  }

  lemma ExtendOnto(x: nat, s: nat)
    requires 1 <= s <= 15 && x < Pow2(s)
    ensures var v := Extend(x, s); v != 0 && BitLen(Abs(v)) == s && Amplitude(v) == x
  {
    ExtendIs(x, s);
    hide Extend, Amplitude;
    var v := Extend(x, s);
    assert Pow2(s) == 2 * Pow2(s - 1);
    BitLenUnique(Abs(v), s);
    AmplitudeIs(v);
  }

  /** The conversion to jpgd_block_coeff_t, a 16-bit integer. */
  function Int16(x: int): (y: int)
    ensures -0x8000 <= y < 0x8000 && (x - y) % 0x1_0000 == 0
    ensures -0x8000 <= x < 0x8000 ==> y == x
  {
    (x + 0x8000) % 0x1_0000 - 0x8000
  }

  // ----- Zig-zag order -----

  /** Where the k-th coefficient of the zig-zag order lies in the block. */
  const G_ZAG: seq<nat> :=
    [0, 1, 8, 16, 9, 2, 3, 10] +
    [17, 24, 32, 25, 18, 11, 4, 5] +
    [12, 19, 26, 33, 40, 48, 41, 34] +
    [27, 20, 13, 6, 7, 14, 21, 28] +
    [35, 42, 49, 56, 57, 50, 43, 36] +
    [29, 22, 15, 23, 30, 37, 44, 51] +
    [58, 59, 52, 45, 38, 31, 39, 46] +
    [53, 60, 61, 54, 47, 55, 62, 63]

  /** Where a coefficient of the block comes in the zig-zag order. */
  const TJEI_ZIG_ZAG: seq<nat> :=
    [0, 1, 5, 6, 14, 15, 27, 28] +
    [2, 4, 7, 13, 16, 26, 29, 42] +
    [3, 8, 12, 17, 25, 30, 41, 43] +
    [9, 11, 18, 24, 31, 40, 44, 53] +
    [10, 19, 23, 32, 39, 45, 52, 54] +
    [20, 22, 33, 38, 46, 51, 55, 60] +
    [21, 34, 37, 47, 50, 56, 59, 61] +
    [35, 36, 48, 49, 57, 58, 62, 63]

  /** The next place on the way along the diagonals, up to the right and down to the left by turns; it turns at the
    * edges of the block. */
  function NextPlace(z: nat): nat {
    if (z / 8 + z % 8) % 2 == 0 then if z % 8 == 7 then z + 8 else if z < 8 then z + 1 else z - 7
    else if z >= 56 then z + 1 else if z % 8 == 0 then z + 8 else z + 7
  }

  /** Place k of the table comes after place k - 1. */
  predicate Follows(k: nat)
    requires 1 <= k < 64
  {
    G_ZAG[k] == NextPlace(G_ZAG[k - 1])
  }

  lemma Walk0()
    ensures Follows(1) && Follows(2) && Follows(3) && Follows(4) && Follows(5) && Follows(6) && Follows(7)
  {
  }

  lemma Walk8()
    ensures Follows(8) && Follows(9) && Follows(10) && Follows(11)
    ensures Follows(12) && Follows(13) && Follows(14) && Follows(15)
  {
  }

  lemma Walk16()
    ensures Follows(16) && Follows(17) && Follows(18) && Follows(19)
    ensures Follows(20) && Follows(21) && Follows(22) && Follows(23)
  {
  }

  lemma Walk24()
    ensures Follows(24) && Follows(25) && Follows(26) && Follows(27)
    ensures Follows(28) && Follows(29) && Follows(30) && Follows(31)
  {
  }

  lemma Walk32()
    ensures Follows(32) && Follows(33) && Follows(34) && Follows(35)
    ensures Follows(36) && Follows(37) && Follows(38) && Follows(39)
  {
  }

  lemma Walk40()
    ensures Follows(40) && Follows(41) && Follows(42) && Follows(43)
    ensures Follows(44) && Follows(45) && Follows(46) && Follows(47)
  {
  }

  lemma Walk48()
    ensures Follows(48) && Follows(49) && Follows(50) && Follows(51)
    ensures Follows(52) && Follows(53) && Follows(54) && Follows(55)
  {
  }

  lemma Walk56()
    ensures Follows(56) && Follows(57) && Follows(58) && Follows(59)
    ensures Follows(60) && Follows(61) && Follows(62) && Follows(63)
  {
  }

  lemma AllFollow()
    ensures forall k :: 1 <= k < 64 ==> Follows(k)
  {
    hide *;
    Walk0();
    Walk8();
    Walk16();
    Walk24();
    Walk32();
    Walk40();
    Walk48();
    Walk56();
  }

  /** The table is the zig-zag order of figure 5 of ITU-T T.81. */
  lemma ZigZagWalk(k: nat)
    requires k < 64
    ensures |G_ZAG| == 64 && G_ZAG[0] == 0 && (k > 0 ==> G_ZAG[k] == NextPlace(G_ZAG[k - 1]))
  {
    AllFollow();
    assert |G_ZAG| == 64 && G_ZAG[0] == 0;
    hide G_ZAG, NextPlace;
    if k > 0 { assert Follows(k); }
  }

  predicate InverseBelow(n: nat)
    requires n <= 64
  {
    n == 0 || (InverseBelow(n - 1) && G_ZAG[n - 1] < 64 && TJEI_ZIG_ZAG[n - 1] < 64
      && TJEI_ZIG_ZAG[G_ZAG[n - 1]] == n - 1 && G_ZAG[TJEI_ZIG_ZAG[n - 1]] == n - 1)
  }

  lemma {:induction false} InverseAt(n: nat, k: nat)
    requires k < n <= 64 && InverseBelow(n)
    ensures G_ZAG[k] < 64 && TJEI_ZIG_ZAG[k] < 64 && TJEI_ZIG_ZAG[G_ZAG[k]] == k && G_ZAG[TJEI_ZIG_ZAG[k]] == k
  {
    if k < n - 1 { InverseAt(n - 1, k); }
  }

  /** The two libraries' tables are inverse permutations of each other. */
  lemma ZigZagInverse()
    ensures |G_ZAG| == |TJEI_ZIG_ZAG| == 64
    ensures forall k :: 0 <= k < 64 ==> G_ZAG[k] < 64 && TJEI_ZIG_ZAG[k] < 64
    ensures forall k :: 0 <= k < 64 ==> TJEI_ZIG_ZAG[G_ZAG[k]] == k && G_ZAG[TJEI_ZIG_ZAG[k]] == k
  {
    assert InverseBelow(4);
    assert InverseBelow(8);
    assert InverseBelow(12);
    assert InverseBelow(16);
    assert InverseBelow(20);
    assert InverseBelow(24);
    assert InverseBelow(28);
    assert InverseBelow(32);
    assert InverseBelow(36);
    assert InverseBelow(40);
    assert InverseBelow(44);
    assert InverseBelow(48);
    assert InverseBelow(52);
    assert InverseBelow(56);
    assert InverseBelow(60);
    assert InverseBelow(64);
    forall k | 0 <= k < 64
      ensures G_ZAG[k] < 64 && TJEI_ZIG_ZAG[k] < 64 && TJEI_ZIG_ZAG[G_ZAG[k]] == k && G_ZAG[TJEI_ZIG_ZAG[k]] == k
    {
      InverseAt(64, k);
    }
  }
}
