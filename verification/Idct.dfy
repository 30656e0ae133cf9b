/** jpgd's inverse DCT, which skips the rows and columns that the zig-zag bound says are zero. */
module Idct {
  import Bits
  import opened Coefficients
  import opened BlockEncoder
  import opened BlockDecoder

  // ----- The full transform -----

  /** Output j of the one-dimensional transform, as a sum of inputs times integers: what the butterfly's constants come
    * to. */
  function Basis(j: nat, x: seq<int>): int
    requires |x| == 8
  {
    match j
    case 0 =>
      8192 * x[0] + 11363 * x[1] + 10703 * x[2] + 9633 * x[3] + 8192 * x[4] + 6437 * x[5] + 4433 * x[6] + 2260 * x[7]
    case 1 =>
      8192 * x[0] + 9633 * x[1] + 4433 * x[2] - 2259 * x[3] - 8192 * x[4] - 11362 * x[5] - 10704 * x[6] - 6436 * x[7]
    case 2 =>
      8192 * x[0] + 6437 * x[1] - 4433 * x[2] - 11362 * x[3] - 8192 * x[4] + 2261 * x[5] + 10704 * x[6] + 9633 * x[7]
    case 3 =>
      8192 * x[0] + 2260 * x[1] - 10703 * x[2] - 6436 * x[3] + 8192 * x[4] + 9633 * x[5] - 4433 * x[6] - 11363 * x[7]
    case 4 =>
      8192 * x[0] - 2260 * x[1] - 10703 * x[2] + 6436 * x[3] + 8192 * x[4] - 9633 * x[5] - 4433 * x[6] + 11363 * x[7]
    case 5 =>
      8192 * x[0] - 6437 * x[1] - 4433 * x[2] + 11362 * x[3] - 8192 * x[4] - 2261 * x[5] + 10704 * x[6] - 9633 * x[7]
    case 6 =>
      8192 * x[0] - 9633 * x[1] + 4433 * x[2] + 2259 * x[3] - 8192 * x[4] + 11362 * x[5] - 10704 * x[6] + 6436 * x[7]
    case _ =>
      8192 * x[0] - 11363 * x[1] + 10703 * x[2] - 9633 * x[3] + 8192 * x[4] - 6437 * x[5] + 4433 * x[6] - 2260 * x[7]
  }

  function Descale(x: int, n: nat): int {
    (x + Bits.Pow2(n) / 2) / Bits.Pow2(n)
  }

  function DescaleZeroShift(x: int, n: nat): int {
    (x + 128 * Bits.Pow2(n) + Bits.Pow2(n) / 2) / Bits.Pow2(n)
  }

  function Clamp(i: int): (c: int)
    ensures 0 <= c < 256
  {
    if i < 0 then 0 else if i > 255 then 255 else i
  }

  /** A transformed row, with two extra bits of precision. */
  function RowPass(x: seq<int>): (y: seq<int>)
    requires |x| == 8
    ensures |y| == 8
  {
    seq(8, j requires 0 <= j < 8 => Descale(Basis(j, x), 11))
  }

  /** The samples of a column. */
  function ColPass(x: seq<int>): (y: seq<int>)
    requires |x| == 8
    ensures |y| == 8
  {
    seq(8, j requires 0 <= j < 8 => Clamp(DescaleZeroShift(Basis(j, x), 18)))
  }

  function RowOf(block: seq<int>, i: nat): (x: seq<int>)
    requires |block| == 64 && i < 8
    ensures |x| == 8
  {
    block[8 * i..8 * i + 8]
  }

  /** Column c of the transformed rows. */
  function ColumnOf(block: seq<int>, c: nat): (x: seq<int>)
    requires |block| == 64 && c < 8
    ensures |x| == 8
  {
    seq(8, i requires 0 <= i < 8 => RowPass(RowOf(block, i))[c])
  }

  /** The full 8x8 inverse transform of a block: all rows, then all columns. */
  function FullIdct(block: seq<int>): (samples: seq<int>)
    requires |block| == 64
    ensures |samples| == 64
  {
    seq(64, n requires 0 <= n < 64 => ColPass(ColumnOf(block, n % 8))[n / 8])
  }

  // ----- What the transform comes to -----

  /** y is the integer nearest to x / d; halfway it is the greater one. */
  ghost predicate Nearest(y: int, x: int, d: int) {
    -d < 2 * (d * y - x) <= d
  }

  /** s is the number from 0 to 255 nearest to v. */
  ghost predicate Saturated(s: int, v: int) {
    (v < 0 ==> s == 0) && (0 <= v <= 255 ==> s == v) && (v > 255 ==> s == 255)
  }

  /** Output j of row i, to two extra bits of precision. */
  ghost predicate RowEntry(block: seq<int>, temp: seq<int>, i: nat, j: nat)
    requires |block| == |temp| == 64 && i < 8 && j < 8
  {
    Nearest(temp[8 * i + j], Basis(j, block[8 * i..8 * i + 8]), 0x800)
  }

  /** The elements of column c. */
  function Column(temp: seq<int>, c: nat): (x: seq<int>)
    requires |temp| == 64 && c < 8
    ensures |x| == 8
  {
    [temp[c], temp[8 + c], temp[16 + c], temp[24 + c], temp[32 + c], temp[40 + c], temp[48 + c], temp[56 + c]]
  }

  /** Sample j of column c: the sum over the column, rounded, moved up by 128 and saturated. */
  ghost predicate ColumnEntry(temp: seq<int>, samples: seq<int>, j: nat, c: nat)
    requires |temp| == |samples| == 64 && j < 8 && c < 8
  {
    exists v :: Nearest(v, Basis(j, Column(temp, c)), 0x4_0000) && Saturated(samples[8 * j + c], v + 128)
  }

  /** temp is the block after the first pass, and the samples are what the second pass makes of it. */
  ghost predicate TwoPasses(block: seq<int>, temp: seq<int>, samples: seq<int>) {
    && |block| == |temp| == |samples| == 64
    && (forall i, j :: 0 <= i < 8 && 0 <= j < 8 ==> RowEntry(block, temp, i, j))
    && (forall j, c :: 0 <= j < 8 && 0 <= c < 8 ==> ColumnEntry(temp, samples, j, c))
  }

  /** The samples are the inverse transform of the block, rounded after each pass. */
  ghost predicate IsIdct(block: seq<int>, samples: seq<int>) {
    exists temp :: TwoPasses(block, temp, samples)
  }

  lemma DescaleNearest(x: int)
    ensures Nearest(Descale(x, 11), x, 0x800)
    ensures exists v :: Nearest(v, x, 0x4_0000) && Saturated(Clamp(DescaleZeroShift(x, 18)), v + 128)
  {
    Bits.Pow2Values();
    assert Bits.Pow2(18) == 0x4_0000;
    assert Nearest(DescaleZeroShift(x, 18) - 128, x, 0x4_0000);
  }

  /** The transformed rows of a block. */
  function FirstPass(block: seq<int>): (temp: seq<int>)
    requires |block| == 64
    ensures |temp| == 64
  {
    seq(64, n requires 0 <= n < 64 => RowPass(RowOf(block, n / 8))[n % 8])
  }

  lemma RowEntries(block: seq<int>, i: nat, j: nat)
    requires |block| == 64 && i < 8 && j < 8
    ensures RowEntry(block, FirstPass(block), i, j)
  {
    hide Basis, Descale, Nearest;
    DescaleNearest(Basis(j, RowOf(block, i)));
  }

  lemma ColumnEntries(block: seq<int>, j: nat, c: nat)
    requires |block| == 64 && j < 8 && c < 8
    ensures ColumnEntry(FirstPass(block), FullIdct(block), j, c)
  {
    hide Basis, RowPass, RowOf, DescaleZeroShift, Clamp, Nearest, Saturated;
    var temp := FirstPass(block);
    assert ColumnOf(block, c) == Column(temp, c);
    DescaleNearest(Basis(j, ColumnOf(block, c)));
  }

  lemma FullIsIdct(block: seq<int>)
    requires |block| == 64
    ensures IsIdct(block, FullIdct(block))
  {
    hide RowEntry, ColumnEntry, FirstPass, FullIdct;
    forall i, j | 0 <= i < 8 && 0 <= j < 8 ensures RowEntry(block, FirstPass(block), i, j) {
      RowEntries(block, i, j);
    }
    forall j, c | 0 <= j < 8 && 0 <= c < 8 ensures ColumnEntry(FirstPass(block), FullIdct(block), j, c) {
      ColumnEntries(block, j, c);
    }
    assert TwoPasses(block, FirstPass(block), FullIdct(block));
  }

  // ----- The fast one-dimensional transform -----

  const FIX_0_298631336 := 2446
  const FIX_0_390180644 := 3196
  const FIX_0_541196100 := 4433
  const FIX_0_765366865 := 6270
  const FIX_0_899976223 := 7373
  const FIX_1_175875602 := 9633
  const FIX_1_501321110 := 12299
  const FIX_1_847759065 := 15137
  const FIX_1_961570560 := 16069
  const FIX_2_053119869 := 16819
  const FIX_2_562915447 := 20995
  const FIX_3_072711026 := 25172

  /** The butterfly that Row and Col share: 12 multiplications instead of 64. */
  method Butterfly(x: seq<int>) returns (y: seq<int>)
    requires |x| == 8
    ensures |y| == 8 && forall j :: 0 <= j < 8 ==> y[j] == Basis(j, x)
  {
    var z2, z3 := x[2], x[6];
    var z1 := (z2 + z3) * FIX_0_541196100;
    var tmp2 := z1 + z3 * -FIX_1_847759065;
    var tmp3 := z1 + z2 * FIX_0_765366865;
    var tmp0 := (x[0] + x[4]) * 0x2000;
    var tmp1 := (x[0] - x[4]) * 0x2000;
    var tmp10, tmp13, tmp11, tmp12 := tmp0 + tmp3, tmp0 - tmp3, tmp1 + tmp2, tmp1 - tmp2;
    var atmp0, atmp1, atmp2, atmp3 := x[7], x[5], x[3], x[1];
    var bz1, bz2, bz3, bz4 := atmp0 + atmp3, atmp1 + atmp2, atmp0 + atmp2, atmp1 + atmp3;
    var bz5 := (bz3 + bz4) * FIX_1_175875602;
    var az1 := bz1 * -FIX_0_899976223;
    var az2 := bz2 * -FIX_2_562915447;
    var az3 := bz3 * -FIX_1_961570560 + bz5;
    var az4 := bz4 * -FIX_0_390180644 + bz5;
    var btmp0 := atmp0 * FIX_0_298631336 + az1 + az3;
    var btmp1 := atmp1 * FIX_2_053119869 + az2 + az4;
    var btmp2 := atmp2 * FIX_3_072711026 + az2 + az3;
    var btmp3 := atmp3 * FIX_1_501321110 + az1 + az4;
    y := [tmp10 + btmp3, tmp11 + btmp2, tmp12 + btmp1, tmp13 + btmp0, tmp13 - btmp0, tmp12 - btmp1, tmp11 - btmp2,
          tmp10 - btmp3];
  }

  // ----- The tables -----

  /** For each zig-zag bound from 1 to 64, how many columns of each row can be nonzero. */
  const S_IDCT_ROW_TABLE: seq<seq<nat>> :=
    [[1,0,0,0,0,0,0,0], [2,0,0,0,0,0,0,0], [2,1,0,0,0,0,0,0], [2,1,1,0,0,0,0,0],
     [2,2,1,0,0,0,0,0], [3,2,1,0,0,0,0,0], [4,2,1,0,0,0,0,0], [4,3,1,0,0,0,0,0]] +
    [[4,3,2,0,0,0,0,0], [4,3,2,1,0,0,0,0], [4,3,2,1,1,0,0,0], [4,3,2,2,1,0,0,0],
     [4,3,3,2,1,0,0,0], [4,4,3,2,1,0,0,0], [5,4,3,2,1,0,0,0], [6,4,3,2,1,0,0,0]] +
    [[6,5,3,2,1,0,0,0], [6,5,4,2,1,0,0,0], [6,5,4,3,1,0,0,0], [6,5,4,3,2,0,0,0],
     [6,5,4,3,2,1,0,0], [6,5,4,3,2,1,1,0], [6,5,4,3,2,2,1,0], [6,5,4,3,3,2,1,0]] +
    [[6,5,4,4,3,2,1,0], [6,5,5,4,3,2,1,0], [6,6,5,4,3,2,1,0], [7,6,5,4,3,2,1,0],
     [8,6,5,4,3,2,1,0], [8,7,5,4,3,2,1,0], [8,7,6,4,3,2,1,0], [8,7,6,5,3,2,1,0]] +
    [[8,7,6,5,4,2,1,0], [8,7,6,5,4,3,1,0], [8,7,6,5,4,3,2,0], [8,7,6,5,4,3,2,1],
     [8,7,6,5,4,3,2,2], [8,7,6,5,4,3,3,2], [8,7,6,5,4,4,3,2], [8,7,6,5,5,4,3,2]] +
    [[8,7,6,6,5,4,3,2], [8,7,7,6,5,4,3,2], [8,8,7,6,5,4,3,2], [8,8,8,6,5,4,3,2],
     [8,8,8,7,5,4,3,2], [8,8,8,7,6,4,3,2], [8,8,8,7,6,5,3,2], [8,8,8,7,6,5,4,2]] +
    [[8,8,8,7,6,5,4,3], [8,8,8,7,6,5,4,4], [8,8,8,7,6,5,5,4], [8,8,8,7,6,6,5,4],
     [8,8,8,7,7,6,5,4], [8,8,8,8,7,6,5,4], [8,8,8,8,8,6,5,4], [8,8,8,8,8,7,5,4]] +
    [[8,8,8,8,8,7,6,4], [8,8,8,8,8,7,6,5], [8,8,8,8,8,7,6,6], [8,8,8,8,8,7,7,6],
     [8,8,8,8,8,8,7,6], [8,8,8,8,8,8,8,6], [8,8,8,8,8,8,8,7], [8,8,8,8,8,8,8,8]]

  /** And how many rows can be. */
  const S_IDCT_COL_TABLE: seq<nat> :=
    [1, 1, 2, 3, 3, 3, 3, 3] +
    [3, 4, 5, 5, 5, 5, 5, 5] +
    [5, 5, 5, 5, 6, 7, 7, 7] +
    [7, 7, 7, 7, 7, 7, 7, 7] +
    [7, 7, 7, 8, 8, 8, 8, 8] +
    [8, 8, 8, 8, 8, 8, 8, 8] +
    [8, 8, 8, 8, 8, 8, 8, 8] +
    [8, 8, 8, 8, 8, 8, 8, 8]

  /** Entry n of the tables: it covers the coefficient that the bound n + 1 adds, it covers what entry n - 1 covers, and
    * its rows are those that have columns. */
  predicate TableRow(n: nat)
    requires n < 64
  {
    && |S_IDCT_ROW_TABLE| == |S_IDCT_COL_TABLE| == |G_ZAG| == 64 && G_ZAG[n] < 64
    && |S_IDCT_ROW_TABLE[n]| == 8 && Widths(S_IDCT_ROW_TABLE[n], S_IDCT_COL_TABLE[n])
    && S_IDCT_ROW_TABLE[n][G_ZAG[n] / 8] > G_ZAG[n] % 8
    && (n > 0 ==> |S_IDCT_ROW_TABLE[n - 1]| == 8 && AtLeast(S_IDCT_ROW_TABLE[n], S_IDCT_ROW_TABLE[n - 1]))
  }

  predicate Widths(row: seq<nat>, rows: nat)
    requires |row| == 8
  {
    && row[0] <= 8 && row[1] <= 8 && row[2] <= 8 && row[3] <= 8 && row[4] <= 8 && row[5] <= 8 && row[6] <= 8
    && row[7] <= 8
    && 1 <= rows <= 8
    && (row[0] > 0 <==> 0 < rows) && (row[1] > 0 <==> 1 < rows) && (row[2] > 0 <==> 2 < rows)
      && (row[3] > 0 <==> 3 < rows)
    && (row[4] > 0 <==> 4 < rows) && (row[5] > 0 <==> 5 < rows) && (row[6] > 0 <==> 6 < rows)
      && (row[7] > 0 <==> 7 < rows)
  }

  predicate AtLeast(a: seq<nat>, b: seq<nat>)
    requires |a| == |b| == 8
  {
    && a[0] >= b[0] && a[1] >= b[1] && a[2] >= b[2] && a[3] >= b[3]
    && a[4] >= b[4] && a[5] >= b[5] && a[6] >= b[6] && a[7] >= b[7]
  }

  lemma Tables0()
    ensures TableRow(0) && TableRow(1) && TableRow(2) && TableRow(3)
  {
    assert TableRow(0) && TableRow(1);
  }

  lemma Tables4()
    ensures TableRow(4) && TableRow(5) && TableRow(6) && TableRow(7)
  {
    assert TableRow(4) && TableRow(5);
  }

  lemma Tables8()
    ensures TableRow(8) && TableRow(9) && TableRow(10) && TableRow(11)
  {
    assert TableRow(8) && TableRow(9);
  }

  lemma Tables12()
    ensures TableRow(12) && TableRow(13) && TableRow(14) && TableRow(15)
  {
    assert TableRow(12) && TableRow(13);
  }

  lemma Tables16()
    ensures TableRow(16) && TableRow(17) && TableRow(18) && TableRow(19)
  {
    assert TableRow(16) && TableRow(17);
  }

  lemma Tables20()
    ensures TableRow(20) && TableRow(21) && TableRow(22) && TableRow(23)
  {
    assert TableRow(20) && TableRow(21);
  }

  lemma Tables24()
    ensures TableRow(24) && TableRow(25) && TableRow(26) && TableRow(27)
  {
    assert TableRow(24) && TableRow(25);
  }

  lemma Tables28()
    ensures TableRow(28) && TableRow(29) && TableRow(30) && TableRow(31)
  {
    assert TableRow(28) && TableRow(29);
  }

  lemma Tables32()
    ensures TableRow(32) && TableRow(33) && TableRow(34) && TableRow(35)
  {
    assert TableRow(32) && TableRow(33);
  }

  lemma Tables36()
    ensures TableRow(36) && TableRow(37) && TableRow(38) && TableRow(39)
  {
    assert TableRow(36) && TableRow(37);
  }

  lemma Tables40()
    ensures TableRow(40) && TableRow(41) && TableRow(42) && TableRow(43)
  {
    assert TableRow(40) && TableRow(41);
  }

  lemma Tables44()
    ensures TableRow(44) && TableRow(45) && TableRow(46) && TableRow(47)
  {
    assert TableRow(44) && TableRow(45);
  }

  lemma Tables48()
    ensures TableRow(48) && TableRow(49) && TableRow(50) && TableRow(51)
  {
    assert TableRow(48) && TableRow(49);
  }

  lemma Tables52()
    ensures TableRow(52) && TableRow(53) && TableRow(54) && TableRow(55)
  {
    assert TableRow(52) && TableRow(53);
  }

  lemma Tables56()
    ensures TableRow(56) && TableRow(57) && TableRow(58) && TableRow(59)
  {
    assert TableRow(56) && TableRow(57);
  }

  lemma Tables60()
    ensures TableRow(60) && TableRow(61) && TableRow(62) && TableRow(63)
  {
    assert TableRow(60) && TableRow(61);
  }

  lemma TableQuarter0()
    ensures forall n :: 0 <= n < 16 ==> TableRow(n)
  {
    hide *;
    Tables0();
    Tables4();
    Tables8();
    Tables12();
  }

  lemma TableQuarter16()
    ensures forall n :: 16 <= n < 32 ==> TableRow(n)
  {
    hide *;
    Tables16();
    Tables20();
    Tables24();
    Tables28();
  }

  lemma TableQuarter32()
    ensures forall n :: 32 <= n < 48 ==> TableRow(n)
  {
    hide *;
    Tables32();
    Tables36();
    Tables40();
    Tables44();
  }

  lemma TableQuarter48()
    ensures forall n :: 48 <= n < 64 ==> TableRow(n)
  {
    hide *;
    Tables48();
    Tables52();
    Tables56();
    Tables60();
  }

  lemma TableRows()
    ensures forall n :: 0 <= n < 64 ==> TableRow(n)
  {
    hide *;
    TableQuarter0();
    TableQuarter16();
    TableQuarter32();
    TableQuarter48();
  }

  /** A bound's entry covers every coefficient before the bound. */
  lemma {:induction false} Covers(m: nat, k: nat)
    requires k <= m < 64 && forall n :: 0 <= n < 64 ==> TableRow(n)
    ensures TableRow(m) && TableRow(k) && S_IDCT_ROW_TABLE[m][G_ZAG[k] / 8] > G_ZAG[k] % 8
    decreases m
  {
    assert TableRow(m);
    hide S_IDCT_ROW_TABLE, S_IDCT_COL_TABLE, G_ZAG;
    if k < m { Covers(m - 1, k); }
  }

  /** The coefficients that the table of a bound leaves out are zero. */
  lemma LeftOutZero(block: seq<int>, maxZag: nat, i: nat, c: nat)
    requires |block| == 64 && ZeroFrom(ZigZagged(block), maxZag) && 2 <= maxZag <= 64 && i < 8 && c < 8
    requires |S_IDCT_ROW_TABLE| == 64 && |S_IDCT_ROW_TABLE[maxZag - 1]| == 8 && S_IDCT_ROW_TABLE[maxZag - 1][i] <= c
    ensures RowOf(block, i)[c] == 0
  {
    TableRows();
    ZigZagInverse();
    hide S_IDCT_ROW_TABLE, S_IDCT_COL_TABLE, G_ZAG, TJEI_ZIG_ZAG, TableRow;
    var k := TJEI_ZIG_ZAG[8 * i + c];
    assert G_ZAG[k] == 8 * i + c;
    if k < maxZag { Covers(maxZag - 1, k); assert false; }
    assert ZigZagged(block)[k] == block[G_ZAG[k]];
  }

  // ----- Rows and columns -----

  /** A row or column of which only the first n elements are looked at. */
  function Access(x: seq<int>, n: nat): (y: seq<int>)
    requires |x| == 8
    ensures |y| == 8
  {
    seq(8, i requires 0 <= i < 8 => if i < n then x[i] else 0)
  }

  lemma AccessAll(x: seq<int>, n: nat)
    requires |x| == 8 && forall i :: n <= i < 8 ==> x[i] == 0
    ensures Access(x, n) == x
  {
  }

  lemma DescaleValues(d: int)
    ensures Descale(8192 * d, 11) == 4 * d
    ensures DescaleZeroShift(8192 * d, 18) == DescaleZeroShift(d, 5)
    ensures DescaleZeroShift(4 * d, 5) == (d + 4) / 8 + 128
  {
    Bits.Pow2Values();
    assert Bits.Pow2(18) == 0x4_0000;
  }

  lemma BasisOfFirst(x: seq<int>, j: nat)
    requires |x| == 8 && j < 8 && forall i :: 1 <= i < 8 ==> x[i] == 0
    ensures Basis(j, x) == 8192 * x[0]
  {
  }

  /** The transform of a row whose first element alone is not zero. */
  lemma RowOfFirst(x: seq<int>)
    requires |x| == 8 && forall i :: 1 <= i < 8 ==> x[i] == 0
    ensures forall j :: 0 <= j < 8 ==> RowPass(x)[j] == 4 * x[0]
  {
    hide Basis, Descale;
    forall j | 0 <= j < 8 ensures RowPass(x)[j] == 4 * x[0] {
      BasisOfFirst(x, j);
      DescaleValues(x[0]);
    }
  }

  lemma ColOfFirst(x: seq<int>)
    requires |x| == 8 && forall i :: 1 <= i < 8 ==> x[i] == 0
    ensures forall j :: 0 <= j < 8 ==> ColPass(x)[j] == Clamp(DescaleZeroShift(x[0], 5))
  {
    hide Basis, DescaleZeroShift, Clamp;
    forall j | 0 <= j < 8 ensures ColPass(x)[j] == Clamp(DescaleZeroShift(x[0], 5)) {
      BasisOfFirst(x, j);
      DescaleValues(x[0]);
    }
  }

  /** Row<n>::idct: row i of the block into the temporary block; nothing at all for n = 0. */
  method RowIdct(n: nat, temp: array<int>, block: seq<int>, i: nat)
    requires temp.Length == 64 == |block| && i < 8 && forall c :: n <= c < 8 ==> RowOf(block, i)[c] == 0
    modifies temp
    ensures forall t :: 0 <= t < 64 && !(8 * i <= t < 8 * i + 8) ==> temp[t] == old(temp[t])
    ensures n > 0 ==> temp[8 * i..8 * i + 8] == RowPass(RowOf(block, i))
  {
    hide RowOf, RowPass, Basis, Descale;
    if n == 0 { return; }
    var x := Access(RowOf(block, i), n);
    AccessAll(RowOf(block, i), n);
    var y;
    if n == 1 {
      RowOfFirst(x);
      var dcval := x[0] * 4;
      y := [dcval, dcval, dcval, dcval, dcval, dcval, dcval, dcval];
    } else {
      var b := Butterfly(x);
      y := [Descale(b[0], 11), Descale(b[1], 11), Descale(b[2], 11), Descale(b[3], 11),
            Descale(b[4], 11), Descale(b[5], 11), Descale(b[6], 11), Descale(b[7], 11)];
      RowIs(x, b, y);
    }
    assert y == RowPass(x);
    forall j | 0 <= j < 8 { temp[8 * i + j] := y[j]; }
    assert temp[8 * i..8 * i + 8] == y;
  }

  lemma RowIs(x: seq<int>, b: seq<int>, y: seq<int>)
    requires |x| == |b| == |y| == 8 && forall j :: 0 <= j < 8 ==> b[j] == Basis(j, x)
    requires forall j :: 0 <= j < 8 ==> y[j] == Descale(b[j], 11)
    ensures y == RowPass(x)
  {
    hide Basis, Descale;
  }

  /** Col<n>::idct: column c of the temporary block, of which n rows can be nonzero, into the samples. */
  method ColIdct(n: nat, temp: seq<int>, c: nat, dst: array<int>, at: nat, ghost column: seq<int>)
    requires 1 <= n <= 8 && |temp| == 64 && c < 8 && at + 64 <= dst.Length && |column| == 8
    requires forall i :: 0 <= i < n ==> temp[8 * i + c] == column[i]
    requires forall i :: n <= i < 8 ==> column[i] == 0
    modifies dst
    ensures forall j :: 0 <= j < 8 ==> dst[at + 8 * j + c] == ColPass(column)[j]
    ensures forall t :: 0 <= t < dst.Length && (t < at || t >= at + 64 || (t - at) % 8 != c) ==> dst[t] == old(dst[t])
  {
    hide ColPass, Basis, DescaleZeroShift, Clamp;
    var x := Access([temp[c], temp[8 + c], temp[16 + c], temp[24 + c], temp[32 + c], temp[40 + c], temp[48 + c],
                     temp[56 + c]], n);
    assert x == column;
    var y;
    if n == 1 {
      ColOfFirst(x);
      var dcval := Clamp(DescaleZeroShift(x[0], 5));
      y := [dcval, dcval, dcval, dcval, dcval, dcval, dcval, dcval];
    } else {
      var b := Butterfly(x);
      y := [Clamp(DescaleZeroShift(b[0], 18)), Clamp(DescaleZeroShift(b[1], 18)), Clamp(DescaleZeroShift(b[2], 18)),
            Clamp(DescaleZeroShift(b[3], 18)), Clamp(DescaleZeroShift(b[4], 18)), Clamp(DescaleZeroShift(b[5], 18)),
            Clamp(DescaleZeroShift(b[6], 18)), Clamp(DescaleZeroShift(b[7], 18))];
      ColIs(x, b, y);
    }
    assert y == ColPass(x);
    PutColumn(dst, at + c, y);
  }

  method PutColumn(dst: array<int>, at: nat, y: seq<int>)
    requires |y| == 8 && at + 56 < dst.Length
    modifies dst
    ensures forall j :: 0 <= j < 8 ==> dst[at + 8 * j] == y[j]
    ensures forall t :: 0 <= t < dst.Length && (t < at || t > at + 56 || (t - at) % 8 != 0) ==> dst[t] == old(dst[t])
  {
    for j := 0 to 8
      invariant forall i :: 0 <= i < j ==> dst[at + 8 * i] == y[i]
      invariant forall t :: 0 <= t < dst.Length && (t < at || t > at + 56 || (t - at) % 8 != 0) ==>
          dst[t] == old(dst[t])
    {
      dst[at + 8 * j] := y[j];
    }
  }

  lemma ColIs(x: seq<int>, b: seq<int>, y: seq<int>)
    requires |x| == |b| == |y| == 8 && forall j :: 0 <= j < 8 ==> b[j] == Basis(j, x)
    requires forall j :: 0 <= j < 8 ==> y[j] == Clamp(DescaleZeroShift(b[j], 18))
    ensures y == ColPass(x)
  {
    hide Basis, DescaleZeroShift, Clamp;
  }

  /** Row i of the temporary block is there if the table says that it can be nonzero. */
  ghost predicate RowDone(temp: seq<int>, block: seq<int>, widths: seq<nat>, i: nat) {
    |temp| == |block| == 64 && |widths| == 8 && i < 8
      && (widths[i] > 0 ==> temp[8 * i..8 * i + 8] == RowPass(RowOf(block, i)))
  }

  /** The first pass. */
  method Rows(block: seq<int>, widths: seq<nat>) returns (temp: seq<int>)
    requires |block| == 64 && |widths| == 8
    requires forall i, c :: 0 <= i < 8 && widths[i] <= c < 8 ==> RowOf(block, i)[c] == 0
    ensures |temp| == 64 && forall i :: 0 <= i < 8 ==> RowDone(temp, block, widths, i)
  {
    hide RowOf, RowPass;
    var t := new int[64];
    for i := 0 to 8
      invariant forall k :: 0 <= k < i ==> RowDone(t[..], block, widths, k)
    {
      ghost var was := t[..];
      RowIdct(widths[i], t, block, i);
      forall k | 0 <= k < i ensures RowDone(t[..], block, widths, k) {
        assert RowDone(was, block, widths, k);
        assert t[..][8 * k..8 * k + 8] == was[8 * k..8 * k + 8];
      }
      assert t[..][8 * i..8 * i + 8] == t[8 * i..8 * i + 8];
    }
    temp := t[..];
  }

  /** Column c of the temporary block is that of the full transform. */
  lemma ColumnReady(temp: seq<int>, block: seq<int>, widths: seq<nat>, n: nat, c: nat)
    requires |temp| == |block| == 64 && |widths| == 8 && n <= 8 && c < 8 && Widths(widths, n)
    requires forall i :: 0 <= i < 8 ==> RowDone(temp, block, widths, i)
    requires forall i, c :: 0 <= i < 8 && widths[i] <= c < 8 ==> RowOf(block, i)[c] == 0
    ensures forall i :: 0 <= i < n ==> temp[8 * i + c] == ColumnOf(block, c)[i]
    ensures forall i :: n <= i < 8 ==> ColumnOf(block, c)[i] == 0
  {
    hide RowOf, RowPass;
    WidthsMean(widths, n);
    hide Widths;
    forall i | 0 <= i < n ensures temp[8 * i + c] == ColumnOf(block, c)[i] {
      assert RowDone(temp, block, widths, i);
      assert temp[8 * i..8 * i + 8][c] == temp[8 * i + c];
    }
    forall i | n <= i < 8 ensures ColumnOf(block, c)[i] == 0 {
      RowOfFirst(RowOf(block, i));
    }
  }

  lemma WidthsMean(widths: seq<nat>, n: nat)
    requires |widths| == 8 && Widths(widths, n)
    ensures forall i :: 0 <= i < 8 ==> (widths[i] > 0 <==> i < n)
  {
  }

  /** The samples of the first c columns are in place. */
  ghost predicate ColumnsDone(dst: seq<int>, at: nat, block: seq<int>, c: nat) {
    |block| == 64 && at + 64 <= |dst| && forall n :: 0 <= n < 64 && n % 8 < c ==>
      dst[at..at + 64][n] == FullIdct(block)[n]
  }

  lemma ColumnDone(was: seq<int>, dst: seq<int>, at: nat, block: seq<int>, c: nat)
    requires |was| == |dst| && c < 8 && ColumnsDone(was, at, block, c)
    requires forall j :: 0 <= j < 8 ==> dst[at + 8 * j + c] == ColPass(ColumnOf(block, c))[j]
    requires forall t :: 0 <= t < |dst| && (t < at || t >= at + 64 || (t - at) % 8 != c) ==> dst[t] == was[t]
    ensures ColumnsDone(dst, at, block, c + 1)
  {
    hide ColPass, ColumnOf;
    forall n | 0 <= n < 64 && n % 8 < c + 1 ensures dst[at..at + 64][n] == FullIdct(block)[n] {
      if n % 8 == c {
        assert dst[at + 8 * (n / 8) + c] == ColPass(ColumnOf(block, c))[n / 8];
      } else {
        assert dst[at + n] == was[at + n] == was[at..at + 64][n];
      }
    }
  }

  /** A block of which only the first coefficient is not zero. */
  lemma FlatBlock(block: seq<int>)
    requires |block| == 64 && ZeroFrom(ZigZagged(block), 1)
    ensures forall n :: 0 <= n < 64 ==> FullIdct(block)[n] == Clamp((block[0] + 4) / 8 + 128)
  {
    ZigZagInverse();
    hide G_ZAG, TJEI_ZIG_ZAG, RowPass, ColPass, Clamp, DescaleZeroShift;
    FirstPlace();
    forall t | 1 <= t < 64 ensures block[t] == 0 {
      assert ZigZagged(block)[TJEI_ZIG_ZAG[t]] == block[t];
    }
    forall c | 0 <= c < 8 ensures ColumnOf(block, c)[0] == 4 * block[0] && forall i :: 1 <= i < 8 ==>
        ColumnOf(block, c)[i] == 0 {
      forall i | 0 <= i < 8 ensures ColumnOf(block, c)[i] == 4 * block[8 * i] { RowOfFirst(RowOf(block, i)); }
    }
    DescaleValues(block[0]);
    forall n | 0 <= n < 64 ensures FullIdct(block)[n] == Clamp((block[0] + 4) / 8 + 128) {
      ColOfFirst(ColumnOf(block, n % 8));
    }
  }

  /** idct(): the bound leaves out only zeros, so the samples are those of the full transform. */
  method InverseDct(block: seq<int>, dst: array<int>, at: nat, maxZag: nat)
    requires |block| == 64 && at + 64 <= dst.Length && 1 <= maxZag <= 64 && ZeroFrom(ZigZagged(block), maxZag)
    modifies dst
    ensures dst[at..at + 64] == FullIdct(block) && IsIdct(block, dst[at..at + 64])
    ensures forall t :: 0 <= t < dst.Length && !(at <= t < at + 64) ==> dst[t] == old(dst[t])
  {
    hide *;
    FullIsIdct(block);
    if maxZag <= 1 {
      var k := Clamp((block[0] + 4) / 8 + 128);
      forall t | 0 <= t < 64 { dst[at + t] := k; }
      FlatBlock(block);
      return;
    }
    TableOf(maxZag);
    var widths := S_IDCT_ROW_TABLE[maxZag - 1];
    forall i, c | 0 <= i < 8 && widths[i] <= c < 8 ensures RowOf(block, i)[c] == 0 {
      LeftOutZero(block, maxZag, i, c);
    }
    var temp := Rows(block, widths);
    var nonzeroRows := S_IDCT_COL_TABLE[maxZag - 1];
    Columns(temp, dst, at, nonzeroRows, block, widths);
  }

  lemma TableOf(maxZag: nat)
    requires 1 <= maxZag <= 64
    ensures |S_IDCT_ROW_TABLE| == |S_IDCT_COL_TABLE| == 64 && |S_IDCT_ROW_TABLE[maxZag - 1]| == 8
    ensures 1 <= S_IDCT_COL_TABLE[maxZag - 1] <= 8 && Widths(S_IDCT_ROW_TABLE[maxZag - 1], S_IDCT_COL_TABLE[maxZag - 1])
  {
    TableRows();
    hide S_IDCT_ROW_TABLE, S_IDCT_COL_TABLE, G_ZAG;
    assert TableRow(maxZag - 1);
  }

  /** The second pass. */
  method Columns(temp: seq<int>, dst: array<int>, at: nat, nonzeroRows: nat, ghost block: seq<int>,
                 ghost widths: seq<nat>)
    requires |block| == |temp| == 64 && at + 64 <= dst.Length && 1 <= nonzeroRows <= 8
    requires |widths| == 8 && Widths(widths, nonzeroRows)
    requires forall i :: 0 <= i < 8 ==> RowDone(temp, block, widths, i)
    requires forall i, c :: 0 <= i < 8 && widths[i] <= c < 8 ==> RowOf(block, i)[c] == 0
    modifies dst
    ensures dst[at..at + 64] == FullIdct(block)
    ensures forall t :: 0 <= t < dst.Length && !(at <= t < at + 64) ==> dst[t] == old(dst[t])
  {
    NoColumns(dst[..], at, block);
    hide *;
    for c := 0 to 8
      invariant ColumnsDone(dst[..], at, block, c)
      invariant forall t :: 0 <= t < dst.Length && !(at <= t < at + 64) ==> dst[t] == old(dst[t])
    {
      ghost var was := dst[..];
      ColumnReady(temp, block, widths, nonzeroRows, c);
      ColIdct(nonzeroRows, temp, c, dst, at, ColumnOf(block, c));
      ColumnDone(was, dst[..], at, block, c);
    }
    AllColumns(dst[..], at, block);
    assert dst[..][at..at + 64] == dst[at..at + 64];
  }

  lemma NoColumns(dst: seq<int>, at: nat, block: seq<int>)
    requires |block| == 64 && at + 64 <= |dst|
    ensures ColumnsDone(dst, at, block, 0)
  {
  }

  lemma AllColumns(dst: seq<int>, at: nat, block: seq<int>)
    requires ColumnsDone(dst, at, block, 8) && at + 64 <= |dst| && |block| == 64
    ensures dst[at..at + 64] == FullIdct(block)
  {
    hide FullIdct;
  }
}
