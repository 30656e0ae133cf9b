/** How close the integer transform comes to the inverse cosine transform of section A.3.3 of ITU-T T.81. */
module DctAccuracy {
  import opened Idct

  // ----- The exact transform -----

  /** The cosine of n sixteenths of a half turn, from those of 0 to 8 sixteenths. */
  function Cos(c: seq<real>, n: nat): real
    requires |c| == 9
  {
    var m := n % 32;
    if m <= 8 then c[m] else if m <= 16 then -c[16 - m] else if m <= 24 then -c[m - 16] else c[32 - m]
  }

  /** The formula for the double angle. */
  ghost predicate DoubleAngle(c: seq<real>, k: nat)
    requires |c| == 9 && k <= 8
  {
    c[k] > 0.0 && 2.0 * (c[k] * c[k]) == 1.0 + Cos(c, 2 * k)
  }

  /** c[k] is the cosine of k sixteenths of a half turn: no other numbers meet the formula. */
  ghost predicate Cosines(c: seq<real>) {
    |c| == 9 && c[0] == 1.0 && c[8] == 0.0 && forall k :: 1 <= k < 8 ==> DoubleAngle(c, k)
  }

  /** The factor of coefficient u in output j, where the first coefficient counts 1 / sqrt(2). */
  function Factor(c: seq<real>, j: nat, u: nat): real
    requires |c| == 9
  {
    if u == 0 then c[4] else Cos(c, (2 * j + 1) * u)
  }

  function Factors(c: seq<real>, j: nat): (w: seq<real>)
    requires |c| == 9
    ensures |w| == 8
  {
    seq(8, u requires 0 <= u < 8 => Factor(c, j, u))
  }

  function Times(a: real, b: real): real {
    a * b
  }

  function Dot(w: seq<real>, x: seq<real>): real
    requires |w| == |x|
  {
    if w == [] then 0.0 else Times(w[0], x[0]) + Dot(w[1..], x[1..])
  }

  function Magnitude(r: real): (m: real)
    ensures m >= 0.0
  {
    if r < 0.0 then -r else r
  }

  /** The sum of magnitudes. */
  function Norm(x: seq<real>): (n: real)
    ensures n >= 0.0
  {
    if x == [] then 0.0 else Magnitude(x[0]) + Norm(x[1..])
  }

  function Reals(x: seq<int>): (r: seq<real>)
    ensures |r| == |x|
  {
    seq(|x|, i requires 0 <= i < |x| => x[i] as real)
  }

  /** The sums over each row of the block, for column k. */
  function RowSums(c: seq<real>, block: seq<int>, k: nat): (r: seq<real>)
    requires |c| == 9 && |block| == 64
    ensures |r| == 8
  {
    seq(8, v requires 0 <= v < 8 => Dot(Factors(c, k), Reals(RowOf(block, v))))
  }

  /** The sample in row j and column k, before the level shift. */
  function ExactSample(c: seq<real>, block: seq<int>, j: nat, k: nat): real
    requires |c| == 9 && |block| == 64
  {
    Dot(Factors(c, j), RowSums(c, block, k)) / 4.0
  }

  function Saturate(r: real): real {
    if r < 0.0 then 0.0 else if r > 255.0 then 255.0 else r
  }

  // ----- The cosines as numbers -----

  lemma RootBetween(x: real, a: real, b: real)
    requires x >= 0.0 && 0.0 <= a && 0.0 <= b && a * a <= x * x <= b * b
    ensures a <= x <= b
  {
    if x < a { SquareLess(x, a); assert false; }
    if b < x { SquareLess(b, x); assert false; }
  }

  lemma Less(x: real, y: real, z: real)
    requires x < y && z > 0.0
    ensures x * z < y * z
  {
    assert (y - x) * z > 0.0;
  }

  lemma SquareLess(x: real, y: real)
    requires 0.0 <= x < y
    ensures x * x < y * y
  {
    Less(x, y, x + y);
    assert x * (x + y) == x * x + x * y;
    assert y * (x + y) == x * y + y * y;
  }

  /** Cosines times sqrt(2): their squares have no factor left. */
  lemma ScaledSquare(c4: real, ck: real, square: real)
    requires 2.0 * (c4 * c4) == 1.0 && 2.0 * (ck * ck) == square
    ensures (2.0 * c4 * ck) * (2.0 * c4 * ck) == square
  {
    calc {
      (2.0 * c4 * ck) * (2.0 * c4 * ck);
      4.0 * ((c4 * c4) * (ck * ck));
      2.0 * (ck * ck);
    }
  }

  lemma Angle(c: seq<real>, k: nat)
    requires Cosines(c) && 1 <= k < 8
    ensures |c| == 9 && c[k] > 0.0 && 2.0 * (c[k] * c[k]) == 1.0 + Cos(c, 2 * k)
  {
    hide Cos;
    assert DoubleAngle(c, k);
  }

  lemma DoubleAngles(c: seq<real>)
    requires |c| == 9
    ensures Cos(c, 2) == c[2] && Cos(c, 4) == c[4] && Cos(c, 6) == c[6] && Cos(c, 8) == c[8]
    ensures Cos(c, 10) == -c[6] && Cos(c, 12) == -c[4] && Cos(c, 14) == -c[2]
  {
  }

  lemma CosineIs(c: seq<real>, k: nat, a: real, b: real)
    requires Cosines(c) && 1 <= k < 8 && 0.0 <= a && 0.0 <= b
    requires |c| == 9 && 2.0 * (a * a) <= 1.0 + Cos(c, 2 * k) <= 2.0 * (b * b)
    ensures a <= c[k] <= b
  {
    Angle(c, k);
    RootBetween(c[k], a, b);
  }

  /** The even cosines. */
  lemma EvenCosines(c: seq<real>)
    requires Cosines(c)
    ensures |c| == 9
    ensures 0.707106 <= c[4] <= 0.707107 && 0.923879 <= c[2] <= 0.923880 && 0.382683 <= c[6] <= 0.382684
  {
    assert |c| == 9 && c[8] == 0.0;
    DoubleAngles(c);
    hide Cosines, Cos;
    CosineIs(c, 4, 0.707106, 0.707107);
    CosineIs(c, 2, 0.923879, 0.923880);
    CosineIs(c, 6, 0.382683, 0.382684);
  }

  /** sqrt(2) times a cosine. */
  function Root(c: seq<real>, k: nat): real
    requires |c| == 9 && k < 9
  {
    2.0 * c[4] * c[k]
  }

  lemma RootSquare(c: seq<real>, k: nat)
    requires Cosines(c) && 1 <= k < 8
    ensures |c| == 9 && Root(c, k) >= 0.0 && Root(c, k) * Root(c, k) == 1.0 + Cos(c, 2 * k)
  {
    Angle(c, 4);
    Angle(c, k);
    assert Cos(c, 8) == 0.0;
    hide Cosines, Cos;
    Less(0.0, c[4], c[k]);
    ScaledSquare(c[4], c[k], 1.0 + Cos(c, 2 * k));
  }

  lemma RootIs(c: seq<real>, k: nat, a: real, b: real)
    requires Cosines(c) && 1 <= k < 8 && 0.0 <= a && 0.0 <= b && |c| == 9 && a * a <= 1.0 + Cos(c, 2 * k) <= b * b
    ensures a <= Root(c, k) <= b
  {
    hide *;
    RootSquare(c, k);
    RootBetween(Root(c, k), a, b);
  }

  lemma Roots(c: seq<real>)
    requires Cosines(c)
    ensures |c| == 9 && 1.0 <= Root(c, 4) <= 1.0
    ensures 1.38703 <= Root(c, 1) <= 1.38705 && 1.30656 <= Root(c, 2) <= 1.30657 && 1.17587 <= Root(c, 3) <= 1.17588
    ensures 0.78569 <= Root(c, 5) <= 0.78570 && 0.54119 <= Root(c, 6) <= 0.54120
    ensures 0.275898 <= Root(c, 7) <= 0.275901
  {
    assert |c| == 9 && c[8] == 0.0;
    hide *;
    EvenCosines(c);
    DoubleAngles(c);
    RootIs(c, 1, 1.38703, 1.38705);
    RootIs(c, 2, 1.30656, 1.30657);
    RootIs(c, 3, 1.17587, 1.17588);
    RootIs(c, 4, 1.0, 1.0);
    RootIs(c, 5, 0.78569, 0.78570);
    RootIs(c, 6, 0.54119, 0.54120);
    RootIs(c, 7, 0.275898, 0.275901);
  }

  // ----- The integer factors -----

  /** The factors of the integer transform. */
  function Integers(j: nat): (w: seq<int>)
    ensures |w| == 8
  {
    match j
    case 0 => [8192, 11363, 10703, 9633, 8192, 6437, 4433, 2260]
    case 1 => [8192, 9633, 4433, -2259, -8192, -11362, -10704, -6436]
    case 2 => [8192, 6437, -4433, -11362, -8192, 2261, 10704, 9633]
    case 3 => [8192, 2260, -10703, -6436, 8192, 9633, -4433, -11363]
    case 4 => [8192, -2260, -10703, 6436, 8192, -9633, -4433, 11363]
    case 5 => [8192, -6437, -4433, 11362, -8192, -2261, 10704, -9633]
    case 6 => [8192, -9633, 4433, 2259, -8192, 11362, -10704, 6436]
    case _ => [8192, -11363, 10703, -9633, 8192, -6437, 4433, -2260]
  }

  lemma DotOf8(w: seq<real>, x: seq<real>)
    requires |w| == |x| == 8
    ensures Dot(w, x) == Times(w[0], x[0]) + Times(w[1], x[1]) + Times(w[2], x[2]) + Times(w[3], x[3])
                         + Times(w[4], x[4]) + Times(w[5], x[5]) + Times(w[6], x[6]) + Times(w[7], x[7])
  {
    DotEnd(w, x);
    hide Dot, Times;
    DotFrom(w, x, 7);
    DotFrom(w, x, 6);
    DotFrom(w, x, 5);
    DotFrom(w, x, 4);
    DotFrom(w, x, 3);
    DotFrom(w, x, 2);
    DotFrom(w, x, 1);
    DotFrom(w, x, 0);
    assert w[0..] == w && x[0..] == x;
  }

  lemma DotEnd(w: seq<real>, x: seq<real>)
    requires |w| == |x|
    ensures Dot(w[|w|..], x[|x|..]) == 0.0
  {
  }

  lemma DotFrom(w: seq<real>, x: seq<real>, k: nat)
    requires k < |w| == |x|
    ensures Dot(w[k..], x[k..]) == Times(w[k], x[k]) + Dot(w[k + 1..], x[k + 1..])
  {
    assert w[k..][1..] == w[k + 1..] && x[k..][1..] == x[k + 1..];
  }

  lemma BasisIsSum(j: nat, x: seq<int>) returns (p: seq<int>)
    requires |x| == 8 && j < 8
    ensures |p| == 8 && forall i :: 0 <= i < 8 ==> p[i] == Integers(j)[i] * x[i]
    ensures Basis(j, x) == p[0] + p[1] + p[2] + p[3] + p[4] + p[5] + p[6] + p[7]
  {
    var w := Integers(j);
    p := [w[0] * x[0], w[1] * x[1], w[2] * x[2], w[3] * x[3], w[4] * x[4], w[5] * x[5], w[6] * x[6], w[7] * x[7]];
  }

  lemma RealProduct(a: int, b: int)
    ensures (a * b) as real == Times(a as real, b as real)
  {
  }

  lemma BasisIsDot(j: nat, x: seq<int>)
    requires |x| == 8 && j < 8
    ensures Basis(j, x) as real == Dot(Reals(Integers(j)), Reals(x))
  {
    var w := Integers(j);
    var p := BasisIsSum(j, x);
    DotOf8(Reals(w), Reals(x));
    hide Basis, Dot, Integers, Times;
    forall i | 0 <= i < 8 ensures p[i] as real == Times(Reals(w)[i], Reals(x)[i]) {
      RealProduct(w[i], x[i]);
    }
  }

  /** sqrt(2) times the factor of coefficient u in output j. */
  function Weight(c: seq<real>, j: nat, u: nat): real
    requires |c| == 9
  {
    2.0 * c[4] * Factor(c, j, u)
  }

  /** Every factor of the integer transform is 8192 times the exact one, up to 1.2. */
  ghost predicate Close(c: seq<real>, j: nat, u: nat)
    requires |c| == 9 && u < 8
  {
    -1.2 <= Integers(j)[u] as real - 8192.0 * Weight(c, j, u) <= 1.2 && -1.4 <= Weight(c, j, u) <= 1.4
  }

  lemma Weights0(c: seq<real>)
    requires |c| == 9
    ensures Weight(c, 0, 0) == Root(c, 4) && Weight(c, 0, 1) == Root(c, 1)
    ensures Weight(c, 0, 2) == Root(c, 2) && Weight(c, 0, 3) == Root(c, 3)
    ensures Weight(c, 0, 4) == Root(c, 4) && Weight(c, 0, 5) == Root(c, 5)
    ensures Weight(c, 0, 6) == Root(c, 6) && Weight(c, 0, 7) == Root(c, 7)
  {
  }

  lemma Close0(c: seq<real>)
    requires Cosines(c)
    ensures |c| == 9 && Close(c, 0, 0) && Close(c, 0, 1) && Close(c, 0, 2) && Close(c, 0, 3)
    ensures Close(c, 0, 4) && Close(c, 0, 5) && Close(c, 0, 6) && Close(c, 0, 7)
  {
    Roots(c);
    Weights0(c);
    hide Cosines, Root, Weight;
  }

  lemma Weights1(c: seq<real>)
    requires |c| == 9
    ensures Weight(c, 1, 0) == Root(c, 4) && Weight(c, 1, 1) == Root(c, 3)
    ensures Weight(c, 1, 2) == Root(c, 6) && Weight(c, 1, 3) == -Root(c, 7)
    ensures Weight(c, 1, 4) == -Root(c, 4) && Weight(c, 1, 5) == -Root(c, 1)
    ensures Weight(c, 1, 6) == -Root(c, 2) && Weight(c, 1, 7) == -Root(c, 5)
  {
  }

  lemma Close1(c: seq<real>)
    requires Cosines(c)
    ensures |c| == 9 && Close(c, 1, 0) && Close(c, 1, 1) && Close(c, 1, 2) && Close(c, 1, 3)
    ensures Close(c, 1, 4) && Close(c, 1, 5) && Close(c, 1, 6) && Close(c, 1, 7)
  {
    Roots(c);
    Weights1(c);
    hide Cosines, Root, Weight;
  }

  lemma Weights2(c: seq<real>)
    requires |c| == 9
    ensures Weight(c, 2, 0) == Root(c, 4) && Weight(c, 2, 1) == Root(c, 5)
    ensures Weight(c, 2, 2) == -Root(c, 6) && Weight(c, 2, 3) == -Root(c, 1)
    ensures Weight(c, 2, 4) == -Root(c, 4) && Weight(c, 2, 5) == Root(c, 7)
    ensures Weight(c, 2, 6) == Root(c, 2) && Weight(c, 2, 7) == Root(c, 3)
  {
  }

  lemma Close2(c: seq<real>)
    requires Cosines(c)
    ensures |c| == 9 && Close(c, 2, 0) && Close(c, 2, 1) && Close(c, 2, 2) && Close(c, 2, 3)
    ensures Close(c, 2, 4) && Close(c, 2, 5) && Close(c, 2, 6) && Close(c, 2, 7)
  {
    Roots(c);
    Weights2(c);
    hide Cosines, Root, Weight;
  }

  lemma Weights3(c: seq<real>)
    requires |c| == 9
    ensures Weight(c, 3, 0) == Root(c, 4) && Weight(c, 3, 1) == Root(c, 7)
    ensures Weight(c, 3, 2) == -Root(c, 2) && Weight(c, 3, 3) == -Root(c, 5)
    ensures Weight(c, 3, 4) == Root(c, 4) && Weight(c, 3, 5) == Root(c, 3)
    ensures Weight(c, 3, 6) == -Root(c, 6) && Weight(c, 3, 7) == -Root(c, 1)
  {
  }

  lemma Close3(c: seq<real>)
    requires Cosines(c)
    ensures |c| == 9 && Close(c, 3, 0) && Close(c, 3, 1) && Close(c, 3, 2) && Close(c, 3, 3)
    ensures Close(c, 3, 4) && Close(c, 3, 5) && Close(c, 3, 6) && Close(c, 3, 7)
  {
    Roots(c);
    Weights3(c);
    hide Cosines, Root, Weight;
  }

  lemma Weights4(c: seq<real>)
    requires |c| == 9
    ensures Weight(c, 4, 0) == Root(c, 4) && Weight(c, 4, 1) == -Root(c, 7)
    ensures Weight(c, 4, 2) == -Root(c, 2) && Weight(c, 4, 3) == Root(c, 5)
    ensures Weight(c, 4, 4) == Root(c, 4) && Weight(c, 4, 5) == -Root(c, 3)
    ensures Weight(c, 4, 6) == -Root(c, 6) && Weight(c, 4, 7) == Root(c, 1)
  {
  }

  lemma Close4(c: seq<real>)
    requires Cosines(c)
    ensures |c| == 9 && Close(c, 4, 0) && Close(c, 4, 1) && Close(c, 4, 2) && Close(c, 4, 3)
    ensures Close(c, 4, 4) && Close(c, 4, 5) && Close(c, 4, 6) && Close(c, 4, 7)
  {
    Roots(c);
    Weights4(c);
    hide Cosines, Root, Weight;
  }

  lemma Weights5(c: seq<real>)
    requires |c| == 9
    ensures Weight(c, 5, 0) == Root(c, 4) && Weight(c, 5, 1) == -Root(c, 5)
    ensures Weight(c, 5, 2) == -Root(c, 6) && Weight(c, 5, 3) == Root(c, 1)
    ensures Weight(c, 5, 4) == -Root(c, 4) && Weight(c, 5, 5) == -Root(c, 7)
    ensures Weight(c, 5, 6) == Root(c, 2) && Weight(c, 5, 7) == -Root(c, 3)
  {
  }

  lemma Close5(c: seq<real>)
    requires Cosines(c)
    ensures |c| == 9 && Close(c, 5, 0) && Close(c, 5, 1) && Close(c, 5, 2) && Close(c, 5, 3)
    ensures Close(c, 5, 4) && Close(c, 5, 5) && Close(c, 5, 6) && Close(c, 5, 7)
  {
    Roots(c);
    Weights5(c);
    hide Cosines, Root, Weight;
  }

  lemma Weights6(c: seq<real>)
    requires |c| == 9
    ensures Weight(c, 6, 0) == Root(c, 4) && Weight(c, 6, 1) == -Root(c, 3)
    ensures Weight(c, 6, 2) == Root(c, 6) && Weight(c, 6, 3) == Root(c, 7)
    ensures Weight(c, 6, 4) == -Root(c, 4) && Weight(c, 6, 5) == Root(c, 1)
    ensures Weight(c, 6, 6) == -Root(c, 2) && Weight(c, 6, 7) == Root(c, 5)
  {
  }

  lemma Close6(c: seq<real>)
    requires Cosines(c)
    ensures |c| == 9 && Close(c, 6, 0) && Close(c, 6, 1) && Close(c, 6, 2) && Close(c, 6, 3)
    ensures Close(c, 6, 4) && Close(c, 6, 5) && Close(c, 6, 6) && Close(c, 6, 7)
  {
    Roots(c);
    Weights6(c);
    hide Cosines, Root, Weight;
  }

  lemma Weights7(c: seq<real>)
    requires |c| == 9
    ensures Weight(c, 7, 0) == Root(c, 4) && Weight(c, 7, 1) == -Root(c, 1)
    ensures Weight(c, 7, 2) == Root(c, 2) && Weight(c, 7, 3) == -Root(c, 3)
    ensures Weight(c, 7, 4) == Root(c, 4) && Weight(c, 7, 5) == -Root(c, 5)
    ensures Weight(c, 7, 6) == Root(c, 6) && Weight(c, 7, 7) == -Root(c, 7)
  {
  }

  lemma Close7(c: seq<real>)
    requires Cosines(c)
    ensures |c| == 9 && Close(c, 7, 0) && Close(c, 7, 1) && Close(c, 7, 2) && Close(c, 7, 3)
    ensures Close(c, 7, 4) && Close(c, 7, 5) && Close(c, 7, 6) && Close(c, 7, 7)
  {
    Roots(c);
    Weights7(c);
    hide Cosines, Root, Weight;
  }

  // ----- Sums of products -----

  function Weights(c: seq<real>, j: nat): (w: seq<real>)
    requires |c| == 9
    ensures |w| == 8
  {
    seq(8, u requires 0 <= u < 8 => Weight(c, j, u))
  }

  ghost predicate Within(a: real, b: real, e: real) {
    -e <= a - b <= e
  }

  lemma TimesBounded(a: real, x: real, m: real)
    requires -m <= a <= m
    ensures Within(Times(a, x), 0.0, Times(m, Magnitude(x)))
  {
    var y := Magnitude(x);
    assert (m - a) * y >= 0.0 && (m + a) * y >= 0.0;
  }

  lemma TimesClose(a: real, b: real, x: real, s: real, e: real)
    requires Within(a, Times(s, b), e)
    ensures Within(Times(a, x), Times(s, Times(b, x)), Times(e, Magnitude(x)))
  {
    var d := a - Times(s, b);
    assert Times(a, x) - Times(s, Times(b, x)) == Times(d, x);
    TimesBounded(d, x, e);
  }

  lemma TimesSum(a: real, b: real, c: real)
    ensures Times(a, b + c) == Times(a, b) + Times(a, c)
  {
  }

  /** Changing each weight by no more than e changes the sum by no more than e times the sum of magnitudes. */
  lemma {:induction false} DotClose(a: seq<real>, b: seq<real>, x: seq<real>, s: real, e: real)
    requires |a| == |b| == |x| && forall i :: 0 <= i < |a| ==> Within(a[i], Times(s, b[i]), e)
    ensures Within(Dot(a, x), Times(s, Dot(b, x)), Times(e, Norm(x)))
  {
    if a == [] {
      TimesSum(s, 0.0, 0.0);
      TimesSum(e, 0.0, 0.0);
    } else {
      DotClose(a[1..], b[1..], x[1..], s, e);
      TimesClose(a[0], b[0], x[0], s, e);
      TimesSum(s, Times(b[0], x[0]), Dot(b[1..], x[1..]));
      TimesSum(e, Magnitude(x[0]), Norm(x[1..]));
      hide Times, Magnitude;
    }
  }

  /** With weights of no more than m, the sum is no more than m times the sum of magnitudes. */
  lemma {:induction false} DotBounded(w: seq<real>, x: seq<real>, m: real)
    requires |w| == |x| && forall i :: 0 <= i < |w| ==> -m <= w[i] <= m
    ensures Within(Dot(w, x), 0.0, Times(m, Norm(x)))
  {
    if w != [] {
      DotBounded(w[1..], x[1..], m);
      TimesBounded(w[0], x[0], m);
      TimesSum(m, Magnitude(x[0]), Norm(x[1..]));
      hide Times, Magnitude;
    }
  }

  /** The differences of two sequences, of which the second one is scaled. */
  function Minus(x: seq<real>, y: seq<real>, s: real): (d: seq<real>)
    requires |x| == |y|
    ensures |d| == |x|
  {
    seq(|x|, i requires 0 <= i < |x| => x[i] - Times(s, y[i]))
  }

  lemma {:induction false} DotMinus(w: seq<real>, x: seq<real>, y: seq<real>, s: real)
    requires |w| == |x| == |y|
    ensures Dot(w, x) == Times(s, Dot(w, y)) + Dot(w, Minus(x, y, s))
  {
    if w != [] {
      DotMinus(w[1..], x[1..], y[1..], s);
      assert Minus(x, y, s)[1..] == Minus(x[1..], y[1..], s);
      TimesMinus(w[0], x[0], y[0], s);
      TimesSum(s, Times(w[0], y[0]), Dot(w[1..], y[1..]));
      hide Times;
    }
  }

  lemma TimesMinus(w: real, x: real, y: real, s: real)
    ensures Times(w, x) == Times(s, Times(w, y)) + Times(w, x - Times(s, y))
  {
  }

  /** A bound for each magnitude gives a bound for their sum. */
  lemma {:induction false} NormBounded(x: seq<real>, z: seq<real>, alpha: real, beta: real)
    requires |x| == |z| && forall i :: 0 <= i < |x| ==> Magnitude(x[i]) <= alpha + Times(beta, Magnitude(z[i]))
    ensures Norm(x) <= Times(|x| as real, alpha) + Times(beta, Norm(z))
  {
    if x != [] {
      NormBounded(x[1..], z[1..], alpha, beta);
      TimesSum(beta, Magnitude(z[0]), Norm(z[1..]));
      assert Times(|x| as real, alpha) == Times((|x| - 1) as real, alpha) + alpha;
      hide Times, Magnitude;
    }
  }

  // ----- The two passes -----

  lemma AllClose(c: seq<real>, j: nat)
    requires Cosines(c) && j < 8
    ensures |c| == 9 && forall u :: 0 <= u < 8 ==> Close(c, j, u)
  {
    hide *;
    match j
    case 0 => Close0(c);
    case 1 => Close1(c);
    case 2 => Close2(c);
    case 3 => Close3(c);
    case 4 => Close4(c);
    case 5 => Close5(c);
    case 6 => Close6(c);
    case _ => Close7(c);
  }

  lemma FactorsClose(c: seq<real>, j: nat)
    requires Cosines(c) && j < 8
    ensures |c| == 9 && forall u :: 0 <= u < 8 ==>
      Within(Reals(Integers(j))[u], Times(8192.0, Weights(c, j)[u]), 1.2) && -1.4 <= Weights(c, j)[u] <= 1.4
  {
    hide Cosines, Integers, Weight;
    AllClose(c, j);
    forall u | 0 <= u < 8
      ensures Within(Reals(Integers(j))[u], Times(8192.0, Weights(c, j)[u]), 1.2) && -1.4 <= Weights(c, j)[u] <= 1.4
    {
      assert Close(c, j, u);
    }
  }

  /** One output of the integer transform. */
  lemma BasisClose(c: seq<real>, j: nat, x: seq<int>)
    requires Cosines(c) && j < 8 && |x| == 8
    ensures |c| == 9
    ensures Within(Basis(j, x) as real, Times(8192.0, Dot(Weights(c, j), Reals(x))), Times(1.2, Norm(Reals(x))))
    ensures Within(Dot(Weights(c, j), Reals(x)), 0.0, Times(1.4, Norm(Reals(x))))
  {
    hide *;
    FactorsClose(c, j);
    BasisIsDot(j, x);
    DotClose(Reals(Integers(j)), Weights(c, j), Reals(x), 8192.0, 1.2);
    DotBounded(Weights(c, j), Reals(x), 1.4);
  }

  /** A row's output stands for four times the exact sum. */
  lemma RowClose(c: seq<real>, k: nat, x: seq<int>, t: int)
    requires Cosines(c) && k < 8 && |x| == 8 && Nearest(t, Basis(k, x), 0x800)
    ensures |c| == 9
    ensures var sum, norm := Dot(Weights(c, k), Reals(x)), Norm(Reals(x));
      Within(t as real, Times(4.0, sum), 0.5 + Times(0.0006, norm)) && Magnitude(t as real) <= 0.5 + Times(5.7, norm)
  {
    BasisClose(c, k, x);
    hide Cosines, Basis, Dot, Norm, Weights, Reals;
  }

  /** The sums over the rows with the weights of column k. */
  function Rows(c: seq<real>, block: seq<int>, k: nat): (r: seq<real>)
    requires |c| == 9 && |block| == 64
    ensures |r| == 8
  {
    seq(8, v requires 0 <= v < 8 => Dot(Weights(c, k), Reals(RowOf(block, v))))
  }

  function RowNorms(block: seq<int>): (z: seq<real>)
    requires |block| == 64
    ensures |z| == 8
  {
    seq(8, v requires 0 <= v < 8 => Norm(Reals(RowOf(block, v))))
  }

  /** The column's elements stand for four times these sums. */
  ghost predicate Stands(column: seq<int>, sums: seq<real>, norms: seq<real>) {
    && |column| == |sums| == |norms| == 8
    && forall v :: 0 <= v < 8 ==>
      && Within(column[v] as real, Times(4.0, sums[v]), 0.5 + Times(0.0006, Magnitude(norms[v])))
      && Magnitude(column[v] as real) <= 0.5 + Times(5.7, Magnitude(norms[v]))
  }

  lemma StandsFor8(column: seq<int>, sums: seq<real>, norms: seq<real>)
    requires Stands(column, sums, norms)
    ensures |column| == |sums| == |norms| == 8
  {
  }

  lemma ColumnNorms(column: seq<int>, sums: seq<real>, norms: seq<real>)
    requires Stands(column, sums, norms)
    ensures Norm(Reals(column)) <= 4.0 + Times(5.7, Norm(norms))
    ensures Norm(Minus(Reals(column), sums, 4.0)) <= 4.0 + Times(0.0006, Norm(norms))
  {
    var d := Minus(Reals(column), sums, 4.0);
    forall v | 0 <= v < 8 ensures Magnitude(d[v]) <= 0.5 + Times(0.0006, Magnitude(norms[v])) {}
    hide Norm, Magnitude, Minus;
    NormBounded(Reals(column), norms, 0.5, 5.7);
    NormBounded(d, norms, 0.5, 0.0006);
  }

  lemma ColumnClose(c: seq<real>, j: nat, column: seq<int>, sums: seq<real>, norms: seq<real>)
    requires Cosines(c) && j < 8 && Stands(column, sums, norms)
    ensures |c| == 9
    ensures Within(Basis(j, column) as real, Times(32768.0, Dot(Weights(c, j), sums)),
                   45881.0 + Times(14.0, Norm(norms)))
  {
    hide *;
    StandsFor8(column, sums, norms);
    ColumnNorms(column, sums, norms);
    BasisClose(c, j, column);
    FactorsClose(c, j);
    DotMinus(Weights(c, j), Reals(column), sums, 4.0);
    DotBounded(Weights(c, j), Minus(Reals(column), sums, 4.0), 1.4);
    var x, y := Dot(Weights(c, j), Reals(column)), Dot(Weights(c, j), sums);
    var n, d := Norm(Reals(column)), Norm(Minus(Reals(column), sums, 4.0));
    ColumnSums(Basis(j, column) as real, x, y, x - Times(4.0, y), n, d, Norm(norms));
  }

  lemma ColumnSums(b: real, x: real, y: real, z: real, n: real, d: real, total: real)
    requires Within(b, Times(8192.0, x), Times(1.2, n)) && x == Times(4.0, y) + z && Within(z, 0.0, Times(1.4, d))
    requires n <= 4.0 + Times(5.7, total) && d <= 4.0 + Times(0.0006, total) && total >= 0.0
    ensures Within(b, Times(32768.0, y), 45881.0 + Times(14.0, total))
  {
  }

  /** The sum of the magnitudes of all coefficients. */
  function Magnitudes(block: seq<int>): real
    requires |block| == 64
  {
    Norm(RowNorms(block))
  }

  lemma ColumnStands(c: seq<real>, block: seq<int>, temp: seq<int>, k: nat)
    requires Cosines(c) && |block| == |temp| == 64 && k < 8
    requires forall i, j :: 0 <= i < 8 && 0 <= j < 8 ==> RowEntry(block, temp, i, j)
    ensures |c| == 9 && Stands(Column(temp, k), Rows(c, block, k), RowNorms(block))
  {
    assert |c| == 9;
    hide Cosines, Basis, Dot, Norm, Weights, Reals, Nearest, Within, Times;
    var column := Column(temp, k);
    forall v | 0 <= v < 8
      ensures Within(column[v] as real, Times(4.0, Rows(c, block, k)[v]),
                     0.5 + Times(0.0006, Magnitude(RowNorms(block)[v])))
      ensures Magnitude(column[v] as real) <= 0.5 + Times(5.7, Magnitude(RowNorms(block)[v]))
    {
      assert RowEntry(block, temp, v, k);
      RowClose(c, k, RowOf(block, v), temp[8 * v + k]);
      assert column[v] == temp[8 * v + k];
      assert RowNorms(block)[v] == Magnitude(RowNorms(block)[v]);
    }
  }

  // ----- Accuracy -----

  /** A factor common to all weights. */
  lemma {:induction false} DotFactor(a: seq<real>, b: seq<real>, x: seq<real>, s: real)
    requires |a| == |b| == |x| && forall i :: 0 <= i < |a| ==> a[i] == Times(s, b[i])
    ensures Dot(a, x) == Times(s, Dot(b, x))
  {
    if a == [] {
      TimesSum(s, 0.0, 0.0);
    } else {
      DotFactor(a[1..], b[1..], x[1..], s);
      assert Times(a[0], x[0]) == Times(s, Times(b[0], x[0]));
      TimesSum(s, Times(b[0], x[0]), Dot(b[1..], x[1..]));
      hide Times;
    }
  }

  /** A factor common to all numbers. */
  lemma {:induction false} DotScaled(w: seq<real>, x: seq<real>, y: seq<real>, s: real)
    requires |w| == |x| == |y| && forall i :: 0 <= i < |w| ==> x[i] == Times(s, y[i])
    ensures Dot(w, x) == Times(s, Dot(w, y))
  {
    if w == [] {
      TimesSum(s, 0.0, 0.0);
    } else {
      DotScaled(w[1..], x[1..], y[1..], s);
      assert Times(w[0], x[0]) == Times(s, Times(w[0], y[0]));
      TimesSum(s, Times(w[0], y[0]), Dot(w[1..], y[1..]));
      hide Times;
    }
  }

  lemma WeightsAre(c: seq<real>, j: nat)
    requires Cosines(c)
    ensures |c| == 9 && 2.0 * c[4] * (2.0 * c[4]) == 2.0
    ensures forall u :: 0 <= u < 8 ==> Weights(c, j)[u] == Times(2.0 * c[4], Factors(c, j)[u])
  {
    Angle(c, 4);
    assert Cos(c, 8) == 0.0;
    hide Cos, Cosines;
  }

  lemma RowsAre(c: seq<real>, block: seq<int>, k: nat)
    requires Cosines(c) && |block| == 64
    ensures |c| == 9
    ensures forall v :: 0 <= v < 8 ==> Rows(c, block, k)[v] == Times(2.0 * c[4], RowSums(c, block, k)[v])
  {
    WeightsAre(c, k);
    hide Cosines, Times, Dot, RowOf, Reals, Weights, Factors;
    forall v | 0 <= v < 8 ensures Rows(c, block, k)[v] == Times(2.0 * c[4], RowSums(c, block, k)[v]) {
      DotFactor(Weights(c, k), Factors(c, k), Reals(RowOf(block, v)), 2.0 * c[4]);
    }
  }

  /** The weights of both passes together hold a factor of 2. */
  lemma ExactIs(c: seq<real>, block: seq<int>, j: nat, k: nat)
    requires Cosines(c) && |block| == 64
    ensures |c| == 9 && Dot(Weights(c, j), Rows(c, block, k)) == Times(8.0, ExactSample(c, block, j, k))
  {
    WeightsAre(c, j);
    RowsAre(c, block, k);
    hide *;
    var s := 2.0 * c[4];
    DotFactor(Weights(c, j), Factors(c, j), Rows(c, block, k), s);
    DotScaled(Factors(c, j), Rows(c, block, k), RowSums(c, block, k), s);
    Twice(s, Dot(Factors(c, j), RowSums(c, block, k)));
    SampleIs(c, block, j, k);
  }

  lemma SampleIs(c: seq<real>, block: seq<int>, j: nat, k: nat)
    requires |c| == 9 && |block| == 64
    ensures Times(8.0, ExactSample(c, block, j, k)) == 2.0 * Dot(Factors(c, j), RowSums(c, block, k))
  {
    hide Dot, Factors, RowSums;
  }

  lemma Twice(s: real, x: real)
    requires s * s == 2.0
    ensures Times(s, Times(s, x)) == 2.0 * x
  {
  }

  lemma PassesOf(block: seq<int>, samples: seq<int>, j: nat, k: nat) returns (temp: seq<int>, v: int)
    requires IsIdct(block, samples) && j < 8 && k < 8
    ensures |block| == |temp| == |samples| == 64
    ensures forall i, j :: 0 <= i < 8 && 0 <= j < 8 ==> RowEntry(block, temp, i, j)
    ensures Nearest(v, Basis(j, Column(temp, k)), 0x4_0000) && Saturated(samples[8 * j + k], v + 128)
  {
    hide RowEntry, Basis, Nearest, Saturated, Column;
    temp :| TwoPasses(block, temp, samples);
    assert ColumnEntry(temp, samples, j, k);
    v :| Nearest(v, Basis(j, Column(temp, k)), 0x4_0000) && Saturated(samples[8 * j + k], v + 128);
  }

  lemma SizeIs(c: seq<real>)
    requires Cosines(c)
    ensures |c| == 9
  {
  }

  lemma MagnitudesAre(block: seq<int>)
    requires |block| == 64
    ensures Magnitudes(block) == Norm(RowNorms(block))
  {
    hide Norm, RowNorms;
  }

  /** Every sample is as near to the exact transform, moved up by 128 and saturated, as the sum of magnitudes says. */
  lemma SamplesAccurate(c: seq<real>, block: seq<int>, samples: seq<int>, j: nat, k: nat)
    requires Cosines(c) && IsIdct(block, samples) && j < 8 && k < 8
    ensures |c| == 9 && |block| == |samples| == 64
    ensures Within(samples[8 * j + k] as real, Saturate(ExactSample(c, block, j, k) + 128.0),
                   0.7 + Magnitudes(block) / 16384.0)
  {
    hide *;
    var temp, v := PassesOf(block, samples, j, k);
    SizeIs(c);
    ColumnStands(c, block, temp, k);
    var column := Column(temp, k);
    MagnitudesAre(block);
    ColumnClose(c, j, column, Rows(c, block, k), RowNorms(block));
    ExactIs(c, block, j, k);
    SampleClose(samples[8 * j + k], v, Basis(j, column), Dot(Weights(c, j), Rows(c, block, k)),
                ExactSample(c, block, j, k), Norm(RowNorms(block)));
  }

  lemma SampleClose(s: int, v: int, b: int, y: real, exact: real, total: real)
    requires Nearest(v, b, 0x4_0000) && Saturated(s, v + 128) && y == Times(8.0, exact) && total >= 0.0
    requires Within(b as real, Times(32768.0, y), 45881.0 + Times(14.0, total))
    ensures Within(s as real, Saturate(exact + 128.0), 0.7 + total / 16384.0)
  {
    assert Within(v as real, exact, 0.7 + total / 16384.0);
  }
}
