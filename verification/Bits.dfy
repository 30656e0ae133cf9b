/** Bit strings, most significant bit first, and the numbers they denote. */
module Bits {

  type BitString = seq<bool>

  function Pow2(n: nat): (r: nat)
    ensures r >= 1
  {
    if n == 0 then 1 else 2 * Pow2(n - 1)
  }

  /** The number a bit string denotes. */
  function Val(bs: BitString): (v: nat)
    ensures v < Pow2(|bs|)
  {
    if bs == [] then 0 else 2 * Val(bs[..|bs| - 1]) + if bs[|bs| - 1] then 1 else 0
  }

  /** The low n bits of v, most significant first. */
  function Enc(v: nat, n: nat): (bs: BitString)
    ensures |bs| == n
  {
    if n == 0 then [] else Enc(v / 2, n - 1) + [v % 2 == 1]
  }

  function Zeros(n: nat): (bs: BitString)
    ensures |bs| == n
    ensures forall i :: 0 <= i < n ==> !bs[i]
  {
    seq(n, i => false)
  }

  lemma {:induction false} Pow2Add(a: nat, b: nat)
    ensures Pow2(a + b) == Pow2(a) * Pow2(b)
  {
    if a > 0 {
      Pow2Add(a - 1, b);
      calc {
        Pow2(a + b);
        2 * Pow2(a - 1 + b);
        2 * (Pow2(a - 1) * Pow2(b));
        Pow2(a) * Pow2(b);
      }
    }
  }

  lemma {:induction false} Pow2Mono(a: nat, b: nat)
    requires a <= b
    ensures Pow2(a) <= Pow2(b)
    ensures a < b ==> Pow2(a) < Pow2(b)
    decreases b
  {
    if a < b { Pow2Mono(a, b - 1); }
  }

  lemma Pow2Values()
    ensures Pow2(1) == 2 && Pow2(2) == 4 && Pow2(3) == 8 && Pow2(4) == 16
    ensures Pow2(5) == 32 && Pow2(6) == 64 && Pow2(7) == 128 && Pow2(8) == 256
    ensures Pow2(9) == 512 && Pow2(10) == 1024 && Pow2(11) == 2048 && Pow2(12) == 4096
    ensures Pow2(15) == 0x8000 && Pow2(16) == 0x1_0000 && Pow2(24) == 0x100_0000 && Pow2(32) == 0x1_0000_0000
  {
    assert Pow2(4) == 16;
    assert Pow2(8) == 256;
    assert Pow2(12) == 4096;
    assert Pow2(16) == 0x1_0000;
    assert Pow2(20) == 0x10_0000;
    assert Pow2(24) == 0x100_0000;
    assert Pow2(28) == 0x1000_0000;
  }

  lemma {:induction false} ValConcat(a: BitString, b: BitString)
    ensures Val(a + b) == Val(a) * Pow2(|b|) + Val(b)
  {
    if b == [] {
      assert a + b == a;
    } else {
      var b' := b[..|b| - 1];
      ValConcat(a, b');
      assert (a + b)[..|a + b| - 1] == a + b';
      MulAssoc(2, Val(a), Pow2(|b'|));
      MulAssoc(Val(a), 2, Pow2(|b'|));
    }
  }

  lemma MulAssoc(x: nat, y: nat, z: nat)
    ensures x * (y * z) == (x * y) * z
  {
  }

  lemma {:induction false} ValZeros(n: nat)
    ensures Val(Zeros(n)) == 0
  {
    if n > 0 {
      assert Zeros(n)[..n - 1] == Zeros(n - 1);
      ValZeros(n - 1);
    }
  }

  lemma {:induction false} ValEnc(v: nat, n: nat)
    requires v < Pow2(n)
    ensures Val(Enc(v, n)) == v
  {
    if n > 0 {
      ValEnc(v / 2, n - 1);
      assert Enc(v, n)[..n - 1] == Enc(v / 2, n - 1);
    }
  }

  lemma {:induction false} EncVal(bs: BitString)
    ensures Enc(Val(bs), |bs|) == bs
  {
    if bs != [] {
      var b' := bs[..|bs| - 1];
      EncVal(b');
      assert Val(bs) / 2 == Val(b');
      assert bs == b' + [bs[|bs| - 1]];
    }
  }

  /** Equal numbers of equal width are the same bit string. */
  lemma ValInjective(a: BitString, b: BitString)
    requires |a| == |b| && Val(a) == Val(b)
    ensures a == b
  {
    EncVal(a);
    EncVal(b);
  }

  /** Cutting a bit string is division and remainder by a power of two. */
  lemma ValSplit(bs: BitString, k: nat)
    requires k <= |bs|
    ensures Val(bs) == Val(bs[..k]) * Pow2(|bs| - k) + Val(bs[k..])
    ensures Val(bs) / Pow2(|bs| - k) == Val(bs[..k])
    ensures Val(bs) % Pow2(|bs| - k) == Val(bs[k..])
  {
    assert bs == bs[..k] + bs[k..];
    ValConcat(bs[..k], bs[k..]);
    DivMod(Val(bs[..k]), Val(bs[k..]), Pow2(|bs| - k));
  }

  lemma MulDistr(x: int, y: int, z: int)
    ensures (x + y) * z == x * z + y * z
    ensures (x - y) * z == x * z - y * z
  {
  }

  lemma MulMono(x: int, y: int, z: nat)
    requires x <= y
    ensures x * z <= y * z
  {
    MulDistr(y, x, z);
    MulNonneg(y - x, z);
  }

  lemma MulNonneg(x: nat, y: nat)
    ensures 0 <= x * y
  {
  }

  lemma DivMod(q: nat, r: nat, d: nat)
    requires r < d
    ensures (q * d + r) / d == q && (q * d + r) % d == r
  {
    var q', r' := (q * d + r) / d, (q * d + r) % d;
    DivUnique(q, r, q', r', d);
  }

  lemma DivUnique(q: nat, r: nat, q': nat, r': nat, d: nat)
    requires r < d && r' < d
    requires q * d + r == q' * d + r'
    ensures q == q' && r == r'
  {
    if q < q' { MulMono(q + 1, q', d); MulDistr(q, 1, d); assert false; }
    if q > q' { MulMono(q' + 1, q, d); MulDistr(q', 1, d); assert false; }
  }

  /** A left shift of a full-width register drops the leading bits and fills with zeros. */
  lemma ShiftLeft(bs: BitString, n: nat)
    requires n <= |bs|
    ensures (Val(bs) * Pow2(n)) % Pow2(|bs|) == Val(bs[n..] + Zeros(n))
  {
    ShiftValues(bs, n);
    ShiftArithmetic(Val(bs), Val(bs[..n]), Val(bs[n..]), Pow2(|bs| - n), Pow2(n), Pow2(|bs|));
  }

  lemma ShiftValues(bs: BitString, n: nat)
    requires n <= |bs|
    ensures Val(bs) == Val(bs[..n]) * Pow2(|bs| - n) + Val(bs[n..])
    ensures Pow2(|bs|) == Pow2(|bs| - n) * Pow2(n)
    ensures Val(bs[n..] + Zeros(n)) == Val(bs[n..]) * Pow2(n)
  {
    ValSplit(bs, n);
    Pow2Add(|bs| - n, n);
    ValConcat(bs[n..], Zeros(n));
    ValZeros(n);
  }

  lemma ShiftArithmetic(v: nat, hi: nat, lo: nat, p: nat, q: nat, w: nat)
    requires lo < p && q >= 1 && w == p * q && v == hi * p + lo
    ensures w > 0 && (v * q) % w == lo * q
  {
    var t := lo * q;
    assert v * q == hi * w + t by { MulAssoc(hi, p, q); MulDistr(hi * p, lo, q); }
    assert 0 <= t < w by { MulNonneg(lo, q); MulMono(lo + 1, p, q); MulDistr(lo, 1, q); }
    DivMod(hi, t, w);
  }

  /** Putting a value into the low bits of a register whose low bits are zero. */
  lemma FillLow(bs: BitString, v: nat, n: nat)
    requires v < Pow2(n)
    ensures Val(bs + Zeros(n)) + v == Val(bs + Enc(v, n))
  {
    ValConcat(bs, Zeros(n));
    ValZeros(n);
    ValConcat(bs, Enc(v, n));
    ValEnc(v, n);
  }
}
