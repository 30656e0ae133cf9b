/** Where the constants of SHA-256 come from: sections 4.2.2 and 5.3.3 of FIPS 180-4. */
module Sha256Constants {
  import opened Sha256
  import Bits

  // ----- The first 64 primes -----

  ghost predicate Prime(n: nat) {
    n >= 2 && forall d :: 2 <= d < n ==> n % d != 0
  }

  const PRIMES: seq<nat> :=
    [2, 3, 5, 7, 11, 13, 17, 19, 23, 29, 31, 37, 41, 43, 47, 53] +
    [59, 61, 67, 71, 73, 79, 83, 89, 97, 101, 103, 107, 109, 113, 127, 131] +
    [137, 139, 149, 151, 157, 163, 167, 173, 179, 181, 191, 193, 197, 199, 211, 223] +
    [227, 229, 233, 239, 241, 251, 257, 263, 269, 271, 277, 281, 283, 293, 307, 311]

  /** b is the next prime after a. */
  ghost predicate NextPrime(a: nat, b: nat) {
    a < b && Prime(b) && forall n: nat :: a < n < b ==> !Prime(n)
  }

  /** No prime below 19 other than n itself divides n. */
  predicate Sieved(n: nat) {
    && (n == 2 || n % 2 != 0) && (n == 3 || n % 3 != 0) && (n == 5 || n % 5 != 0) && (n == 7 || n % 7 != 0)
    && (n == 11 || n % 11 != 0) && (n == 13 || n % 13 != 0) && (n == 17 || n % 17 != 0)
  }

  function LeastFactor(d: nat): (q: nat)
    requires 2 <= d <= 18
    ensures q in {2, 3, 5, 7, 11, 13, 17} && q <= d && d == q * (d / q)
  {
    if d % 2 == 0 then 2 else if d % 3 == 0 then 3 else if d % 5 == 0 then 5 else d
  }

  lemma SmallDivisor(n: nat, d: nat, e: nat)
    requires 2 <= d <= 18 && d <= e && n == d * e && 2 <= n
    ensures !Sieved(n)
  {
    var q := LeastFactor(d);
    assert n % q == 0 && q < n by {
      hide LeastFactor, Sieved;
      Bits.MulAssoc(q, d / q, e);
      Bits.DivMod(d / q * e, 0, q);
      Bits.MulMono(2, d, e);
    }
  }

  /** Below 19 * 19, what is sieved is prime. */
  lemma SievedIsPrime(n: nat)
    requires 2 <= n < 361
    ensures Prime(n) <==> Sieved(n)
  {
    if !Sieved(n) { HasSmallDivisor(n); }
    hide Sieved;
    forall d | 2 <= d < n ensures n % d == 0 ==> !Sieved(n) {
      if n % d == 0 { Divided(n, d, n / d); }
    }
  }

  lemma HasSmallDivisor(n: nat)
    requires n >= 2 && !Sieved(n)
    ensures exists q :: 2 <= q < n && n % q == 0
  {
    var q :| q in {2, 3, 5, 7, 11, 13, 17} && n != q && n % q == 0;
    assert 2 <= q < n && n % q == 0;
  }

  lemma Divided(n: nat, d: nat, e: nat)
    requires 2 <= d && 2 <= e && n == d * e < 361
    ensures !Sieved(n)
  {
    hide Sieved;
    if d <= e {
      assert d <= 18 by { if d >= 19 { Bits.MulMono(19, d, e); } }
      SmallDivisor(n, d, e);
    } else {
      assert e <= 18 by { if e >= 19 { Bits.MulMono(19, e, d); } }
      SmallDivisor(n, e, d);
    }
  }

  predicate NoneBetween(a: nat, b: nat)
    decreases b - a
  {
    a + 1 >= b || (!Sieved(a + 1) && NoneBetween(a + 1, b))
  }

  predicate NextSieved(a: nat, b: nat) {
    1 <= a < b < 361 && Sieved(b) && NoneBetween(a, b)
  }

  lemma {:induction false} NoneMeans(a: nat, b: nat, n: nat)
    requires NoneBetween(a, b) && a < n < b
    ensures !Sieved(n)
    decreases b - a
  {
    hide Sieved;
    if a + 1 < n { NoneMeans(a + 1, b, n); }
  }

  lemma NextIs(a: nat, b: nat)
    requires NextSieved(a, b)
    ensures NextPrime(a, b)
  {
    hide Sieved, Prime, NoneBetween;
    SievedIsPrime(b);
    forall n: nat | a < n < b ensures !Prime(n) {
      SievedIsPrime(n);
      NoneMeans(a, b, n);
    }
  }

  /** The prime before prime t; 1 is before the first one. */
  function Before(t: nat): (p: nat)
    requires t < 64
  {
    if t == 0 then 1 else PRIMES[t - 1]
  }

  // ----- Their roots -----

  /** r and the 32 bits of k after the point are the beginning of the cube root of p. */
  ghost predicate CubeRoot(p: nat, r: nat, k: nat) {
    var x := r * 0x1_0000_0000 + k;
    x * x * x <= p * 0x1_0000_0000_0000_0000_0000_0000 < (x + 1) * (x + 1) * (x + 1)
  }

  /** The same for the square root. */
  ghost predicate SquareRoot(p: nat, r: nat, k: nat) {
    var x := r * 0x1_0000_0000 + k;
    x * x <= p * 0x1_0000_0000_0000_0000 < (x + 1) * (x + 1)
  }

  /** k is the first 32 bits of the fractional part of the cube root. */
  ghost predicate CubeRootBits(p: nat, k: nat) {
    k < 0x1_0000_0000 && exists r: nat :: CubeRoot(p, r, k)
  }

  ghost predicate SquareRootBits(p: nat, k: nat) {
    k < 0x1_0000_0000 && exists r: nat :: SquareRoot(p, r, k)
  }

  ghost predicate RoundConstant(t: nat)
    requires t < 64
  {
    NextPrime(Before(t), PRIMES[t]) && CubeRootBits(PRIMES[t], K()[t] as nat)
  }

  ghost predicate InitialWord(t: nat)
    requires t < 8
  {
    NextPrime(Before(t), PRIMES[t]) && SquareRootBits(PRIMES[t], WordOf(Initial, t) as nat)
  }

  lemma IsRoundConstant(t: nat, a: nat, p: nat, k: Word, r: nat)
    requires t < 64 && Before(t) == a && PRIMES[t] == p && K()[t] == k && NextSieved(a, p) && CubeRoot(p, r, k as nat)
    ensures RoundConstant(t)
  {
    hide K, PRIMES, Before, CubeRoot, NextSieved, NextPrime;
    NextIs(a, p);
  }

  lemma Constants0()
    ensures forall t :: 0 <= t < 4 ==> RoundConstant(t)
  {
    hide RoundConstant;
    IsRoundConstant(0, 1, 2, 0x428a2f98, 1);
    IsRoundConstant(1, 2, 3, 0x71374491, 1);
    IsRoundConstant(2, 3, 5, 0xb5c0fbcf, 1);
    IsRoundConstant(3, 5, 7, 0xe9b5dba5, 1);
  }

  lemma Constants4()
    ensures forall t :: 4 <= t < 8 ==> RoundConstant(t)
  {
    hide RoundConstant;
    IsRoundConstant(4, 7, 11, 0x3956c25b, 2);
    IsRoundConstant(5, 11, 13, 0x59f111f1, 2);
    IsRoundConstant(6, 13, 17, 0x923f82a4, 2);
    IsRoundConstant(7, 17, 19, 0xab1c5ed5, 2);
  }

  lemma Constants8()
    ensures forall t :: 8 <= t < 16 ==> RoundConstant(t)
  {
    hide RoundConstant;
    IsRoundConstant(8, 19, 23, 0xd807aa98, 2);
    IsRoundConstant(9, 23, 29, 0x12835b01, 3);
    IsRoundConstant(10, 29, 31, 0x243185be, 3);
    IsRoundConstant(11, 31, 37, 0x550c7dc3, 3);
    IsRoundConstant(12, 37, 41, 0x72be5d74, 3);
    IsRoundConstant(13, 41, 43, 0x80deb1fe, 3);
    IsRoundConstant(14, 43, 47, 0x9bdc06a7, 3);
    IsRoundConstant(15, 47, 53, 0xc19bf174, 3);
  }

  lemma Constants16()
    ensures forall t :: 16 <= t < 24 ==> RoundConstant(t)
  {
    hide RoundConstant;
    IsRoundConstant(16, 53, 59, 0xe49b69c1, 3);
    IsRoundConstant(17, 59, 61, 0xefbe4786, 3);
    IsRoundConstant(18, 61, 67, 0x0fc19dc6, 4);
    IsRoundConstant(19, 67, 71, 0x240ca1cc, 4);
    IsRoundConstant(20, 71, 73, 0x2de92c6f, 4);
    IsRoundConstant(21, 73, 79, 0x4a7484aa, 4);
    IsRoundConstant(22, 79, 83, 0x5cb0a9dc, 4);
    IsRoundConstant(23, 83, 89, 0x76f988da, 4);
  }

  lemma Constants24()
    ensures forall t :: 24 <= t < 32 ==> RoundConstant(t)
  {
    hide RoundConstant;
    IsRoundConstant(24, 89, 97, 0x983e5152, 4);
    IsRoundConstant(25, 97, 101, 0xa831c66d, 4);
    IsRoundConstant(26, 101, 103, 0xb00327c8, 4);
    IsRoundConstant(27, 103, 107, 0xbf597fc7, 4);
    IsRoundConstant(28, 107, 109, 0xc6e00bf3, 4);
    IsRoundConstant(29, 109, 113, 0xd5a79147, 4);
    IsRoundConstant(30, 113, 127, 0x06ca6351, 5);
    IsRoundConstant(31, 127, 131, 0x14292967, 5);
  }

  lemma Constants32()
    ensures forall t :: 32 <= t < 40 ==> RoundConstant(t)
  {
    hide RoundConstant;
    IsRoundConstant(32, 131, 137, 0x27b70a85, 5);
    IsRoundConstant(33, 137, 139, 0x2e1b2138, 5);
    IsRoundConstant(34, 139, 149, 0x4d2c6dfc, 5);
    IsRoundConstant(35, 149, 151, 0x53380d13, 5);
    IsRoundConstant(36, 151, 157, 0x650a7354, 5);
    IsRoundConstant(37, 157, 163, 0x766a0abb, 5);
    IsRoundConstant(38, 163, 167, 0x81c2c92e, 5);
    IsRoundConstant(39, 167, 173, 0x92722c85, 5);
  }

  lemma Constants40()
    ensures forall t :: 40 <= t < 48 ==> RoundConstant(t)
  {
    hide RoundConstant;
    IsRoundConstant(40, 173, 179, 0xa2bfe8a1, 5);
    IsRoundConstant(41, 179, 181, 0xa81a664b, 5);
    IsRoundConstant(42, 181, 191, 0xc24b8b70, 5);
    IsRoundConstant(43, 191, 193, 0xc76c51a3, 5);
    IsRoundConstant(44, 193, 197, 0xd192e819, 5);
    IsRoundConstant(45, 197, 199, 0xd6990624, 5);
    IsRoundConstant(46, 199, 211, 0xf40e3585, 5);
    IsRoundConstant(47, 211, 223, 0x106aa070, 6);
  }

  lemma Constants48()
    ensures forall t :: 48 <= t < 56 ==> RoundConstant(t)
  {
    hide RoundConstant;
    IsRoundConstant(48, 223, 227, 0x19a4c116, 6);
    IsRoundConstant(49, 227, 229, 0x1e376c08, 6);
    IsRoundConstant(50, 229, 233, 0x2748774c, 6);
    IsRoundConstant(51, 233, 239, 0x34b0bcb5, 6);
    IsRoundConstant(52, 239, 241, 0x391c0cb3, 6);
    IsRoundConstant(53, 241, 251, 0x4ed8aa4a, 6);
    IsRoundConstant(54, 251, 257, 0x5b9cca4f, 6);
    IsRoundConstant(55, 257, 263, 0x682e6ff3, 6);
  }

  lemma Constants56()
    ensures forall t :: 56 <= t < 64 ==> RoundConstant(t)
  {
    hide RoundConstant;
    IsRoundConstant(56, 263, 269, 0x748f82ee, 6);
    IsRoundConstant(57, 269, 271, 0x78a5636f, 6);
    IsRoundConstant(58, 271, 277, 0x84c87814, 6);
    IsRoundConstant(59, 277, 281, 0x8cc70208, 6);
    IsRoundConstant(60, 281, 283, 0x90befffa, 6);
    IsRoundConstant(61, 283, 293, 0xa4506ceb, 6);
    IsRoundConstant(62, 293, 307, 0xbef9a3f7, 6);
    IsRoundConstant(63, 307, 311, 0xc67178f2, 6);
  }

  /** The round constants are the first 32 bits of the fractional parts of the cube roots of the first 64 primes. */
  lemma RoundConstants(t: nat)
    requires t < 64
    ensures NextPrime(Before(t), PRIMES[t]) && CubeRootBits(PRIMES[t], K()[t] as nat)
  {
    assert RoundConstant(t) by {
      hide RoundConstant;
      Constants0();
      Constants4();
      Constants8();
      Constants16();
      Constants24();
      Constants32();
      Constants40();
      Constants48();
      Constants56();
    }
    hide K, PRIMES, Before, CubeRoot, NextPrime;
  }

  lemma IsInitialWord(t: nat, a: nat, p: nat, k: Word, r: nat)
    requires t < 8 && Before(t) == a && PRIMES[t] == p && WordOf(Initial, t) == k && NextSieved(a, p)
    requires SquareRoot(p, r, k as nat)
    ensures InitialWord(t)
  {
    hide WordOf, PRIMES, Before, SquareRoot, NextSieved, NextPrime;
    NextIs(a, p);
  }

  lemma InitialWords0()
    ensures forall t :: 0 <= t < 4 ==> InitialWord(t)
  {
    hide InitialWord;
    IsInitialWord(0, 1, 2, 0x6a09e667, 1);
    IsInitialWord(1, 2, 3, 0xbb67ae85, 1);
    IsInitialWord(2, 3, 5, 0x3c6ef372, 2);
    IsInitialWord(3, 5, 7, 0xa54ff53a, 2);
  }

  lemma InitialWords4()
    ensures forall t :: 4 <= t < 8 ==> InitialWord(t)
  {
    hide InitialWord;
    IsInitialWord(4, 7, 11, 0x510e527f, 3);
    IsInitialWord(5, 11, 13, 0x9b05688c, 3);
    IsInitialWord(6, 13, 17, 0x1f83d9ab, 4);
    IsInitialWord(7, 17, 19, 0x5be0cd19, 4);
  }

  /** And the initial hash those of the square roots of the first eight. */
  lemma InitialHash(t: nat)
    requires t < 8
    ensures NextPrime(Before(t), PRIMES[t]) && SquareRootBits(PRIMES[t], WordOf(Initial, t) as nat)
  {
    assert InitialWord(t) by {
      hide InitialWord;
      InitialWords0();
      InitialWords4();
    }
    hide WordOf, PRIMES, Before, SquareRoot, NextPrime;
  }
}
