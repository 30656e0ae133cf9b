/** Canonical Huffman codes from code lengths (section C.2 of ITU-T T.81), and the loops that assign them. */
module Canonical {
  import opened Bits
  import opened PrefixCodes

  /** The code space, in units of 2^-16, that the first k words take. */
  function Start(lens: seq<nat>, k: nat): nat
    requires k <= |lens| && AtMost16(lens)
  {
    if k == 0 then 0 else Start(lens, k - 1) + Pow2(16 - lens[k - 1])
  }

  predicate AtMost16(lens: seq<nat>) {
    forall i :: 0 <= i < |lens| ==> 1 <= lens[i] <= 16
  }

  /** Ascending lengths of 1 to 16 bits that fit into the code space. */
  ghost predicate CodeLengths(lens: seq<nat>) {
    && AtMost16(lens)
    && (forall i, j :: 0 <= i <= j < |lens| ==> lens[i] <= lens[j])
    && Start(lens, |lens|) <= 0x1_0000
  }

  /** The code of word k: one more than the last code, widened to the new length. */
  function Code(lens: seq<nat>, k: nat): nat
    requires k < |lens|
    requires forall i, j :: 0 <= i <= j < |lens| ==> lens[i] <= lens[j]
  {
    if k == 0 then 0 else (Code(lens, k - 1) + 1) * Pow2(lens[k] - lens[k - 1])
  }

  function CodeBits(lens: seq<nat>, k: nat): (bs: BitString)
    requires k < |lens|
    requires forall i, j :: 0 <= i <= j < |lens| ==> lens[i] <= lens[j]
    ensures |bs| == lens[k]
  {
    Enc(Code(lens, k), lens[k])
  }

  /** The whole code. */
  function Codes(lens: seq<nat>): (codes: seq<BitString>)
    requires forall i, j :: 0 <= i <= j < |lens| ==> lens[i] <= lens[j]
    ensures |codes| == |lens|
    ensures forall k :: 0 <= k < |codes| ==> codes[k] == CodeBits(lens, k)
  {
    seq(|lens|, k requires 0 <= k < |lens| => CodeBits(lens, k))
  }

  /** Code k, as a fraction of the code space, is where the words before it end. */
  lemma {:induction false} CodeIsStart(lens: seq<nat>, k: nat)
    requires CodeLengths(lens) && k < |lens|
    ensures Code(lens, k) * Pow2(16 - lens[k]) == Start(lens, k)
  {
    if k > 0 {
      CodeIsStart(lens, k - 1);
      var c, d, e := Code(lens, k - 1), lens[k] - lens[k - 1], 16 - lens[k];
      Pow2Add(d, e);
      MulAssoc(c + 1, Pow2(d), Pow2(e));
      MulDistr(c, 1, Pow2(16 - lens[k - 1]));
    }
  }

  lemma {:induction false} StartMono(lens: seq<nat>, j: nat, k: nat)
    requires AtMost16(lens) && j <= k <= |lens|
    ensures Start(lens, j) <= Start(lens, k)
    ensures j < k ==> Start(lens, j) < Start(lens, k)
    decreases k
  {
    if j < k { StartMono(lens, j, k - 1); }
  }

  lemma CodeFits(lens: seq<nat>, k: nat)
    requires CodeLengths(lens) && k < |lens|
    ensures (Code(lens, k) + 1) * Pow2(16 - lens[k]) == Start(lens, k + 1) <= 0x1_0000
    ensures Code(lens, k) + 1 <= Pow2(lens[k])
    ensures Val(CodeBits(lens, k)) == Code(lens, k)
  {
    hide Code;
    CodeIsStart(lens, k);
    StartMono(lens, k + 1, |lens|);
    CodeRoom(Code(lens, k), lens[k], Start(lens, k + 1));
    ValEnc(Code(lens, k), lens[k]);
  }

  lemma CodeRoom(c: nat, l: nat, end: nat)
    requires l <= 16 && end == c * Pow2(16 - l) + Pow2(16 - l) <= 0x1_0000
    ensures (c + 1) * Pow2(16 - l) == end && c + 1 <= Pow2(l)
  {
    Pow2Add(l, 16 - l);
    Pow2Values();
    FitsArithmetic(c, Pow2(l), Pow2(16 - l), end);
  }

  lemma FitsArithmetic(c: nat, p: nat, q: nat, end: nat)
    requires q >= 1 && end == c * q + q <= p * q
    ensures (c + 1) * q == end && c + 1 <= p
  {
    MulDistr(c, 1, q);
    if c + 1 > p { MulMono(p + 1, c + 1, q); MulDistr(p, 1, q); assert false; }
  }

  /** Canonical codes are prefix codes. */
  lemma CodesPrefixFree(lens: seq<nat>)
    requires CodeLengths(lens)
    ensures PrefixFree(Codes(lens))
  {
    hide Start, Code, CodeBits;
    forall i, j | 0 <= i < |lens| && 0 <= j < |lens| && i != j ensures !(CodeBits(lens, i) <= CodeBits(lens, j)) {
      if CodeBits(lens, i) <= CodeBits(lens, j) {
        if i < j {
          NotPrefix(lens, i, j);
        } else {
          assert lens[i] == lens[j];
          assert CodeBits(lens, j) == CodeBits(lens, i)[..lens[j]];
          NotPrefix(lens, j, i);
        }
        assert false;
      }
    }
  }

  lemma LengthsAscend(lens: seq<nat>, j: nat, k: nat)
    requires CodeLengths(lens) && j < k < |lens|
    ensures forall a, b :: 0 <= a <= b < |lens| ==> lens[a] <= lens[b]
    ensures AtMost16(lens) && 1 <= lens[j] <= lens[k] <= 16 && |CodeBits(lens, j)| == lens[j]
        && |CodeBits(lens, k)| == lens[k]
  {
    hide Code, Start;
  }

  lemma NotPrefix(lens: seq<nat>, j: nat, k: nat)
    requires CodeLengths(lens) && j < k < |lens|
    ensures !(CodeBits(lens, j) <= CodeBits(lens, k))
  {
    hide *;
    LengthsAscend(lens, j, k);
    CodeFits(lens, j);
    CodeFits(lens, k);
    CodeIsStart(lens, k);
    StartMono(lens, j + 1, k);
    if CodeBits(lens, j) <= CodeBits(lens, k) {
      PrefixBelow(CodeBits(lens, j), CodeBits(lens, k), 16 - lens[k]);
      assert false;
    }
  }

  lemma PrefixBelow(a: BitString, b: BitString, e: nat)
    requires a <= b
    ensures Val(b) * Pow2(e) < (Val(a) + 1) * Pow2(|b| - |a| + e)
  {
    assert b[..|a|] == a;
    ValSplit(b, |a|);
    Pow2Add(|b| - |a|, e);
    BelowNext(Val(a), Val(b), Val(b[|a|..]), Pow2(|b| - |a|), Pow2(e));
  }

  lemma BelowNext(c: nat, x: nat, r: nat, p: nat, q: nat)
    requires q >= 1 && r < p && x == c * p + r
    ensures x * q < (c + 1) * (p * q)
  {
    MulDistr(c, 1, p);
    MulMono(x + 1, (c + 1) * p, q);
    MulDistr(x, 1, q);
    MulAssoc(c + 1, p, q);
  }

  /** A word is all ones exactly when the code space ends with it. */
  lemma AllOnes(lens: seq<nat>, k: nat)
    requires CodeLengths(lens) && k < |lens|
    ensures (forall i :: 0 <= i < lens[k] ==> CodeBits(lens, k)[i]) <==> Start(lens, k + 1) == 0x1_0000
  {
    hide Start, Code, CodeBits;
    var n := lens[k];
    CodeFits(lens, k);
    OnesValue(CodeBits(lens, k));
    Pow2Add(n, 16 - n);
    Pow2Values();
    if Code(lens, k) + 1 < Pow2(n) {
      MulMono(Code(lens, k) + 2, Pow2(n), Pow2(16 - n));
      MulDistr(Code(lens, k) + 1, 1, Pow2(16 - n));
    }
  }

  lemma {:induction false} OnesValue(bs: BitString)
    ensures (forall i :: 0 <= i < |bs| ==> bs[i]) <==> Val(bs) + 1 == Pow2(|bs|)
  {
    if bs != [] {
      var b' := bs[..|bs| - 1];
      OnesValue(b');
      if forall i :: 0 <= i < |b'| ==> b'[i] {
        assert forall i :: 0 <= i < |b'| ==> bs[i] == b'[i];
      } else {
        assert exists i :: 0 <= i < |b'| && !bs[i];
      }
    }
  }

  // ----- Lengths from counts -----

  function Repeat(x: nat, n: nat): (s: seq<nat>)
    ensures |s| == n
    ensures forall i :: 0 <= i < n ==> s[i] == x
  {
    seq(n, _ => x)
  }

  /** counts[l] words of each length l from 1 to k. */
  function Lens(counts: seq<nat>, k: nat): seq<nat>
    requires k < |counts|
  {
    if k == 0 then [] else Lens(counts, k - 1) + Repeat(k, counts[k])
  }

  lemma {:induction false} LensOrder(counts: seq<nat>, k: nat)
    requires k < |counts| && k <= 16
    ensures AtMost16(Lens(counts, k))
    ensures forall i :: 0 <= i < |Lens(counts, k)| ==> Lens(counts, k)[i] <= k
    ensures forall i, j :: 0 <= i <= j < |Lens(counts, k)| ==> Lens(counts, k)[i] <= Lens(counts, k)[j]
  {
    if k > 0 { LensOrder(counts, k - 1); }
  }

  lemma {:induction false} StartAppend(a: seq<nat>, b: seq<nat>, k: nat)
    requires AtMost16(a) && AtMost16(a + b) && k <= |a|
    ensures Start(a + b, k) == Start(a, k)
  {
    if k > 0 { StartAppend(a, b, k - 1); }
  }

  lemma {:induction false} StartRepeat(a: seq<nat>, x: nat, n: nat)
    requires AtMost16(a) && 1 <= x <= 16
    ensures AtMost16(a + Repeat(x, n))
    ensures Start(a + Repeat(x, n), |a| + n) == Start(a, |a|) + n * Pow2(16 - x)
  {
    if n == 0 {
      assert a + Repeat(x, 0) == a;
    } else {
      StartRepeat(a, x, n - 1);
      assert a + Repeat(x, n) == (a + Repeat(x, n - 1)) + [x];
      StartAppend(a + Repeat(x, n - 1), [x], |a| + n - 1);
      MulDistr(n - 1, 1, Pow2(16 - x));
    }
  }

  lemma {:induction false} LensMono(counts: seq<nat>, j: nat, k: nat)
    requires j <= k < |counts|
    ensures |Lens(counts, j)| <= |Lens(counts, k)|
    decreases k
  {
    if j < k { LensMono(counts, j, k - 1); }
  }

  /** `code` is what word p's code still has to be widened from. */
  ghost predicate Widening(lens: seq<nat>, p: nat, si: nat, code: nat) {
    && AtMost16(lens) && (forall i, j :: 0 <= i <= j < |lens| ==> lens[i] <= lens[j])
    && p <= |lens|
    && (p < |lens| ==> si <= lens[p] && code * Pow2(lens[p] - si) == Code(lens, p))
  }

  lemma WideningNext(lens: seq<nat>, p: nat, si: nat, code: nat)
    requires Widening(lens, p, si, code) && p < |lens| && lens[p] == si
    ensures code == Code(lens, p) && Widening(lens, p + 1, si, code + 1)
  {
    assert Pow2(0) == 1;
  }

  lemma WideningStep(lens: seq<nat>, p: nat, si: nat, code: nat)
    requires Widening(lens, p, si, code) && (p < |lens| ==> lens[p] != si)
    ensures Widening(lens, p, si + 1, code * 2)
  {
    if p < |lens| { MulAssoc(code, 2, Pow2(lens[p] - si - 1)); }
  }

  lemma WideningFirst(lens: seq<nat>)
    requires AtMost16(lens) && forall i, j :: 0 <= i <= j < |lens| ==> lens[i] <= lens[j]
    ensures Widening(lens, 0, if lens == [] then 0 else lens[0], 0)
  {
  }

  lemma CodeWidens(lens: seq<nat>, p: nat, si: nat, code: nat)
    requires CodeLengths(lens) && p < |lens| && Widening(lens, p, si, code)
    ensures si <= lens[p] <= 16 && Pow2(lens[p] - si) * code == Code(lens, p) && Pow2(lens[p] - si) >= 1
  {
    hide Code, Start;
  }

  /** While words are left, the code stays below 2^16. */
  lemma WideningSmall(lens: seq<nat>, p: nat, si: nat, code: nat)
    requires CodeLengths(lens) && p < |lens| && Widening(lens, p, si, code)
    ensures code < 0x1_0000
  {
    hide *;
    CodeFits(lens, p);
    CodeWidens(lens, p, si, code);
    Pow2Mono(lens[p], 16);
    Pow2Values();
    MulMono(1, Pow2(lens[p] - si), code);
  }
}
