/** How much of jpgd's decoding tree a canonical code takes, from its counts alone. */
module TreeRoom {
  import opened Bits
  import opened Canonical
  import opened CodeTrees
  import opened HuffTables

  /** The code space, in units of 2^-16, of the words of at most t bits. */
  function Space(counts: seq<nat>, t: nat): nat
    requires t < |counts| && t <= 16
  {
    if t == 0 then 0 else Space(counts, t - 1) + counts[t] * Pow2(16 - t)
  }

  lemma {:induction false} SpaceIsStart(counts: seq<nat>, t: nat)
    requires t < |counts| && t <= 16
    ensures AtMost16(Lens(counts, t)) && Start(Lens(counts, t), |Lens(counts, t)|) == Space(counts, t)
  {
    LensOrder(counts, t);
    if t > 0 {
      SpaceIsStart(counts, t - 1);
      StartRepeat(Lens(counts, t - 1), t, counts[t]);
    }
  }

  /** The first prefix of t bits that the longer words can have. */
  function FirstPrefix(counts: seq<nat>, t: nat): nat
    requires t < |counts| && t <= 16
  {
    Quotient(Space(counts, t), Pow2(16 - t))
  }

  function Quotient(a: nat, d: nat): nat
    requires d > 0
  {
    a / d
  }

  /** One past the last prefix of t bits that the longer words have. */
  function EndPrefix(counts: seq<nat>, t: nat): nat
    requires |counts| == 17 && t <= 16
  {
    Ceiling(Space(counts, 16), Pow2(16 - t))
  }

  function Ceiling(a: nat, d: nat): nat
    requires d > 0
  {
    (a + d - 1) / d
  }

  /** So many prefixes of 8 up to t - 1 bits do longer words have. */
  function Room(counts: seq<nat>, t: nat): int
    requires |counts| == 17 && 8 <= t <= 16
  {
    if t == 8 then 0 else Room(counts, t - 1) + EndPrefix(counts, t - 1) - FirstPrefix(counts, t - 1)
  }

  /** The prefix of t bits of a longer word comes after all words of at most t bits, and before the end. */
  lemma PrefixAfter(counts: seq<nat>, k: nat, t: nat)
    requires |counts| == 17 && CodeLengths(Lens(counts, 16)) && k < |Lens(counts, 16)| && 1 <= t < Lens(counts, 16)[k]
    ensures FirstPrefix(counts, t) <= Val(CodeBits(Lens(counts, 16), k)[..t]) < EndPrefix(counts, t)
  {
    var lens := Lens(counts, 16);
    assert lens[k] <= 16;
    ShortSpace(counts, k, t);
    PlaceOfPrefix(lens, k, t);
    SpaceIsStart(counts, 16);
    StartMono(lens, k + 1, |lens|);
    StartMono(lens, k, k + 1);
    hide *;
    DivLower(Space(counts, t), Start(lens, k), Val(CodeBits(lens, k)[..t]), Pow2(16 - t));
    BelowCeiling(Val(CodeBits(lens, k)[..t]), Space(counts, 16), Pow2(16 - t));
    FirstIs(counts, t);
  }

  lemma FirstIs(counts: seq<nat>, t: nat)
    requires |counts| == 17 && t <= 16
    ensures FirstPrefix(counts, t) == Space(counts, t) / Pow2(16 - t)
    ensures EndPrefix(counts, t) == Ceiling(Space(counts, 16), Pow2(16 - t))
  {
    hide Space, Ceiling;
  }

  lemma BelowCeiling(q: nat, a: nat, d: nat)
    requires d > 0
    ensures q < Ceiling(a, d) <==> q * d < a
  {
    var c := Ceiling(a, d);
    var r := (a + d - 1) % d;
    assert a + d - 1 == c * d + r;
    if q < c { MulMono(q + 1, c, d); MulDistr(q, 1, d); }
    if q >= c { MulMono(c, q, d); }
  }

  /** The words of at most t bits lie before a longer word. */
  lemma ShortSpace(counts: seq<nat>, k: nat, t: nat)
    requires |counts| == 17 && CodeLengths(Lens(counts, 16)) && k < |Lens(counts, 16)|
        && 1 <= t < Lens(counts, 16)[k] <= 16
    ensures Space(counts, t) <= Start(Lens(counts, 16), k)
  {
    var lens := Lens(counts, 16);
    ShortWordsFirst(counts, t, 16);
    var n := |Lens(counts, t)|;
    assert n <= k;
    hide Lens, Start, Space;
    SpaceBefore(counts, t);
    StartMono(lens, n, k);
  }

  lemma PlaceOfPrefix(lens: seq<nat>, k: nat, t: nat)
    requires CodeLengths(lens) && k < |lens| && 1 <= t < lens[k] <= 16
    ensures var v := Val(CodeBits(lens, k)[..t]);
      v * Pow2(16 - t) <= Start(lens, k) < Start(lens, k + 1) <= (v + 1) * Pow2(16 - t)
  {
    hide *;
    WordFacts(lens, k);
    var bits := CodeBits(lens, k);
    CodeFits(lens, k);
    CodeIsStart(lens, k);
    StartMono(lens, k, k + 1);
    ValSplit(bits, t);
    PrefixSpace(Val(bits[..t]), Val(bits[t..]), Code(lens, k), lens[k], t);
  }

  lemma WordFacts(lens: seq<nat>, k: nat)
    requires CodeLengths(lens) && k < |lens|
    ensures AtMost16(lens) && forall i, j :: 0 <= i <= j < |lens| ==> lens[i] <= lens[j]
    ensures |CodeBits(lens, k)| == lens[k] && Val(CodeBits(lens, k)) == Code(lens, k)
  {
    CodeFits(lens, k);
  }

  lemma DivLower(a: nat, b: nat, q: nat, d: nat)
    requires d > 0 && a <= b < (q + 1) * d
    ensures a / d <= q
  {
    if a / d >= q + 1 { MulMono(q + 1, a / d, d); assert false; }
  }

  /** A word's place in the code space lies within that of its prefix. */
  lemma PrefixSpace(hi: nat, lo: nat, code: nat, len: nat, t: nat)
    requires t <= len <= 16 && code == hi * Pow2(len - t) + lo && lo < Pow2(len - t)
    ensures hi * Pow2(16 - t) <= code * Pow2(16 - len) && (code + 1) * Pow2(16 - len) <= (hi + 1) * Pow2(16 - t)
  {
    hide *;
    var p, q := Pow2(len - t), Pow2(16 - len);
    Pow2Add(len - t, 16 - len);
    MulAssoc(hi, p, q);
    MulAssoc(hi + 1, p, q);
    MulMono(hi * p, code, q);
    MulDistr(hi, 1, p);
    MulMono(code + 1, (hi + 1) * p, q);
  }

  lemma SpaceBefore(counts: seq<nat>, t: nat)
    requires |counts| == 17 && t <= 16 && CodeLengths(Lens(counts, 16))
    ensures |Lens(counts, t)| <= |Lens(counts, 16)|
    ensures Start(Lens(counts, 16), |Lens(counts, t)|) == Space(counts, t)
  {
    SpaceIsStart(counts, t);
    LensAppend(counts, t, 16);
    var rest := Lens(counts, 16)[|Lens(counts, t)|..];
    assert Lens(counts, 16) == Lens(counts, t) + rest;
    StartAppend(Lens(counts, t), rest, |Lens(counts, t)|);
  }

  lemma {:induction false} LensAppend(counts: seq<nat>, t: nat, u: nat)
    requires t <= u < |counts|
    ensures |Lens(counts, t)| <= |Lens(counts, u)| && Lens(counts, u)[..|Lens(counts, t)|] == Lens(counts, t)
    decreases u
  {
    if t < u { LensAppend(counts, t, u - 1); }
  }

  /** Words of more than t bits come after those of at most t bits. */
  lemma ShortWordsFirst(counts: seq<nat>, t: nat, u: nat)
    requires t <= u < |counts| && u <= 16
    ensures |Lens(counts, t)| <= |Lens(counts, u)|
    ensures forall k :: 0 <= k < |Lens(counts, t)| ==> Lens(counts, u)[k] <= t
  {
    LensAppend(counts, t, u);
    LensOrder(counts, t);
    forall k | 0 <= k < |Lens(counts, t)| ensures Lens(counts, u)[k] <= t {
      assert Lens(counts, u)[..|Lens(counts, t)|][k] == Lens(counts, t)[k];
    }
  }

  // ----- Counting nodes by length -----

  /** The nodes of t bits, as numbers. */
  function OfLength(nodes: seq<BitString>, t: nat): (vs: seq<nat>) {
    if nodes == [] then []
    else (if |nodes[0]| == t then [Val(nodes[0])] else []) + OfLength(nodes[1..], t)
  }

  /** How many nodes have 8 up to t - 1 bits. */
  function CountBelow(nodes: seq<BitString>, t: nat): nat
    requires 8 <= t
    decreases t
  {
    if t == 8 then 0 else CountBelow(nodes, t - 1) + |OfLength(nodes, t - 1)|
  }

  lemma {:induction false} CountStep(nodes: seq<BitString>, t: nat)
    requires 8 <= t && nodes != []
    ensures CountBelow(nodes, t) == CountBelow(nodes[1..], t) + if 8 <= |nodes[0]| < t then 1 else 0
  {
    if t > 8 { CountStep(nodes, t - 1); }
  }

  lemma {:induction false} CountAll(nodes: seq<BitString>)
    requires forall j :: 0 <= j < |nodes| ==> 8 <= |nodes[j]| < 16
    ensures CountBelow(nodes, 16) == |nodes|
  {
    if nodes == [] {
      CountNone(16);
    } else {
      CountStep(nodes, 16);
      CountAll(nodes[1..]);
    }
  }

  lemma {:induction false} CountNone(t: nat)
    requires 8 <= t
    ensures CountBelow([], t) == 0
  {
    if t > 8 { CountNone(t - 1); }
  }

  lemma {:induction false} OfLengthFrom(nodes: seq<BitString>, t: nat, v: nat)
    requires v in OfLength(nodes, t)
    ensures exists j :: 0 <= j < |nodes| && |nodes[j]| == t && Val(nodes[j]) == v
  {
    hide Val;
    if |nodes[0]| != t || Val(nodes[0]) != v {
      OfLengthFrom(nodes[1..], t, v);
      var j :| 0 <= j < |nodes[1..]| && |nodes[1..][j]| == t && Val(nodes[1..][j]) == v;
      assert nodes[j + 1] == nodes[1..][j];
    }
  }

  lemma {:induction false} OfLengthDistinct(nodes: seq<BitString>, t: nat)
    requires forall i, j :: 0 <= i < j < |nodes| ==> nodes[i] != nodes[j]
    ensures forall i, j :: 0 <= i < j < |OfLength(nodes, t)| ==> OfLength(nodes, t)[i] != OfLength(nodes, t)[j]
  {
    hide Val;
    if nodes != [] {
      OfLengthDistinct(nodes[1..], t);
      var rest := OfLength(nodes[1..], t);
      if |nodes[0]| == t && Val(nodes[0]) in rest {
        OfLengthFrom(nodes[1..], t, Val(nodes[0]));
        var j :| 0 <= j < |nodes[1..]| && |nodes[1..][j]| == t && Val(nodes[1..][j]) == Val(nodes[0]);
        ValInjective(nodes[0], nodes[1..][j]);
        assert false;
      }
    }
  }

  lemma AtMostRange(vs: seq<nat>, lo: nat, hi: nat)
    requires lo <= hi && forall i :: 0 <= i < |vs| ==> lo <= vs[i] < hi
    requires forall i, j :: 0 <= i < j < |vs| ==> vs[i] != vs[j]
    ensures |vs| <= hi - lo
  {
    var range: seq<nat> := seq(hi - lo, i => lo + i);
    forall i | 0 <= i < |vs| ensures vs[i] in range {
      assert range[vs[i] - lo] == vs[i];
    }
    NoMoreThan(vs, range);
  }

  /** Nodes of one length are at most as many as the prefixes that longer words have. */
  lemma LengthRoom(counts: seq<nat>, nodes: seq<BitString>, t: nat)
    requires |counts| == 17 && CodeLengths(Lens(counts, 16)) && 8 <= t < 16
    requires var codes := Codes(Lens(counts, 16)); Nodes(codes, |codes|, nodes)
    ensures |OfLength(nodes, t)| <= EndPrefix(counts, t) - FirstPrefix(counts, t)
  {
    var lens := Lens(counts, 16);
    var vs, first, end := OfLength(nodes, t), FirstPrefix(counts, t), EndPrefix(counts, t);
    hide Lens, CodeBits, OfLength, FirstPrefix, EndPrefix, Val;
    forall i | 0 <= i < |vs| ensures first <= vs[i] < end {
      assert vs[i] in vs;
      NodeAfter(counts, nodes, t, vs[i]);
    }
    OfLengthDistinct(nodes, t);
    FirstBeforeEnd(counts, t);
    AtMostRange(vs, first, end);
  }

  /** The words of at most t bits fill whole places of prefixes of t bits. */
  lemma {:induction false} SpaceDivides(counts: seq<nat>, t: nat, u: nat)
    requires t <= u <= 16 < |counts|
    ensures Space(counts, t) == Quotient(Space(counts, t), Pow2(16 - u)) * Pow2(16 - u)
  {
    var d := Pow2(16 - u);
    if t > 0 {
      SpaceDivides(counts, t - 1, u);
      Pow2Add(u - t, 16 - u);
      var q := Quotient(Space(counts, t - 1), d);
      MulAssoc(counts[t], Pow2(u - t), d);
      MulDistr(q, counts[t] * Pow2(u - t), d);
      DivMod(q + counts[t] * Pow2(u - t), 0, d);
    }
  }

  lemma {:induction false} SpaceMono(counts: seq<nat>, t: nat, u: nat)
    requires t <= u <= 16 < |counts|
    ensures Space(counts, t) <= Space(counts, u)
    decreases u
  {
    if t < u { SpaceMono(counts, t, u - 1); }
  }

  lemma FirstBeforeEnd(counts: seq<nat>, t: nat)
    requires |counts| == 17 && t <= 16
    ensures FirstPrefix(counts, t) <= EndPrefix(counts, t)
  {
    hide *;
    SpaceMono(counts, t, 16);
    FirstIs(counts, t);
    QuotientBelow(Space(counts, t), Space(counts, 16), Pow2(16 - t));
  }

  lemma QuotientBelow(a: nat, b: nat, d: nat)
    requires d > 0 && a <= b
    ensures a / d <= Ceiling(b, d)
  {
    if a / d > 0 { BelowCeiling(a / d - 1, b, d); MulDistr(a / d - 1, 1, d); }
  }

  lemma NodeAfter(counts: seq<nat>, nodes: seq<BitString>, t: nat, v: nat)
    requires |counts| == 17 && CodeLengths(Lens(counts, 16)) && 8 <= t < 16
    requires var codes := Codes(Lens(counts, 16)); Nodes(codes, |codes|, nodes)
    requires v in OfLength(nodes, t)
    ensures FirstPrefix(counts, t) <= v < EndPrefix(counts, t)
  {
    hide Lens, CodeBits, Code, Start, FirstPrefix, EndPrefix, Val, OfLength, Nodes;
    var lens := Lens(counts, 16);
    OfLengthFrom(nodes, t, v);
    var j :| 0 <= j < |nodes| && |nodes[j]| == t && Val(nodes[j]) == v;
    var k := NodePrefix(Codes(lens), nodes, j);
    PrefixAfter(counts, k, t);
  }

  /** A word that a node is a proper prefix of. */
  lemma NodePrefix(codes: seq<BitString>, nodes: seq<BitString>, j: nat) returns (k: nat)
    requires Nodes(codes, |codes|, nodes) && j < |nodes|
    ensures k < |codes| && |nodes[j]| < |codes[k]| && nodes[j] == codes[k][..|nodes[j]|]
  {
    assert ProperPrefix(codes, |codes|, nodes[j]);
    k :| 0 <= k < |codes| && |nodes[j]| < |codes[k]| && nodes[j] <= codes[k];
  }

  lemma {:induction false} NodesRoom(counts: seq<nat>, nodes: seq<BitString>, t: nat)
    requires |counts| == 17 && CodeLengths(Lens(counts, 16)) && 8 <= t <= 16
    requires var codes := Codes(Lens(counts, 16)); Nodes(codes, |codes|, nodes)
    ensures CountBelow(nodes, t) <= Room(counts, t)
    decreases t
  {
    hide Lens, Codes, Nodes, FirstPrefix, EndPrefix;
    if t > 8 {
      NodesRoom(counts, nodes, t - 1);
      LengthRoom(counts, nodes, t - 1);
    }
  }

  // ----- The prefixes themselves -----

  function PrefixesOf(counts: seq<nat>, t: nat): (ps: seq<BitString>)
    requires |counts| == 17 && t <= 16
  {
    var first, end := FirstPrefix(counts, t), EndPrefix(counts, t);
    if first <= end then seq(end - first, i requires 0 <= i => Enc(first + i, t)) else []
  }

  function AllPrefixes(counts: seq<nat>, t: nat): seq<BitString>
    requires |counts| == 17 && 8 <= t <= 16
  {
    if t == 8 then [] else AllPrefixes(counts, t - 1) + PrefixesOf(counts, t - 1)
  }

  ghost predicate IsPrefix(counts: seq<nat>, t: nat, b: BitString)
    requires |counts| == 17
  {
    |b| == t <= 16 && FirstPrefix(counts, t) <= Val(b) < EndPrefix(counts, t)
  }

  lemma EndBound(counts: seq<nat>, t: nat)
    requires |counts| == 17 && CodeLengths(Lens(counts, 16)) && t <= 16
    ensures EndPrefix(counts, t) <= Pow2(t)
  {
    SpaceIsStart(counts, 16);
    assert Space(counts, 16) <= 0x1_0000;
    hide *;
    Pow2Add(t, 16 - t);
    Pow2Values();
    FirstIs(counts, t);
    BelowCeiling(Pow2(t), Space(counts, 16), Pow2(16 - t));
  }

  lemma PrefixesAre(counts: seq<nat>, t: nat)
    requires |counts| == 17 && CodeLengths(Lens(counts, 16)) && t <= 16
    ensures |PrefixesOf(counts, t)| == EndPrefix(counts, t) - FirstPrefix(counts, t)
    ensures forall b :: b in PrefixesOf(counts, t) <==> IsPrefix(counts, t, b)
    ensures forall i, j :: 0 <= i < j < |PrefixesOf(counts, t)| ==> PrefixesOf(counts, t)[i] != PrefixesOf(counts, t)[j]
  {
    hide *;
    FirstBeforeEnd(counts, t);
    PrefixesLength(counts, t);
    var ps, first := PrefixesOf(counts, t), FirstPrefix(counts, t);
    forall i | 0 <= i < |ps| ensures IsPrefix(counts, t, ps[i]) && Val(ps[i]) == first + i {
      PrefixIs(counts, t, i);
    }
    forall b | IsPrefix(counts, t, b) ensures b in ps {
      PrefixThere(counts, t, b);
    }
  }

  lemma PrefixesLength(counts: seq<nat>, t: nat)
    requires |counts| == 17 && t <= 16 && FirstPrefix(counts, t) <= EndPrefix(counts, t)
    ensures |PrefixesOf(counts, t)| == EndPrefix(counts, t) - FirstPrefix(counts, t)
    ensures forall i :: 0 <= i < |PrefixesOf(counts, t)| ==>
        PrefixesOf(counts, t)[i] == Enc(FirstPrefix(counts, t) + i, t)
  {
    hide FirstPrefix, EndPrefix, Enc;
  }

  lemma PrefixIs(counts: seq<nat>, t: nat, i: nat)
    requires |counts| == 17 && CodeLengths(Lens(counts, 16)) && t <= 16 && i < |PrefixesOf(counts, t)|
    ensures IsPrefix(counts, t, PrefixesOf(counts, t)[i]) && Val(PrefixesOf(counts, t)[i]) == FirstPrefix(counts, t) + i
  {
    hide FirstPrefix, EndPrefix, Enc, Val, Pow2, CodeLengths, Lens, PrefixesOf;
    EndBound(counts, t);
    FirstBeforeEnd(counts, t);
    PrefixesLength(counts, t);
    ValEnc(FirstPrefix(counts, t) + i, t);
  }

  lemma PrefixThere(counts: seq<nat>, t: nat, b: BitString)
    requires |counts| == 17 && t <= 16 && IsPrefix(counts, t, b)
    ensures b in PrefixesOf(counts, t)
  {
    hide FirstPrefix, EndPrefix, Enc, Val, Pow2, PrefixesOf;
    PrefixesLength(counts, t);
    EncVal(b);
    assert PrefixesOf(counts, t)[Val(b) - FirstPrefix(counts, t)] == b;
  }

  lemma {:induction false} AllPrefixesAre(counts: seq<nat>, t: nat)
    requires |counts| == 17 && CodeLengths(Lens(counts, 16)) && 8 <= t <= 16
    ensures |AllPrefixes(counts, t)| == Room(counts, t)
    ensures forall b :: b in AllPrefixes(counts, t) <==> 8 <= |b| < t && IsPrefix(counts, |b|, b)
    ensures forall i, j :: 0 <= i < j < |AllPrefixes(counts, t)| ==>
        AllPrefixes(counts, t)[i] != AllPrefixes(counts, t)[j]
    decreases t
  {
    hide Lens, CodeLengths, FirstPrefix, EndPrefix, PrefixesOf;
    if t > 8 {
      AllPrefixesAre(counts, t - 1);
      PrefixesAre(counts, t - 1);
      var a, b := AllPrefixes(counts, t - 1), PrefixesOf(counts, t - 1);
      forall i, j | 0 <= i < |a| && 0 <= j < |b| ensures a[i] != b[j] {
        assert a[i] in a && b[j] in b;
        assert IsPrefix(counts, t - 1, b[j]);
      }
    }
  }

  /** The word that a place in the code space belongs to. */
  lemma {:induction false} WordAt(lens: seq<nat>, n: nat, x: nat) returns (k: nat)
    requires AtMost16(lens) && n < |lens| && Start(lens, n) <= x < Start(lens, |lens|)
    ensures n <= k < |lens| && Start(lens, k) <= x < Start(lens, k + 1)
    decreases |lens| - n
  {
    hide Start;
    if x < Start(lens, n + 1) || n + 1 == |lens| { return n; }
    k := WordAt(lens, n + 1, x);
  }

  /** Words that come after those of at most t bits are longer. */
  lemma {:induction false} LongWordsAfter(counts: seq<nat>, t: nat, u: nat, k: nat)
    requires t <= u < |counts| && |Lens(counts, t)| <= k < |Lens(counts, u)|
    ensures Lens(counts, u)[k] > t
    decreases u
  {
    if t < u && k < |Lens(counts, u - 1)| { LongWordsAfter(counts, t, u - 1, k); }
  }

  /** Every number in the range is a prefix of a longer word. */
  lemma IsReached(counts: seq<nat>, t: nat, b: BitString) returns (k: nat)
    requires |counts| == 17 && CodeLengths(Lens(counts, 16)) && 1 <= t < 16 && IsPrefix(counts, t, b)
    ensures k < |Lens(counts, 16)| && Lens(counts, 16)[k] > t && CodeBits(Lens(counts, 16), k)[..t] == b
  {
    var lens, n, d := Lens(counts, 16), |Lens(counts, t)|, Pow2(16 - t);
    var x := Val(b) * d;
    assert AtMost16(lens);
    SpaceBefore(counts, t);
    SpaceIsStart(counts, 16);
    hide Lens, CodeBits, Start, Space, Val, Pow2;
    PlaceInRange(counts, t, Val(b));
    k := WordAt(lens, n, x);
    LongWordsAfter(counts, t, 16, k);
    PlaceOfPrefix(lens, k, t);
    SamePlace(Val(b), Val(CodeBits(lens, k)[..t]), Start(lens, k), Start(lens, k + 1), d);
    ValInjective(b, CodeBits(lens, k)[..t]);
  }

  lemma PlaceInRange(counts: seq<nat>, t: nat, v: nat)
    requires |counts| == 17 && t <= 16 && FirstPrefix(counts, t) <= v < EndPrefix(counts, t)
    ensures Space(counts, t) <= v * Pow2(16 - t) < Space(counts, 16)
  {
    hide *;
    FirstIs(counts, t);
    BelowCeiling(v, Space(counts, 16), Pow2(16 - t));
    SpaceDivides(counts, t, t);
    QuotientIs(Space(counts, t), Pow2(16 - t));
    MulMono(FirstPrefix(counts, t), v, Pow2(16 - t));
  }

  lemma QuotientIs(a: nat, d: nat)
    requires d > 0
    ensures Quotient(a, d) == a / d
  {
  }

  lemma SamePlace(v: nat, p: nat, start: nat, next: nat, d: nat)
    requires p * d <= start <= v * d < next <= (p + 1) * d
    ensures v == p
  {
    if v > p { MulMono(p + 1, v, d); }
    if v < p { MulMono(v + 1, p, d); MulDistr(v, 1, d); }
  }

  /** These are nodes: all proper prefixes of 8 bits and more. */
  lemma PrefixesAreNodes(counts: seq<nat>)
    requires |counts| == 17 && CodeLengths(Lens(counts, 16))
    ensures var codes := Codes(Lens(counts, 16)); Nodes(codes, |codes|, AllPrefixes(counts, 16))
  {
    var codes, nodes := Codes(Lens(counts, 16)), AllPrefixes(counts, 16);
    AllPrefixesAre(counts, 16);
    hide Lens, CodeLengths, FirstPrefix, EndPrefix, AllPrefixes, CodeBits, IsPrefix, Val;
    forall j | 0 <= j < |nodes|
      ensures 8 <= |nodes[j]| < 16 && ProperPrefix(codes, |codes|, nodes[j])
      ensures |nodes[j]| > 8 ==> nodes[j][..|nodes[j]| - 1] in nodes
    {
      var b := nodes[j];
      assert b in nodes;
      var k := IsReached(counts, |b|, b);
      assert b <= codes[k];
      if |b| > 8 { ParentIsPrefix(counts, k, b); }
    }
  }

  lemma ParentIsPrefix(counts: seq<nat>, k: nat, b: BitString)
    requires |counts| == 17 && CodeLengths(Lens(counts, 16)) && k < |Lens(counts, 16)| && 8 < |b| < Lens(counts, 16)[k]
    requires CodeBits(Lens(counts, 16), k)[..|b|] == b
    ensures IsPrefix(counts, |b| - 1, b[..|b| - 1]) && Lens(counts, 16)[k] <= 16
  {
    hide Lens, FirstPrefix, EndPrefix, CodeBits, Val;
    PrefixAfter(counts, k, |b| - 1);
    assert CodeBits(Lens(counts, 16), k)[..|b| - 1] == b[..|b| - 1];
  }

  /** The decoder accepts a table exactly if its tree has room for all prefixes, which are counted from the counts
    * alone. */
  lemma AcceptedIfRoom(counts: seq<nat>)
    requires |counts| == 17 && CodeLengths(Lens(counts, 16))
    ensures Overfull(Codes(Lens(counts, 16))) <==> 2 * Room(counts, 16) > TREE_MAX
  {
    var codes := Codes(Lens(counts, 16));
    hide Lens, Codes, Room, AllPrefixes, CodeLengths, Nodes;
    if Overfull(codes) {
      var nodes: seq<BitString> :| 2 * |nodes| > TREE_MAX && Nodes(codes, |codes|, nodes);
      NodesAtMost(counts, nodes);
    }
    PrefixesAreNodes(counts);
    AllPrefixesAre(counts, 16);
  }

  lemma NodesAtMost(counts: seq<nat>, nodes: seq<BitString>)
    requires |counts| == 17 && CodeLengths(Lens(counts, 16))
    requires var codes := Codes(Lens(counts, 16)); Nodes(codes, |codes|, nodes)
    ensures |nodes| <= Room(counts, 16)
  {
    CountAll(nodes);
    hide *;
    NodesRoom(counts, nodes, 16);
  }
}
