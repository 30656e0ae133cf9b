/** Code lengths, the Kraft sum, prefix codes, and the least weighted length that any prefix code can have. */
module PrefixCodes {
  import opened Bits

  function Sum(s: seq<nat>): nat {
    if s == [] then 0 else s[0] + Sum(s[1..])
  }

  lemma {:induction false} SumConcat(a: seq<nat>, b: seq<nat>)
    ensures Sum(a + b) == Sum(a) + Sum(b)
  {
    if a == [] {
      assert a + b == b;
    } else {
      SumConcat(a[1..], b);
      assert (a + b)[1..] == a[1..] + b;
    }
  }

  ghost predicate AtMost(lens: seq<nat>, m: nat) {
    forall i :: 0 <= i < |lens| ==> lens[i] <= m
  }

  /** The Kraft sum of the lengths, scaled by 2^m. */
  ghost function Kraft(lens: seq<nat>, m: nat): nat
    requires AtMost(lens, m)
  {
    if lens == [] then 0 else Pow2(m - lens[0]) + Kraft(lens[1..], m)
  }

  /** Total weighted length. */
  function Cost(ws: seq<nat>, lens: seq<nat>): nat
    requires |ws| == |lens|
  {
    if ws == [] then 0 else ws[0] * lens[0] + Cost(ws[1..], lens[1..])
  }

  ghost predicate Ascending(ws: seq<nat>) {
    forall i, j :: 0 <= i <= j < |ws| ==> ws[i] <= ws[j]
  }

  // ----- Kraft sums and costs of pieces -----

  lemma {:induction false} KraftConcat(a: seq<nat>, b: seq<nat>, m: nat)
    requires AtMost(a, m) && AtMost(b, m)
    ensures AtMost(a + b, m) && Kraft(a + b, m) == Kraft(a, m) + Kraft(b, m)
  {
    if a == [] {
      assert a + b == b;
    } else {
      KraftConcat(a[1..], b, m);
      assert (a + b)[1..] == a[1..] + b;
    }
  }

  lemma {:induction false} CostConcat(w1: seq<nat>, l1: seq<nat>, w2: seq<nat>, l2: seq<nat>)
    requires |w1| == |l1| && |w2| == |l2|
    ensures Cost(w1 + w2, l1 + l2) == Cost(w1, l1) + Cost(w2, l2)
  {
    if w1 == [] {
      assert w1 + w2 == w2 && l1 + l2 == l2;
    } else {
      CostConcat(w1[1..], l1[1..], w2, l2);
      assert (w1 + w2)[1..] == w1[1..] + w2 && (l1 + l2)[1..] == l1[1..] + l2;
    }
  }

  lemma KraftOne(l: nat, m: nat)
    requires l <= m
    ensures AtMost([l], m) && Kraft([l], m) == Pow2(m - l)
  {
    assert [l][1..] == [];
  }

  lemma KraftCons(l: nat, lens: seq<nat>, m: nat)
    requires l <= m && AtMost(lens, m)
    ensures AtMost([l] + lens, m) && Kraft([l] + lens, m) == Pow2(m - l) + Kraft(lens, m)
  {
    KraftOne(l, m);
    KraftConcat([l], lens, m);
  }

  lemma {:induction false} KraftScale(lens: seq<nat>, m: nat, d: nat)
    requires AtMost(lens, m)
    ensures AtMost(lens, m + d) && Kraft(lens, m + d) == Pow2(d) * Kraft(lens, m)
  {
    if lens != [] {
      KraftScale(lens[1..], m, d);
      Pow2Add(d, m - lens[0]);
      ScaleStep(Pow2(d), Pow2(m - lens[0]), Kraft(lens[1..], m));
    }
  }

  lemma ScaleStep(p: nat, x: nat, y: nat)
    ensures p * x + p * y == p * (x + y)
  {
  }

  lemma {:induction false} KraftPositive(lens: seq<nat>, m: nat)
    requires AtMost(lens, m)
    ensures Kraft(lens, m) >= |lens|
  {
    if lens != [] { KraftPositive(lens[1..], m); }
  }

  /** Exchanging the lengths at two positions. */
  function Swap(lens: seq<nat>, i: nat, j: nat): (r: seq<nat>)
    requires i < |lens| && j < |lens|
    ensures |r| == |lens|
  {
    lens[i := lens[j]][j := lens[i]]
  }

  lemma UpdateSums(ws: seq<nat>, lens: seq<nat>, i: nat, v: nat, m: nat)
    requires |ws| == |lens| && i < |lens| && AtMost(lens, m) && v <= m
    ensures AtMost(lens[i := v], m)
    ensures Kraft(lens[i := v], m) == Kraft(lens, m) - Pow2(m - lens[i]) + Pow2(m - v)
    ensures Cost(ws, lens[i := v]) == Cost(ws, lens) - ws[i] * lens[i] + ws[i] * v
  {
    var ws', lens' := ws[..i] + ws[i + 1..], lens[..i] + lens[i + 1..];
    assert lens'[..i] == lens[..i] && lens'[i..] == lens[i + 1..];
    assert ws'[..i] == ws[..i] && ws'[i..] == ws[i + 1..];
    assert ws == ws[..i] + [ws[i]] + ws[i + 1..];
    assert lens == lens[..i] + [lens[i]] + lens[i + 1..];
    assert lens[i := v] == lens[..i] + [v] + lens[i + 1..];
    SplicedKraft(lens', i, lens[i], m);
    SplicedKraft(lens', i, v, m);
    SplicedCost(ws', lens', i, ws[i], lens[i]);
    SplicedCost(ws', lens', i, ws[i], v);
  }

  /** Giving the longer length to the smaller weight never costs more. */
  lemma SwapCost(ws: seq<nat>, lens: seq<nat>, i: nat, j: nat, m: nat)
    requires |ws| == |lens| && i < j < |lens| && AtMost(lens, m)
    requires ws[i] <= ws[j] && lens[i] <= lens[j]
    ensures AtMost(Swap(lens, i, j), m)
    ensures Kraft(Swap(lens, i, j), m) == Kraft(lens, m)
    ensures Cost(ws, Swap(lens, i, j)) <= Cost(ws, lens)
  {
    UpdateSums(ws, lens, i, lens[j], m);
    UpdateSums(ws, lens[i := lens[j]], j, lens[i], m);
    Exchange(ws[i], ws[j], lens[i], lens[j]);
  }

  lemma Exchange(a: nat, b: nat, x: nat, y: nat)
    requires a <= b && x <= y
    ensures a * y + b * x <= a * x + b * y
  {
    MulMono(a, b, y - x);
    MulDistr(y, x, a);
    MulDistr(y, x, b);
  }

  function ArgMax(lens: seq<nat>, lo: nat): (k: nat)
    requires lo < |lens|
    ensures lo <= k < |lens|
    ensures forall i :: lo <= i < |lens| ==> lens[i] <= lens[k]
    decreases |lens| - lo
  {
    if lo == |lens| - 1 then lo
    else var k := ArgMax(lens, lo + 1); if lens[k] < lens[lo] then lo else k
  }

  /** Moving the largest length from position i on to position i. */
  lemma MoveMax(ws: seq<nat>, lens: seq<nat>, i: nat, m: nat) returns (r: seq<nat>)
    requires |ws| == |lens| && i < |lens| && AtMost(lens, m) && Ascending(ws)
    ensures |r| == |lens| && AtMost(r, m) && Kraft(r, m) == Kraft(lens, m) && Cost(ws, r) <= Cost(ws, lens)
    ensures r[..i] == lens[..i]
    ensures forall j :: i <= j < |r| ==> r[j] <= r[i]
    ensures exists k :: i <= k < |lens| && r[i] == lens[k]
  {
    var k := ArgMax(lens, i);
    r := lens;
    if k != i {
      SwapCost(ws, lens, i, k, m);
      r := Swap(lens, i, k);
    }
    assert r[i] == lens[k];
  }

  // ----- The least weighted length -----

  /** Insertion into an ascending list, after every element that is not larger. */
  function Insert(x: nat, s: seq<nat>): (r: seq<nat>)
    ensures |r| == |s| + 1
  {
    if s == [] || x < s[0] then [x] + s else [s[0]] + Insert(x, s[1..])
  }

  function InsertPos(x: nat, s: seq<nat>): (p: nat)
    ensures p <= |s|
  {
    if s == [] || x < s[0] then 0 else 1 + InsertPos(x, s[1..])
  }

  lemma {:induction false} InsertIsAt(x: nat, s: seq<nat>)
    ensures var p := InsertPos(x, s); Insert(x, s) == s[..p] + [x] + s[p..]
  {
    if s == [] || x < s[0] {
    } else {
      InsertIsAt(x, s[1..]);
      var p := InsertPos(x, s[1..]);
      assert s[..p + 1] == [s[0]] + s[1..][..p];
      assert s[p + 1..] == s[1..][p..];
    }
  }

  lemma {:induction false} InsertAscending(x: nat, s: seq<nat>)
    requires Ascending(s)
    ensures Ascending(Insert(x, s))
    ensures Insert(x, s)[0] == if s == [] || x < s[0] then x else s[0]
  {
    if s == [] {
    } else if x < s[0] {
      AscendingCons(x, s);
    } else {
      InsertAscending(x, s[1..]);
      AscendingCons(s[0], Insert(x, s[1..]));
    }
  }

  lemma AscendingCons(x: nat, s: seq<nat>)
    requires Ascending(s) && (s == [] || x <= s[0])
    ensures Ascending([x] + s)
  {
    var r := [x] + s;
    forall i, j | 0 <= i <= j < |r| ensures r[i] <= r[j] {
      if i == 0 && j > 0 { assert s[0] <= s[j - 1]; }
    }
  }

  /** The cost of repeatedly merging the two smallest weights of an ascending list. */
  function HuffmanCost(ws: seq<nat>): nat
    decreases |ws|
  {
    if |ws| <= 1 then 0
    else ws[0] + ws[1] + HuffmanCost(Insert(ws[0] + ws[1], ws[2..]))
  }

  lemma ShortenLongest(ws: seq<nat>, lens: seq<nat>) returns (r: seq<nat>)
    requires |ws| == |lens| >= 2 && AtMost(lens, lens[0]) && Kraft(lens, lens[0]) <= Pow2(lens[0])
    requires forall j :: 1 <= j < |lens| ==> lens[j] <= lens[1]
    ensures |r| == |lens| && r[0] == r[1] == lens[1] >= 1 && AtMost(r, r[0])
    ensures Kraft(r, r[0]) <= Pow2(r[0]) && Cost(ws, r) <= Cost(ws, lens)
  {
    var m, d, t := lens[1], lens[0] - lens[1], lens[1..];
    r := lens[0 := m];
    assert r[1..] == t;
    assert AtMost(t, m);
    var s := Kraft(t, m);
    assert Pow2(d) * s + 1 <= Pow2(d) * Pow2(m) by { KraftScale(t, m, d); Pow2Add(d, m); }
    RoomForOneMore(Pow2(d), s, Pow2(m));
    KraftPositive(t, m);
    assert Kraft(r, m) == 1 + s;
    MulMono(m, lens[0], ws[0]);
  }

  lemma RoomForOneMore(p: nat, s: nat, q: nat)
    requires p * s + 1 <= p * q
    ensures s + 1 <= q
  {
    if s >= q { MulMono(q, s, p); assert false; }
  }

  lemma MergeTwo(ws: seq<nat>, lens: seq<nat>) returns (r: seq<nat>)
    requires |ws| == |lens| >= 2
    requires lens[0] == lens[1] >= 1 && AtMost(lens, lens[0]) && Kraft(lens, lens[0]) <= Pow2(lens[0])
    ensures |r| == |ws| - 1 && AtMost(r, lens[0]) && Kraft(r, lens[0]) <= Pow2(lens[0])
    ensures Cost(Insert(ws[0] + ws[1], ws[2..]), r) + ws[0] + ws[1] == Cost(ws, lens)
  {
    var m, x, s, l := lens[0], ws[0] + ws[1], ws[2..], lens[2..];
    var p := InsertPos(x, s);
    InsertIsAt(x, s);
    assert AtMost(l, m);
    r := l[..p] + [m - 1] + l[p..];
    SplicedKraft(l, p, m - 1, m);
    SplicedCost(s, l, p, x, m - 1);
    assert lens == [m] + ([m] + l);
    KraftCons(m, l, m);
    KraftCons(m, [m] + l, m);
    assert Pow2(1) == 2;
    assert lens[1..][1..] == l && ws[1..][1..] == s;
    assert Cost(ws, lens) == ws[0] * m + (ws[1] * m + Cost(s, l));
    MergedCost(ws[0], ws[1], m);
  }

  lemma MergedCost(a: nat, b: nat, m: nat)
    requires m >= 1
    ensures a * m + b * m == (a + b) * (m - 1) + a + b
  {
  }

  lemma SplicedKraft(lens: seq<nat>, p: nat, l: nat, m: nat)
    requires p <= |lens| && AtMost(lens, m) && l <= m
    ensures AtMost(lens[..p] + [l] + lens[p..], m)
    ensures Kraft(lens[..p] + [l] + lens[p..], m) == Kraft(lens, m) + Pow2(m - l)
  {
    assert lens == lens[..p] + lens[p..];
    KraftConcat(lens[..p], lens[p..], m);
    KraftCons(l, lens[p..], m);
    KraftConcat(lens[..p], [l] + lens[p..], m);
    assert lens[..p] + [l] + lens[p..] == lens[..p] + ([l] + lens[p..]);
  }

  lemma SplicedCost(ws: seq<nat>, lens: seq<nat>, p: nat, w: nat, l: nat)
    requires |ws| == |lens| && p <= |ws|
    ensures Cost(ws[..p] + [w] + ws[p..], lens[..p] + [l] + lens[p..]) == Cost(ws, lens) + w * l
  {
    assert lens == lens[..p] + lens[p..] && ws == ws[..p] + ws[p..];
    CostConcat(ws[..p], lens[..p], ws[p..], lens[p..]);
    var w', l' := [w] + ws[p..], [l] + lens[p..];
    CostConcat(ws[..p], lens[..p], w', l');
    assert w'[1..] == ws[p..] && l'[1..] == lens[p..];
    assert ws[..p] + [w] + ws[p..] == ws[..p] + w';
    assert lens[..p] + [l] + lens[p..] == lens[..p] + l';
  }

  /** No list of code lengths that meets the Kraft inequality costs less than merging the two smallest. */
  lemma {:induction false} HuffmanIsLeast(ws: seq<nat>, lens: seq<nat>, m: nat)
    requires |ws| == |lens| && Ascending(ws) && AtMost(lens, m) && Kraft(lens, m) <= Pow2(m)
    ensures HuffmanCost(ws) <= Cost(ws, lens)
    decreases |ws|
  {
    if |ws| >= 2 {
      var l1 := MoveMax(ws, lens, 0, m);
      var l2 := MoveMax(ws, l1, 1, m);
      assert l2[0] == l1[..1][0] == l1[0];
      assert AtMost(l2, l2[0]);
      var d := m - l2[0];
      KraftScale(l2, l2[0], d);
      Pow2Add(d, l2[0]);
      CancelLe(Pow2(d), Kraft(l2, l2[0]), Pow2(l2[0]));
      var l3 := ShortenLongest(ws, l2);
      var l4 := MergeTwo(ws, l3);
      InsertAscending(ws[0] + ws[1], ws[2..]);
      HuffmanIsLeast(Insert(ws[0] + ws[1], ws[2..]), l4, l3[0]);
    }
  }

  lemma CancelLe(p: nat, a: nat, b: nat)
    requires p >= 1 && p * a <= p * b
    ensures a <= b
  {
    if a > b {
      MulMono(b + 1, a, p);
      MulDistr(b, 1, p);
      assert false;
    }
  }

  // ----- Prefix codes -----

  /** No word is a prefix of another one. */
  ghost predicate PrefixFree(codes: seq<BitString>) {
    forall i, j :: 0 <= i < |codes| && 0 <= j < |codes| && i != j ==> !(codes[i] <= codes[j])
  }

  function Lengths(codes: seq<BitString>): (lens: seq<nat>)
    ensures |lens| == |codes|
    ensures forall i :: 0 <= i < |codes| ==> lens[i] == |codes[i]|
  {
    seq(|codes|, i requires 0 <= i < |codes| => |codes[i]|)
  }

  /** The words that start with bit b, without that bit. */
  function After(codes: seq<BitString>, b: bool): (r: seq<BitString>)
    ensures forall i :: 0 <= i < |r| ==> [b] + r[i] in codes
  {
    if codes == [] then []
    else if codes[0] != [] && codes[0][0] == b then
      assert [b] + codes[0][1..] == codes[0];
      [codes[0][1..]] + After(codes[1..], b)
    else After(codes[1..], b)
  }

  lemma {:induction false} AfterPrefixFree(codes: seq<BitString>, b: bool)
    requires PrefixFree(codes)
    ensures PrefixFree(After(codes, b))
  {
    if codes != [] {
      var rest := codes[1..];
      PrefixFreeTail(codes);
      AfterPrefixFree(rest, b);
      var t := After(rest, b);
      if codes[0] != [] && codes[0][0] == b {
        var h := codes[0][1..];
        assert codes[0] == [b] + h;
        forall j | 0 <= j < |t| ensures !(h <= t[j]) && !(t[j] <= h) {
          var k :| 0 <= k < |rest| && rest[k] == [b] + t[j];
          assert codes[k + 1] == rest[k];
          SameHead(b, h, t[j]);
        }
        PrefixFreeCons(h, t);
      }
    }
  }

  lemma SameHead(b: bool, x: BitString, y: BitString)
    ensures [b] + x <= [b] + y <==> x <= y
  {
    var p, q := [b] + x, [b] + y;
    if p <= q { assert x == p[1..] && q[1..] == y && q[..|p|][1..] == y[..|x|]; }
  }

  lemma PrefixFreeTail(codes: seq<BitString>)
    requires PrefixFree(codes) && codes != []
    ensures PrefixFree(codes[1..])
  {
    var rest := codes[1..];
    forall i, j | 0 <= i < |rest| && 0 <= j < |rest| && i != j ensures !(rest[i] <= rest[j]) {
      assert rest[i] == codes[i + 1] && rest[j] == codes[j + 1];
    }
  }

  lemma PrefixFreeCons(h: BitString, t: seq<BitString>)
    requires PrefixFree(t)
    requires forall j :: 0 <= j < |t| ==> !(h <= t[j]) && !(t[j] <= h)
    ensures PrefixFree([h] + t)
  {
    var r := [h] + t;
    forall i, j | 0 <= i < |r| && 0 <= j < |r| && i != j ensures !(r[i] <= r[j]) {
      assert i > 0 ==> r[i] == t[i - 1];
      assert j > 0 ==> r[j] == t[j - 1];
    }
  }

  lemma {:induction false} AfterKraft(codes: seq<BitString>, m: nat)
    requires m >= 1 && AtMost(Lengths(codes), m)
    requires forall i :: 0 <= i < |codes| ==> codes[i] != []
    ensures AtMost(Lengths(After(codes, false)), m - 1) && AtMost(Lengths(After(codes, true)), m - 1)
    ensures Kraft(Lengths(codes), m) == Kraft(Lengths(After(codes, false)), m - 1)
        + Kraft(Lengths(After(codes, true)), m - 1)
  {
    if codes != [] {
      var c, rest := codes[0], codes[1..];
      LengthsTail(codes, m);
      NonEmptyTail(codes);
      AfterKraft(rest, m);
      AfterHead(codes, m);
    }
  }

  lemma NonEmptyTail(codes: seq<BitString>)
    requires codes != [] && forall i :: 0 <= i < |codes| ==> codes[i] != []
    ensures forall i :: 0 <= i < |codes[1..]| ==> codes[1..][i] != []
  {
  }

  lemma AfterHead(codes: seq<BitString>, m: nat)
    requires m >= 1 && codes != [] && codes[0] != [] && |codes[0]| <= m
    requires AtMost(Lengths(After(codes[1..], codes[0][0])), m - 1)
    ensures var b, rest := codes[0][0], codes[1..];
      && After(codes, !b) == After(rest, !b)
      && AtMost(Lengths(After(codes, b)), m - 1)
      && Kraft(Lengths(After(codes, b)), m - 1) == Pow2(m - |codes[0]|) + Kraft(Lengths(After(rest, b)), m - 1)
  {
    var b, c, rest := codes[0][0], codes[0], codes[1..];
    assert After(codes, b) == [c[1..]] + After(rest, b);
    LengthsCons(c[1..], After(rest, b), m - 1);
  }

  lemma LengthsTail(codes: seq<BitString>, m: nat)
    requires codes != [] && AtMost(Lengths(codes), m)
    ensures |codes[0]| <= m && AtMost(Lengths(codes[1..]), m)
    ensures Kraft(Lengths(codes), m) == Pow2(m - |codes[0]|) + Kraft(Lengths(codes[1..]), m)
  {
    assert Lengths(codes)[0] <= m;
    assert Lengths(codes)[1..] == Lengths(codes[1..]);
  }

  lemma LengthsCons(c: BitString, rest: seq<BitString>, m: nat)
    requires |c| <= m && AtMost(Lengths(rest), m)
    ensures AtMost(Lengths([c] + rest), m)
    ensures Kraft(Lengths([c] + rest), m) == Pow2(m - |c|) + Kraft(Lengths(rest), m)
  {
    assert Lengths([c] + rest) == [|c|] + Lengths(rest);
    KraftCons(|c|, Lengths(rest), m);
  }

  lemma NoEmptyWord(codes: seq<BitString>)
    requires PrefixFree(codes) && |codes| >= 2
    ensures forall i :: 0 <= i < |codes| ==> codes[i] != []
  {
    forall i | 0 <= i < |codes| ensures codes[i] != [] {
      var j := if i == 0 then 1 else 0;
      assert !(codes[i] <= codes[j]);
    }
  }

  /** The Kraft inequality. */
  lemma {:induction false} PrefixFreeKraft(codes: seq<BitString>, m: nat)
    requires PrefixFree(codes) && AtMost(Lengths(codes), m)
    ensures Kraft(Lengths(codes), m) <= Pow2(m)
    decreases m
  {
    if codes == [] {
    } else if |codes| == 1 {
      LengthsTail(codes, m);
      Pow2Mono(m - |codes[0]|, m);
    } else {
      NoEmptyWord(codes);
      LengthsTail(codes, m);
      assert m >= 1;
      AfterKraft(codes, m);
      AfterPrefixFree(codes, false);
      AfterPrefixFree(codes, true);
      PrefixFreeKraft(After(codes, false), m - 1);
      PrefixFreeKraft(After(codes, true), m - 1);
    }
  }

  ghost function MaxLength(lens: seq<nat>): (m: nat)
    ensures AtMost(lens, m)
  {
    if lens == [] then 0
    else
      var m := MaxLength(lens[1..]);
      var r := if m < lens[0] then lens[0] else m;
      assert AtMost(lens, r) by {
        forall i | 0 <= i < |lens| ensures lens[i] <= r { if i > 0 { assert lens[i] == lens[1..][i - 1]; } }
      }
      r
  }

  /** No prefix code costs less than merging the two smallest weights. */
  lemma NoPrefixCodeCheaper(ws: seq<nat>, codes: seq<BitString>)
    requires |ws| == |codes| && Ascending(ws) && PrefixFree(codes)
    ensures HuffmanCost(ws) <= Cost(ws, Lengths(codes))
  {
    var m := MaxLength(Lengths(codes));
    PrefixFreeKraft(codes, m);
    HuffmanIsLeast(ws, Lengths(codes), m);
  }
}
