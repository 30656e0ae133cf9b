/** radix_sort_syms(): a stable least-significant-digit radix sort that skips passes over all-zero digits. */
module RadixSort {
  import Bits

  datatype SymFreq = SymFreq(key: nat, sym: nat)

  function Place(p: nat): (r: nat)
    ensures r >= 1
  {
    if p == 0 then 1 else 256 * Place(p - 1)
  }

  /** The p-th byte of a key. */
  function Digit(key: nat, p: nat): (d: nat)
    ensures d < 256
  {
    key / Place(p) % 256
  }

  /** Which elements a bucket or a comparison selects. */
  datatype Cond = DigitIs(p: nat, d: nat) | DigitBelow(p: nat, d: nat) | KeyIs(k: nat) {
    predicate Holds(x: SymFreq) {
      match this
      case DigitIs(p, d) => Digit(x.key, p) == d
      case DigitBelow(p, d) => Digit(x.key, p) < d
      case KeyIs(k) => x.key == k
    }
  }

  function Filter(s: seq<SymFreq>, f: Cond): (r: seq<SymFreq>)
    ensures |r| <= |s|
    ensures forall x :: x in r ==> f.Holds(x) && x in s
  {
    if s == [] then []
    else
      var t := Filter(s[..|s| - 1], f);
      if f.Holds(s[|s| - 1]) then t + [s[|s| - 1]] else t
  }

  /** The elements of one digit, in their order. */
  function Bucket(s: seq<SymFreq>, p: nat, d: nat): seq<SymFreq> {
    Filter(s, DigitIs(p, d))
  }

  /** The elements of one key, in their order. */
  function WithKey(s: seq<SymFreq>, k: nat): seq<SymFreq> {
    Filter(s, KeyIs(k))
  }

  /** The buckets of the digits below d, one after the other. */
  function Buckets(s: seq<SymFreq>, p: nat, d: nat): seq<SymFreq> {
    if d == 0 then [] else Buckets(s, p, d - 1) + Bucket(s, p, d - 1)
  }

  // ----- Filters -----

  lemma {:induction false} FilterConcat(a: seq<SymFreq>, b: seq<SymFreq>, f: Cond)
    ensures Filter(a + b, f) == Filter(a, f) + Filter(b, f)
  {
    if b == [] {
      assert a + b == a;
    } else {
      var t, x := b[..|b| - 1], b[|b| - 1];
      FilterConcat(a, t, f);
      hide *;
      LastApart(a, b);
      FilterLast(a + t, x, f);
      FilterLast(t, x, f);
      Regroup(Filter(a, f), Filter(t, f), if f.Holds(x) then [x] else []);
    }
  }

  lemma LastApart(a: seq<SymFreq>, b: seq<SymFreq>)
    requires b != []
    ensures b == b[..|b| - 1] + [b[|b| - 1]] && a + b == a + b[..|b| - 1] + [b[|b| - 1]]
  {
  }

  lemma Regroup(a: seq<SymFreq>, b: seq<SymFreq>, c: seq<SymFreq>)
    ensures a + b + c == a + (b + c)
  {
  }

  lemma FilterLast(s: seq<SymFreq>, x: SymFreq, f: Cond)
    ensures Filter(s + [x], f) == Filter(s, f) + if f.Holds(x) then [x] else []
  {
    assert (s + [x])[..|s|] == s;
  }

  lemma {:induction false} FilterNone(s: seq<SymFreq>, f: Cond)
    requires forall x :: x in s ==> !f.Holds(x)
    ensures Filter(s, f) == []
  {
    if s != [] { FilterNone(s[..|s| - 1], f); }
  }

  /** Filtering by a coarser condition first changes nothing. */
  lemma {:induction false} FilterTwice(s: seq<SymFreq>, f: Cond, g: Cond)
    requires forall x :: x in s && f.Holds(x) ==> g.Holds(x)
    ensures Filter(Filter(s, g), f) == Filter(s, f)
  {
    if s != [] {
      var t, x := s[..|s| - 1], s[|s| - 1];
      FilterTwice(t, f, g);
      if g.Holds(x) { FilterConcat(Filter(t, g), [x], f); FilterOne(x, f); }
    }
  }

  lemma FilterOne(x: SymFreq, f: Cond)
    ensures Filter([x], f) == if f.Holds(x) then [x] else []
  {
    assert [x][..0] == [];
  }

  lemma {:induction false} FilterAll(s: seq<SymFreq>, f: Cond)
    requires |Filter(s, f)| == |s|
    ensures forall i :: 0 <= i < |s| ==> f.Holds(s[i])
  {
    if s != [] { FilterAll(s[..|s| - 1], f); }
  }

  // ----- One pass -----

  /** Every key's elements keep their order through a pass. */
  lemma {:induction false} PassStable(s: seq<SymFreq>, p: nat, d: nat, k: nat)
    ensures WithKey(Buckets(s, p, d), k) == if Digit(k, p) < d then WithKey(s, k) else []
  {
    hide *;
    BucketsFirst(s, p, k);
    if d > 0 {
      PassStable(s, p, d - 1, k);
      BucketsNext(s, p, d - 1, k);
      BucketStable(s, p, d - 1, k);
    }
  }

  lemma BucketsFirst(s: seq<SymFreq>, p: nat, k: nat)
    ensures WithKey(Buckets(s, p, 0), k) == []
  {
  }

  lemma BucketsNext(s: seq<SymFreq>, p: nat, d: nat, k: nat)
    ensures WithKey(Buckets(s, p, d + 1), k) == WithKey(Buckets(s, p, d), k) + WithKey(Bucket(s, p, d), k)
  {
    hide Filter, Bucket;
    FilterConcat(Buckets(s, p, d), Bucket(s, p, d), KeyIs(k));
  }

  lemma BucketStable(s: seq<SymFreq>, p: nat, d: nat, k: nat)
    ensures WithKey(Bucket(s, p, d), k) == if Digit(k, p) == d then WithKey(s, k) else []
  {
    hide Digit, Filter;
    if Digit(k, p) == d { FilterTwice(s, KeyIs(k), DigitIs(p, d)); } else { FilterNone(Bucket(s, p, d), KeyIs(k)); }
  }

  /** The elements that have one of the digits below d. */
  lemma {:induction false} PassLength(s: seq<SymFreq>, p: nat, d: nat)
    ensures |Buckets(s, p, d)| == |Filter(s, DigitBelow(p, d))|
  {
    if d > 0 {
      PassLength(s, p, d - 1);
      LengthStep(s, p, d - 1);
    } else {
      FilterNone(s, DigitBelow(p, 0));
    }
  }

  lemma {:induction false} LengthStep(s: seq<SymFreq>, p: nat, d: nat)
    ensures |Filter(s, DigitBelow(p, d + 1))| == |Filter(s, DigitBelow(p, d))| + |Bucket(s, p, d)|
  {
    if s != [] { LengthStep(s[..|s| - 1], p, d); }
  }

  lemma {:induction false} FilterEverything(s: seq<SymFreq>, f: Cond)
    requires forall x :: x in s ==> f.Holds(x)
    ensures Filter(s, f) == s
  {
    if s != [] { FilterEverything(s[..|s| - 1], f); }
  }

  lemma PassWhole(s: seq<SymFreq>, p: nat)
    ensures |Buckets(s, p, 256)| == |s|
  {
    PassLength(s, p, 256);
    FilterEverything(s, DigitBelow(p, 256));
  }

  ghost predicate SortedBelow(s: seq<SymFreq>, p: nat) {
    forall i, j :: 0 <= i < j < |s| ==> s[i].key % Place(p) <= s[j].key % Place(p)
  }

  /** A pass on digit p turns an order by the lower digits into an order by the digits up to p. */
  lemma {:induction false} PassSorts(s: seq<SymFreq>, p: nat, d: nat)
    requires SortedBelow(s, p)
    ensures SortedBelow(Buckets(s, p, d), p + 1)
    ensures forall x :: x in Buckets(s, p, d) ==> Digit(x.key, p) < d
  {
    if d > 0 {
      PassSorts(s, p, d - 1);
      var a, b := Buckets(s, p, d - 1), Bucket(s, p, d - 1);
      FilterSorted(s, DigitIs(p, d - 1), p);
      var r := a + b;
      forall i, j | 0 <= i < j < |r| ensures r[i].key % Place(p + 1) <= r[j].key % Place(p + 1) {
        DigitSplit(r[i].key, p);
        DigitSplit(r[j].key, p);
        if i < |a| {
          assert r[i] == a[i] && r[i] in a;
          if j < |a| {
            assert r[j] == a[j];
          } else {
            assert r[j] == b[j - |a|] && r[j] in b;
            Weigh(Digit(r[i].key, p), d - 1, r[i].key % Place(p), r[j].key % Place(p), Place(p));
          }
        } else {
          assert r[i] == b[i - |a|] && r[j] == b[j - |a|] && r[i] in b && r[j] in b;
        }
      }
    }
  }

  lemma Weigh(x: nat, y: nat, a: nat, b: nat, z: nat)
    requires x < y && a < z
    ensures x * z + a <= y * z + b
  {
    assert (y - x - 1) * z >= 0;
    assert y * z == x * z + z + (y - x - 1) * z;
  }

  lemma DigitSplit(k: nat, p: nat)
    ensures k % Place(p + 1) == Digit(k, p) * Place(p) + k % Place(p)
  {
    var z, q, r := Place(p), k / Place(p), k % Place(p);
    var hi, lo := q / 256, q % 256;
    assert k == q * z + r && q == hi * 256 + lo;
    SplitArithmetic(k, z, q, r, hi, lo);
  }

  lemma SplitArithmetic(k: nat, z: nat, q: nat, r: nat, hi: nat, lo: nat)
    requires z >= 1 && r < z && lo < 256 && q == hi * 256 + lo && k == q * z + r
    ensures k % (256 * z) == lo * z + r
  {
    var w, t := 256 * z, lo * z + r;
    assert k == hi * w + t;
    assert 0 <= t < w by { assert (255 - lo) * z >= 0; }
    Bits.DivMod(hi, t, w);
  }

  lemma {:induction false} FilterSorted(s: seq<SymFreq>, f: Cond, p: nat)
    requires SortedBelow(s, p)
    ensures SortedBelow(Filter(s, f), p)
  {
    if s != [] {
      var t, x := s[..|s| - 1], s[|s| - 1];
      FilterSorted(t, f, p);
      var r := Filter(t, f);
      forall i | 0 <= i < |r| ensures r[i].key % Place(p) <= x.key % Place(p) {
        assert r[i] in r;
        var j :| 0 <= j < |t| && t[j] == r[i];
        assert s[j] == t[j];
      }
    }
  }

  // ----- The counting pass over the arrays -----

  /** st[d] is where the bucket of digit d starts. */
  ghost predicate Starts(st: seq<nat>, s: seq<SymFreq>, p: nat) {
    && |st| == 257
    && (forall d :: 0 <= d <= 256 ==> st[d] == |Buckets(s, p, d)|)
    && (forall d :: 0 <= d < 256 ==> st[d + 1] == st[d] + |Bucket(s, p, d)|)
    && (forall d, e :: 0 <= d < e <= 256 ==> st[d] + |Bucket(s, p, d)| <= st[e] <= |s|)
    && st[0] == 0
  }

  lemma StartsExist(s: seq<SymFreq>, p: nat) returns (st: seq<nat>)
    ensures Starts(st, s, p)
  {
    st := seq(257, d requires 0 <= d < 257 => |Buckets(s, p, d)|);
    PassWhole(s, p);
    forall d | 0 <= d < 256 ensures st[d + 1] == st[d] + |Bucket(s, p, d)| {
      BucketStep(s, p, d);
    }
    forall d, e | 0 <= d < e <= 256 ensures st[d] + |Bucket(s, p, d)| <= st[e] <= |s| {
      BucketStep(s, p, d);
      BucketsMono(s, p, d + 1, e);
      BucketsMono(s, p, e, 256);
    }
  }

  lemma BucketStep(s: seq<SymFreq>, p: nat, d: nat)
    ensures Buckets(s, p, d + 1) == Buckets(s, p, d) + Bucket(s, p, d)
  {
  }

  lemma {:induction false} BucketsMono(s: seq<SymFreq>, p: nat, d: nat, e: nat)
    requires d <= e
    ensures |Buckets(s, p, d)| <= |Buckets(s, p, e)|
    decreases e
  {
    if d < e { BucketsMono(s, p, d, e - 1); }
  }

  lemma BucketGrows(s: seq<SymFreq>, p: nat, i: nat)
    requires i < |s|
    ensures forall d :: 0 <= d ==>
      Bucket(s[..i + 1], p, d) == if Digit(s[i].key, p) == d then Bucket(s[..i], p, d) + [s[i]]
        else Bucket(s[..i], p, d)
  {
    assert s[..i + 1][..i] == s[..i];
  }

  lemma BucketPrefix(s: seq<SymFreq>, p: nat, d: nat, i: nat)
    requires i <= |s|
    ensures |Bucket(s[..i], p, d)| <= |Bucket(s, p, d)|
  {
    assert s == s[..i] + s[i..];
    FilterConcat(s[..i], s[i..], DigitIs(p, d));
  }

  ghost predicate Sized(st: seq<nat>, s: seq<SymFreq>, p: nat) {
    |st| == 257 && st[0] == 0 && st[256] == |s| && forall d :: 0 <= d < 256 ==> st[d + 1] == st[d] + |Bucket(s, p, d)|
  }

  lemma StartFacts(st: seq<nat>, s: seq<SymFreq>, p: nat)
    requires Starts(st, s, p)
    ensures Partition(st, |s|) && Sized(st, s, p)
  {
    PassWhole(s, p);
    hide Buckets, Bucket;
    assert st[256] == |s|;
    forall d, e {:trigger st[d], st[e]} | 0 <= d < e <= 256 ensures st[d] <= st[d + 1] <= st[e] <= |s| {
      if d + 1 < e { assert st[d + 1] + |Bucket(s, p, d + 1)| <= st[e]; }
    }
  }

  ghost predicate Partition(st: seq<nat>, n: nat) {
    |st| == 257 && forall d, e {:trigger st[d], st[e]} :: 0 <= d < e <= 256 ==> st[d] <= st[d + 1] <= st[e] <= n
  }

  /** Bucket d fills the places from st[d] to offsets[d]. */
  ghost predicate Placed(out: seq<SymFreq>, st: seq<nat>, offsets: seq<nat>, parts: seq<seq<SymFreq>>)
    requires Partition(st, |out|)
  {
    |offsets| == |parts| == 256
    && forall d :: 0 <= d < 256 ==> PlacedAt(out, st[d], offsets[d], st[d + 1], parts[d])
  }

  ghost predicate PlacedAt(out: seq<SymFreq>, lo: nat, mid: nat, hi: nat, part: seq<SymFreq>) {
    lo <= mid <= hi <= |out| && out[lo..mid] == part
  }

  lemma PlaceOne(out: seq<SymFreq>, st: seq<nat>, offsets: seq<nat>, parts: seq<seq<SymFreq>>, d: nat, x: SymFreq)
    requires Partition(st, |out|) && Placed(out, st, offsets, parts) && d < 256 && offsets[d] < st[d + 1]
    ensures Placed(out[offsets[d] := x], st, offsets[d := offsets[d] + 1], parts[d := parts[d] + [x]])
  {
    var at := offsets[d];
    var out' := out[at := x];
    assert PlacedAt(out, st[d], at, st[d + 1], parts[d]);
    assert st[d] < |out|;
    forall e | 0 <= e < 256 && e != d ensures PlacedAt(out', st[e], offsets[e], st[e + 1], parts[e]) {
      assert PlacedAt(out, st[e], offsets[e], st[e + 1], parts[e]);
      if e < d { assert st[e + 1] <= st[d]; } else { assert st[d + 1] <= st[e]; }
      assert out'[st[e]..offsets[e]] == out[st[e]..offsets[e]];
    }
    assert out'[st[d]..at + 1] == out[st[d]..at] + [x];
  }

  /** parts[d] is bucket d. */
  ghost predicate Parts(parts: seq<seq<SymFreq>>, s: seq<SymFreq>, p: nat) {
    |parts| == 256 && forall d :: 0 <= d < 256 ==> parts[d] == Bucket(s, p, d)
  }

  /** The offsets of the buckets, from the counts of one digit. */
  method Offsets(ghost s: seq<SymFreq>, hist: array<nat>, p: nat, ghost st: seq<nat>) returns (offsets: array<nat>)
    requires hist.Length == 1024 && p < 4 && Starts(st, s, p)
    requires forall d :: 0 <= d < 256 ==> hist[256 * p + d] == |Bucket(s, p, d)|
    ensures fresh(offsets) && offsets.Length == 256
    ensures forall d :: 0 <= d < 256 ==> offsets[d] == st[d]
  {
    hide Bucket, Buckets;
    offsets := new nat[256];
    var curOfs := 0;
    for i := 0 to 256
      invariant curOfs == st[i]
      invariant forall d :: 0 <= d < i ==> offsets[d] == st[d]
    {
      offsets[i] := curOfs;
      curOfs := curOfs + hist[256 * p + i];
    }
  }

  lemma {:induction false} BucketsJoin(out: seq<SymFreq>, s: seq<SymFreq>, p: nat, st: seq<nat>, offsets: seq<nat>,
                                       parts: seq<seq<SymFreq>>, d: nat)
    requires d <= 256 && |st| == 257 && st[0] == 0 && st[256] <= |out| && |offsets| == |parts| == 256
    requires forall e :: 0 <= e < 256 ==> PlacedAt(out, st[e], offsets[e], st[e + 1], parts[e])
    requires forall e :: 0 <= e < 256 ==> st[e + 1] == st[e] + |Bucket(s, p, e)| && parts[e] == Bucket(s, p, e)
    ensures st[d] <= |out| && out[..st[d]] == Buckets(s, p, d)
  {
    if d > 0 {
      hide Bucket;
      BucketsJoin(out, s, p, st, offsets, parts, d - 1);
      assert PlacedAt(out, st[d - 1], offsets[d - 1], st[d - 1 + 1], parts[d - 1]);
      assert out[..st[d]] == out[..st[d - 1]] + out[st[d - 1]..st[d]];
    }
  }

  lemma BucketsComplete(out: seq<SymFreq>, s: seq<SymFreq>, p: nat, st: seq<nat>, offsets: seq<nat>,
                        parts: seq<seq<SymFreq>>)
    requires Partition(st, |out|) && Placed(out, st, offsets, parts) && Parts(parts, s, p)
    requires Sized(st, s, p)
    ensures |s| <= |out| && out[..|s|] == Buckets(s, p, 256)
  {
    assert st[0] <= st[256];
    BucketsJoin(out, s, p, st, offsets, parts, 256);
  }

  /** Appends one element to its bucket. */
  method PlaceElement(next: array<SymFreq>, offsets: array<nat>, d: nat, x: SymFreq, ghost st: seq<nat>,
                      ghost parts: seq<seq<SymFreq>>)
    requires Partition(st, next.Length) && Placed(next[..], st, offsets[..], parts)
    requires d < 256 && offsets.Length == 256 && offsets[d] < st[d + 1] <= next.Length
    modifies next, offsets
    ensures |parts| == 256 && Placed(next[..], st, offsets[..], parts[d := parts[d] + [x]])
  {
    ghost var out, off := next[..], offsets[..];
    PlaceOne(out, st, off, parts, d, x);
    hide Placed, Partition;
    next[offsets[d]] := x;
    offsets[d] := offsets[d] + 1;
    assert next[..] == out[off[d] := x] && offsets[..] == off[d := off[d] + 1];
  }

  method StartPass(ghost s: seq<SymFreq>, next: array<SymFreq>, hist: array<nat>, p: nat)
    returns (offsets: array<nat>, ghost st: seq<nat>, ghost parts: seq<seq<SymFreq>>)
    requires |s| <= next.Length && hist.Length == 1024 && p < 4
    requires forall d :: 0 <= d < 256 ==> hist[256 * p + d] == |Bucket(s, p, d)|
    ensures fresh(offsets) && offsets.Length == 256
    ensures Partition(st, next.Length) && Sized(st, s, p)
    ensures Placed(next[..], st, offsets[..], parts) && Parts(parts, s[..0], p)
  {
    hide Filter, Bucket, Buckets, Starts, Placed, Partition, Parts, Sized;
    st := StartsExist(s, p);
    offsets := Offsets(s, hist, p, st);
    StartFacts(st, s, p);
    parts := seq(256, _ => []);
    NothingPlaced(next[..], s, p, st, offsets[..], parts);
  }

  method Distribute(cur: array<SymFreq>, next: array<SymFreq>, n: nat, hist: array<nat>, p: nat)
    requires cur != next && n <= cur.Length && n <= next.Length && hist.Length == 1024 && p < 4
    requires forall d :: 0 <= d < 256 ==> hist[256 * p + d] == |Bucket(cur[..n], p, d)|
    modifies next
    ensures next[..][..n] == Buckets(cur[..n], p, 256)
  {
    hide *;
    ghost var s := cur[..n];
    var offsets, st, parts := StartPass(s, next, hist, p);
    var i := 0;
    while i < n
      invariant i <= n && cur[..n] == s
      invariant Placed(next[..], st, offsets[..], parts)
      invariant Parts(parts, s[..i], p)
    {
      assert cur[i] == s[i];
      var d := Digit(cur[i].key, p);
      DistributeStep(s, p, i, d, st, offsets[..], parts, next[..]);
      PlaceElement(next, offsets, d, cur[i], st, parts);
      parts := parts[d := parts[d] + [s[i]]];
      i := i + 1;
    }
    assert s[..n] == s;
    BucketsComplete(next[..], s, p, st, offsets[..], parts);
  }

  lemma NothingPlaced(out: seq<SymFreq>, s: seq<SymFreq>, p: nat, st: seq<nat>, offsets: seq<nat>,
                      parts: seq<seq<SymFreq>>)
    requires Partition(st, |s|) && |s| <= |out| && |offsets| == |parts| == 256
    requires forall d :: 0 <= d < 256 ==> offsets[d] == st[d] && parts[d] == []
    ensures Partition(st, |out|) && Placed(out, st, offsets, parts) && Parts(parts, s[..0], p)
  {
  }

  lemma DistributeStep(s: seq<SymFreq>, p: nat, i: nat, d: nat, st: seq<nat>, offsets: seq<nat>,
                       parts: seq<seq<SymFreq>>, out: seq<SymFreq>)
    requires i < |s| && d == Digit(s[i].key, p) && Parts(parts, s[..i], p)
    requires Partition(st, |out|) && Placed(out, st, offsets, parts)
    requires Sized(st, s, p)
    ensures |offsets| == |parts| == 256 && |st| == 257 && offsets[d] < st[d + 1] <= |out|
    ensures Parts(parts[d := parts[d] + [s[i]]], s[..i + 1], p)
  {
    hide *;
    BucketPrefix(s, p, d, i + 1);
    BucketRoom(s, p, i, d, st, offsets, parts, out);
    PartsGrow(s, p, i, d, parts);
  }

  lemma BucketRoom(s: seq<SymFreq>, p: nat, i: nat, d: nat, st: seq<nat>, offsets: seq<nat>,
                   parts: seq<seq<SymFreq>>, out: seq<SymFreq>)
    requires i < |s| && d == Digit(s[i].key, p) && Parts(parts, s[..i], p)
    requires Partition(st, |out|) && Placed(out, st, offsets, parts)
    requires Sized(st, s, p) && |Bucket(s[..i + 1], p, d)| <= |Bucket(s, p, d)|
    ensures |offsets| == |parts| == 256 && |st| == 257 && offsets[d] < st[d + 1] <= |out|
  {
    hide *;
    DigitSmall(s[i].key, p);
    PlacedPart(out, st, offsets, parts, d);
    PartSize(s, p, i, d, st, parts);
  }

  lemma DigitSmall(key: nat, p: nat)
    ensures Digit(key, p) < 256
  {
  }

  /** A bucket is as full as its part is long. */
  lemma PlacedPart(out: seq<SymFreq>, st: seq<nat>, offsets: seq<nat>, parts: seq<seq<SymFreq>>, d: nat)
    requires Partition(st, |out|) && Placed(out, st, offsets, parts) && d < 256
    ensures |offsets| == |parts| == 256 && |st| == 257 && offsets[d] == st[d] + |parts[d]| && st[d + 1] <= |out|
  {
    assert PlacedAt(out, st[d], offsets[d], st[d + 1], parts[d]);
  }

  /** The next element makes its bucket longer, but not longer than it gets. */
  lemma PartSize(s: seq<SymFreq>, p: nat, i: nat, d: nat, st: seq<nat>, parts: seq<seq<SymFreq>>)
    requires i < |s| && d == Digit(s[i].key, p) && d < 256 && Parts(parts, s[..i], p) && |parts| == 256
    requires Sized(st, s, p) && |Bucket(s[..i + 1], p, d)| <= |Bucket(s, p, d)|
    ensures |st| == 257 && |parts[d]| < st[d + 1] - st[d]
  {
    hide Digit, Bucket;
    BucketGrows(s, p, i);
  }

  lemma PartsGrow(s: seq<SymFreq>, p: nat, i: nat, d: nat, parts: seq<seq<SymFreq>>)
    requires i < |s| && d == Digit(s[i].key, p) && Parts(parts, s[..i], p)
    ensures Parts(parts[d := parts[d] + [s[i]]], s[..i + 1], p)
  {
    hide Digit, Bucket;
    BucketGrows(s, p, i);
  }

  // ----- The whole sort -----

  /** How many of the elements have digit d in place p. */
  lemma BucketSize(s: seq<SymFreq>, t: seq<SymFreq>, p: nat, d: nat)
    requires multiset(s) == multiset(t)
    ensures |Bucket(s, p, d)| == |Bucket(t, p, d)|
  {
    FilterCount(s, t, DigitIs(p, d));
  }

  lemma BucketSizes(s: seq<SymFreq>, t: seq<SymFreq>, p: nat, hist: seq<nat>)
    requires multiset(s) == multiset(t) && p < 4 && Histogram(hist, s)
    ensures forall d :: 0 <= d < 256 ==> hist[256 * p + d] == |Bucket(t, p, d)|
  {
    forall d | 0 <= d < 256 ensures hist[256 * p + d] == |Bucket(t, p, d)| {
      assert Counted(hist, s, p, d);
      BucketSize(s, t, p, d);
    }
  }

  lemma {:induction false} FilterCount(s: seq<SymFreq>, t: seq<SymFreq>, f: Cond)
    requires multiset(s) == multiset(t)
    ensures |Filter(s, f)| == |Filter(t, f)|
  {
    if s == [] {
      assert |multiset(t)| == 0;
    } else {
      var x, s' := s[|s| - 1], s[..|s| - 1];
      assert s == s' + [x];
      assert x in multiset(t);
      var i :| 0 <= i < |t| && t[i] == x;
      FilterRemove(t, i, f);
      FilterCount(s', t[..i] + t[i + 1..], f);
    }
  }

  lemma FilterRemove(t: seq<SymFreq>, i: nat, f: Cond)
    requires i < |t|
    ensures multiset(t[..i] + t[i + 1..]) == multiset(t) - multiset{t[i]}
    ensures |Filter(t, f)| == |Filter(t[..i] + t[i + 1..], f)| + if f.Holds(t[i]) then 1 else 0
  {
    var x := t[i];
    assert t == t[..i] + ([x] + t[i + 1..]);
    FilterConcat(t[..i], [x] + t[i + 1..], f);
    FilterConcat([x], t[i + 1..], f);
    FilterConcat(t[..i], t[i + 1..], f);
    FilterOne(x, f);
  }

  /** The order in which equal keys stand determines the multiset. */
  lemma SameByKey(s: seq<SymFreq>, t: seq<SymFreq>)
    requires forall k: nat :: WithKey(s, k) == WithKey(t, k)
    ensures multiset(s) == multiset(t)
  {
    forall x: SymFreq ensures multiset(s)[x] == multiset(t)[x] {
      assert WithKey(s, x.key) == WithKey(t, x.key);
      CountByKey(s, x);
      CountByKey(t, x);
    }
  }

  lemma {:induction false} CountByKey(s: seq<SymFreq>, x: SymFreq)
    ensures multiset(s)[x] == multiset(WithKey(s, x.key))[x]
  {
    if s != [] {
      CountByKey(s[..|s| - 1], x);
      assert s == s[..|s| - 1] + [s[|s| - 1]];
    }
  }

  /** Ascending keys, and equal keys in their old order. */
  ghost predicate StableSorted(s: seq<SymFreq>, r: seq<SymFreq>) {
    && (forall i, j :: 0 <= i < j < |r| ==> r[i].key <= r[j].key)
    && (forall k: nat :: WithKey(r, k) == WithKey(s, k))
    && multiset(r) == multiset(s)
    && |r| == |s|
  }

  lemma PassKeeps(s: seq<SymFreq>, c: seq<SymFreq>, p: nat)
    requires SortedBelow(c, p) && |c| == |s| && forall k: nat :: WithKey(c, k) == WithKey(s, k)
    ensures var r := Buckets(c, p, 256);
      && SortedBelow(r, p + 1) && |r| == |s| && multiset(r) == multiset(s)
      && forall k: nat :: WithKey(r, k) == WithKey(s, k)
  {
    hide WithKey, Buckets, Digit, SortedBelow;
    var r := Buckets(c, p, 256);
    PassSorts(c, p, 256);
    PassWhole(c, p);
    forall k: nat ensures WithKey(r, k) == WithKey(s, k) {
      PassStable(c, p, 256, k);
      assert WithKey(c, k) == WithKey(s, k);
    }
    SameByKey(r, s);
  }

  ghost predicate Histogram(hist: seq<nat>, s: seq<SymFreq>) {
    |hist| == 1024 && forall p, d :: 0 <= p < 4 && 0 <= d < 256 ==> Counted(hist, s, p, d)
  }

  ghost predicate Counted(hist: seq<nat>, s: seq<SymFreq>, p: nat, d: nat)
    requires |hist| == 1024 && p < 4 && d < 256
  {
    hist[256 * p + d] == |Bucket(s, p, d)|
  }

  method Histograms(syms: array<SymFreq>, n: nat) returns (hist: array<nat>)
    requires n <= syms.Length
    ensures fresh(hist) && Histogram(hist[..], syms[..n])
  {
    hide Filter, Bucket, Digit;
    hist := new nat[1024](_ => 0);
    ghost var s := syms[..n];
    NothingCounted(hist[..], s);
    for i := 0 to n
      invariant syms[..n] == s
      invariant Histogram(hist[..], s[..i])
    {
      var freq := syms[i].key;
      HistogramStep(hist[..], s, i);
      var d0, d1, d2, d3 := Digit(freq, 0), Digit(freq, 1), Digit(freq, 2), Digit(freq, 3);
      hist[d0] := hist[d0] + 1;
      hist[256 + d1] := hist[256 + d1] + 1;
      hist[512 + d2] := hist[512 + d2] + 1;
      hist[768 + d3] := hist[768 + d3] + 1;
    }
    assert s[..n] == s;
  }

  lemma NothingCounted(hist: seq<nat>, s: seq<SymFreq>)
    requires |hist| == 1024 && forall i :: 0 <= i < 1024 ==> hist[i] == 0
    ensures Histogram(hist, s[..0])
  {
  }

  lemma HistogramStep(hist: seq<nat>, s: seq<SymFreq>, i: nat)
    requires i < |s| && Histogram(hist, s[..i])
    ensures var k := s[i].key;
      var d0, d1, d2, d3 := Digit(k, 0), 256 + Digit(k, 1), 512 + Digit(k, 2), 768 + Digit(k, 3);
      Histogram(hist[d0 := hist[d0] + 1][d1 := hist[d1] + 1][d2 := hist[d2] + 1][d3 := hist[d3] + 1], s[..i + 1])
  {
    hide Digit, Filter, Bucket;
    var k := s[i].key;
    var d0, d1, d2, d3 := Digit(k, 0), 256 + Digit(k, 1), 512 + Digit(k, 2), 768 + Digit(k, 3);
    var hist' := hist[d0 := hist[d0] + 1][d1 := hist[d1] + 1][d2 := hist[d2] + 1][d3 := hist[d3] + 1];
    var t := s[..i + 1];
    assert Histogram(hist', t) by {
      forall p, d | 0 <= p < 4 && 0 <= d < 256 ensures Counted(hist', t, p, d) {
        assert Counted(hist, s[..i], p, d);
        BucketGrows(s, p, i);
        CountCases(hist, hist', k, p, d);
      }
    }
  }

  lemma CountCases(hist: seq<nat>, hist': seq<nat>, k: nat, p: nat, d: nat)
    requires p < 4 && d < 256 && |hist| == 1024
    requires var d0, d1, d2, d3 := Digit(k, 0), 256 + Digit(k, 1), 512 + Digit(k, 2), 768 + Digit(k, 3);
      hist' == hist[d0 := hist[d0] + 1][d1 := hist[d1] + 1][d2 := hist[d2] + 1][d3 := hist[d3] + 1]
    ensures hist'[256 * p + d] == hist[256 * p + d] + if Digit(k, p) == d then 1 else 0
  {
    hide Digit;
    if p == 0 {} else if p == 1 {} else if p == 2 {} else {}
  }

  /** radix_sort_syms(): sorts by 32-bit keys between two buffers and returns the one that holds the result. */
  method RadixSortSyms(syms0: array<SymFreq>, syms1: array<SymFreq>, n: nat) returns (cur: array<SymFreq>)
    requires syms0 != syms1 && n <= syms0.Length && n <= syms1.Length
    requires forall i :: 0 <= i < n ==> syms0[i].key < 0x1_0000_0000
    modifies syms0, syms1
    ensures cur == syms0 || cur == syms1
    ensures StableSorted(old(syms0[..n]), cur[..n])
  {
    hide Filter, Bucket, Buckets, Digit, WithKey, Place, SortedBelow;
    ghost var s := syms0[..n];
    var hist := Histograms(syms0, n);
    ghost var counts := hist[..];
    var totalPasses := 4;
    KeysFit(s);
    while totalPasses > 1 && n == hist[(totalPasses - 1) * 256]
      invariant 1 <= totalPasses <= 4 && syms0[..n] == s && hist[..] == counts
      invariant forall x :: x in s ==> x.key < Place(totalPasses)
    {
      SkipPass(s, totalPasses - 1, counts);
      totalPasses := totalPasses - 1;
    }
    cur := syms0;
    var next := syms1;
    NothingSorted(s);
    for pass := 0 to totalPasses
      invariant (cur == syms0 && next == syms1) || (cur == syms1 && next == syms0)
      invariant SortedBelow(cur[..n], pass) && multiset(cur[..n]) == multiset(s)
      invariant forall k: nat :: WithKey(cur[..n], k) == WithKey(s, k)
      invariant hist[..] == counts
    {
      ghost var c := cur[..n];
      BucketSizes(s, c, pass, counts);
      Distribute(cur, next, n, hist, pass);
      assert next[..][..n] == next[..n];
      PassKeeps(s, c, pass);
      cur, next := next, cur;
    }
    SortedEnough(s, cur[..n], totalPasses);
  }

  lemma KeysFit(s: seq<SymFreq>)
    requires forall i :: 0 <= i < |s| ==> s[i].key < 0x1_0000_0000
    ensures forall x :: x in s ==> x.key < Place(4)
  {
    assert Place(2) == 0x1_0000;
  }

  lemma NothingSorted(s: seq<SymFreq>)
    ensures SortedBelow(s, 0)
  {
  }

  lemma SkipPass(s: seq<SymFreq>, p: nat, hist: seq<nat>)
    requires Histogram(hist, s) && 1 <= p < 4 && hist[p * 256] == |s|
    requires forall x :: x in s ==> x.key < Place(p + 1)
    ensures forall x :: x in s ==> x.key < Place(p)
  {
    assert Counted(hist, s, p, 0);
    FilterAll(s, DigitIs(p, 0));
    forall x | x in s ensures x.key < Place(p) {
      var i :| 0 <= i < |s| && s[i] == x;
      assert DigitIs(p, 0).Holds(s[i]);
      ZeroDigit(x.key, p);
    }
  }

  lemma ZeroDigit(k: nat, p: nat)
    requires k < Place(p + 1) && Digit(k, p) == 0
    ensures k < Place(p)
  {
    hide Place, Digit;
    DigitSplit(k, p);
    Small(k, Place(p + 1));
  }

  lemma Small(k: nat, w: nat)
    requires k < w
    ensures k % w == k
  {
  }

  lemma SortedEnough(s: seq<SymFreq>, r: seq<SymFreq>, p: nat)
    requires SortedBelow(r, p) && multiset(r) == multiset(s) && forall x :: x in s ==> x.key < Place(p)
    requires forall k: nat :: WithKey(r, k) == WithKey(s, k)
    ensures StableSorted(s, r)
  {
    hide WithKey, Place;
    forall i | 0 <= i < |r| ensures r[i].key % Place(p) == r[i].key {
      assert r[i] in multiset(r);
      Small(r[i].key, Place(p));
    }
    assert |r| == |multiset(r)| == |multiset(s)| == |s|;
  }
}
