/** The list of byte ranges that an asset store has: merging a write into it, and what is missing (src/assetstore.c). */
module AssetRanges {

  /** An inclusive range. */
  datatype Range = Range(first: nat, last: nat)

  predicate In(r: Range, x: nat) {
    r.first <= x <= r.last
  }

  /** Sorted, without empty, overlapping or adjacent ranges. */
  ghost predicate Canonical(rs: seq<Range>) {
    && (forall i :: 0 <= i < |rs| ==> rs[i].first <= rs[i].last)
    && (forall i, j :: 0 <= i < j < |rs| ==> rs[i].last + 1 < rs[j].first)
  }

  ghost predicate Has(rs: seq<Range>, x: nat) {
    exists i :: 0 <= i < |rs| && In(rs[i], x)
  }

  /** A canonical list is determined by the positions it has. */
  lemma {:induction false} CanonicalUnique(a: seq<Range>, b: seq<Range>)
    requires Canonical(a) && Canonical(b) && forall x: nat :: Has(a, x) <==> Has(b, x)
    ensures a == b
  {
    if a == [] {
      FirstHas(b);
    } else {
      assert In(a[0], a[0].first) && Has(a, a[0].first);
      FirstSame(a, b);
      RestSame(a, b);
      CanonicalUnique(a[1..], b[1..]);
    }
  }

  lemma FirstHas(b: seq<Range>)
    requires Canonical(b)
    ensures b == [] || Has(b, b[0].first)
  {
    if b != [] { assert In(b[0], b[0].first); }
  }

  lemma FirstSame(a: seq<Range>, b: seq<Range>)
    requires Canonical(a) && Canonical(b) && a != [] && forall x: nat :: Has(a, x) <==> Has(b, x)
    ensures b != [] && a[0] == b[0]
  {
    assert In(a[0], a[0].first) && Has(a, a[0].first);
    assert Has(b, a[0].first);
    LeastFirst(b, a[0].first);
    assert In(b[0], b[0].first) && Has(b, b[0].first);
    assert Has(a, b[0].first);
    LeastFirst(a, b[0].first);
    FirstEnds(a, b);
    FirstEnds(b, a);
  }

  lemma LeastFirst(rs: seq<Range>, x: nat)
    requires Canonical(rs) && Has(rs, x)
    ensures rs != [] && rs[0].first <= x
  {
  }

  /** The first range of b is no longer than that of a. */
  lemma FirstEnds(a: seq<Range>, b: seq<Range>)
    requires Canonical(a) && Canonical(b) && a != [] && b != [] && a[0].first == b[0].first
    requires forall x: nat :: Has(a, x) <==> Has(b, x)
    ensures b[0].last <= a[0].last
  {
    if b[0].last > a[0].last {
      var x := a[0].last + 1;
      assert In(b[0], x) && Has(b, x);
      SecondAfter(a, x);
      assert false;
    }
  }

  /** Right after its first range, a list has nothing. */
  lemma SecondAfter(a: seq<Range>, x: nat)
    requires Canonical(a) && a != [] && x == a[0].last + 1
    ensures !Has(a, x)
  {
  }

  lemma RestSame(a: seq<Range>, b: seq<Range>)
    requires Canonical(a) && Canonical(b) && a != [] && b != [] && a[0] == b[0]
    requires forall x: nat :: Has(a, x) <==> Has(b, x)
    ensures Canonical(a[1..]) && Canonical(b[1..]) && forall x: nat :: Has(a[1..], x) <==> Has(b[1..], x)
  {
    forall x: nat ensures Has(a[1..], x) <==> Has(b[1..], x) {
      RestHas(a, x);
      RestHas(b, x);
    }
  }

  lemma RestHas(a: seq<Range>, x: nat)
    requires Canonical(a) && a != []
    ensures Has(a[1..], x) <==> Has(a, x) && !In(a[0], x)
  {
    if Has(a, x) && !In(a[0], x) {
      var i :| 0 <= i < |a| && In(a[i], x);
      assert a[1..][i - 1] == a[i];
    }
    if Has(a[1..], x) {
      var i :| 0 <= i < |a[1..]| && In(a[1..][i], x);
      assert a[i + 1] == a[1..][i];
    }
  }

  // ----- Merging -----

  /** Where a range that starts at `start` belongs. */
  ghost predicate Place(rs: seq<Range>, start: nat, i: nat) {
    && i <= |rs|
    && (forall k :: 0 <= k < i ==> rs[k].first <= start) && (forall k :: i <= k < |rs| ==> rs[k].first > start)
  }

  /** The source's binary search over the starts. */
  method FindPlace(rs: seq<Range>, start: nat) returns (i: nat)
    requires Canonical(rs) && rs != []
    ensures Place(rs, start, i)
  {
    var low, high, value := 0, |rs| - 1, 0;
    i := 0;
    while low <= high
      invariant 0 <= low <= |rs| && -1 <= high < |rs| && low <= high + 1 && i < |rs|
      invariant forall k :: 0 <= k < low ==> rs[k].first < start
      invariant forall k :: high < k < |rs| ==> rs[k].first > start
      invariant (low == 0 && high == |rs| - 1) || value == rs[i].first
      invariant (low == 0 && high == |rs| - 1) || (value < start && low == i + 1) || (value > start && high == i - 1)
      decreases high - low
    {
      i := (low + high) / 2;
      value := rs[i].first;
      if value < start {
        low := i + 1;
      } else if value > start {
        high := i - 1;
      } else {
        break;
      }
    }
    if start >= value { i := i + 1; }
  }

  /** x lies in one of the ranges lo up to hi. */
  ghost predicate HasIn(rs: seq<Range>, lo: nat, hi: nat, x: nat)
    requires hi <= |rs|
  {
    exists i :: lo <= i < hi && In(rs[i], x)
  }

  /** The grown range has the positions of the new one and of the ranges i up to j. */
  ghost predicate Covers(rs: seq<Range>, i: nat, j: nat, new_: Range, grown: Range)
    requires j <= |rs|
  {
    forall x: nat :: In(grown, x) <==> In(new_, x) || HasIn(rs, i, j, x)
  }

  lemma NoneYet(rs: seq<Range>, i: nat, new_: Range)
    requires i <= |rs|
    ensures Covers(rs, i, i, new_, new_)
  {
  }

  lemma HasInNext(rs: seq<Range>, i: nat, j: nat, x: nat)
    requires i <= j < |rs|
    ensures HasIn(rs, i, j + 1, x) <==> HasIn(rs, i, j, x) || In(rs[j], x)
  {
    if HasIn(rs, i, j, x) { var k :| i <= k < j && In(rs[k], x); }
  }

  lemma HasInBefore(rs: seq<Range>, i: nat, j: nat, x: nat)
    requires 0 < i <= j <= |rs|
    ensures HasIn(rs, i - 1, j, x) <==> HasIn(rs, i, j, x) || In(rs[i - 1], x)
  {
    if HasIn(rs, i, j, x) { var k :| i <= k < j && In(rs[k], x); }
  }

  function Max(a: nat, b: nat): (m: nat)
    ensures m >= a && m >= b
  {
    if a > b then a else b
  }

  function Min(a: nat, b: nat): (m: nat)
    ensures a <= b ==> m == a
    ensures b <= a ==> m == b
  {
    if a < b then a else b
  }

  /** The grown range takes in the next range on the right. */
  lemma GrowNext(rs: seq<Range>, i: nat, j: nat, new_: Range, grown: Range)
    requires i <= j < |rs| && Covers(rs, i, j, new_, grown)
    requires grown.first <= rs[j].first <= rs[j].last && grown.first <= grown.last && grown.last + 1 >= rs[j].first
    ensures Covers(rs, i, j + 1, new_, Range(grown.first, Max(grown.last, rs[j].last)))
  {
    hide HasIn;
    forall x: nat ensures In(Range(grown.first, Max(grown.last, rs[j].last)), x) <==>
        In(new_, x) || HasIn(rs, i, j + 1, x) {
      HasInNext(rs, i, j, x);
    }
  }

  /** The left neighbour joins the grown range. */
  lemma LeftJoins(rs: seq<Range>, i: nat, j: nat, new_: Range, grown: Range)
    requires 0 < i <= j <= |rs| && Covers(rs, i, j, new_, grown)
    requires rs[i - 1].first <= grown.first <= rs[i - 1].last + 1 && grown.first <= grown.last
    ensures Covers(rs, i - 1, j, new_, Range(rs[i - 1].first, Max(grown.last, rs[i - 1].last)))
  {
    hide HasIn;
    var r := Range(rs[i - 1].first, Max(grown.last, rs[i - 1].last));
    forall x: nat ensures In(r, x) <==> In(new_, x) || HasIn(rs, i - 1, j, x) {
      HasInBefore(rs, i, j, x);
    }
  }

  /** Ranges l up to j of the list give way to one that covers them and the new one. */
  lemma Replaced(rs: seq<Range>, l: nat, j: nat, new_: Range, r: Range)
    requires Canonical(rs) && l <= j <= |rs| && r.first <= r.last && Covers(rs, l, j, new_, r)
    requires (l > 0 ==> rs[l - 1].last + 1 < r.first) && (j < |rs| ==> r.last + 1 < rs[j].first)
    ensures var out := rs[..l] + [r] + rs[j..];
      Canonical(out) && forall x: nat :: Has(out, x) <==> Has(rs, x) || In(new_, x)
  {
    ReplacedCanonical(rs, l, j, r);
    hide Canonical, Has, HasIn;
    forall x: nat ensures Has(rs[..l] + [r] + rs[j..], x) <==> Has(rs, x) || In(new_, x) {
      ReplacedHas(rs, l, j, new_, r, x);
    }
  }

  lemma ReplacedCanonical(rs: seq<Range>, l: nat, j: nat, r: Range)
    requires Canonical(rs) && l <= j <= |rs| && r.first <= r.last
    requires (l > 0 ==> rs[l - 1].last + 1 < r.first) && (j < |rs| ==> r.last + 1 < rs[j].first)
    ensures Canonical(rs[..l] + [r] + rs[j..])
  {
    PartsCanonical(rs, l, j);
    assert Canonical([r]);
    hide Canonical;
    JoinCanonical(rs[..l], [r]);
    JoinCanonical(rs[..l] + [r], rs[j..]);
  }

  lemma PartsCanonical(rs: seq<Range>, l: nat, j: nat)
    requires Canonical(rs) && l <= |rs| && j <= |rs|
    ensures Canonical(rs[..l]) && Canonical(rs[j..])
  {
  }

  lemma JoinCanonical(a: seq<Range>, b: seq<Range>)
    requires Canonical(a) && Canonical(b) && (a != [] && b != [] ==> a[|a| - 1].last + 1 < b[0].first)
    ensures Canonical(a + b)
  {
    forall i, j | 0 <= i < |a| && 0 <= j < |b| ensures a[i].last + 1 < b[j].first {
      assert i < |a| - 1 ==> a[i].last + 1 < a[|a| - 1].first <= a[|a| - 1].last;
      assert 0 < j ==> b[0].first <= b[0].last < b[j].first;
    }
  }

  lemma ReplacedHas(rs: seq<Range>, l: nat, j: nat, new_: Range, r: Range, x: nat)
    requires l <= j <= |rs| && (In(r, x) <==> In(new_, x) || HasIn(rs, l, j, x))
    ensures Has(rs[..l] + [r] + rs[j..], x) <==> Has(rs, x) || In(new_, x)
  {
    var out := rs[..l] + [r] + rs[j..];
    if Has(rs, x) {
      var k :| 0 <= k < |rs| && In(rs[k], x);
      if k < l { assert out[k] == rs[k]; }
      else if k >= j { assert out[k - j + l + 1] == rs[k]; }
      else { assert out[l] == r; }
    }
    if In(new_, x) { assert out[l] == r; }
    if Has(out, x) {
      var k :| 0 <= k < |out| && In(out[k], x);
      if k < l { assert out[k] == rs[k]; }
      else if k > l { assert out[k] == rs[k - l - 1 + j]; }
    }
  }

  /** The ranges from the place on start after the new one, those before do not. */
  lemma Around(rs: seq<Range>, i: nat, start: nat, j: nat)
    requires Canonical(rs) && Place(rs, start, i) && i <= j <= |rs|
    ensures j < |rs| ==> start < rs[j].first <= rs[j].last
    ensures i > 0 ==> rs[i - 1].first <= start
    ensures i > 0 && j < |rs| ==> rs[i - 1].last + 1 < rs[j].first
    ensures i > 1 ==> rs[i - 2].last + 1 < rs[i - 1].first
  {
  }

  lemma InMeans(r: Range, x: nat)
    ensures In(r, x) <==> r.first <= x <= r.last
  {
  }

  lemma LeftReach(rs: seq<Range>, i: nat, j: nat, e: nat)
    requires 0 < i <= j <= |rs| && (j < |rs| ==> e + 1 < rs[j].first && rs[i - 1].last + 1 < rs[j].first)
    ensures j < |rs| ==> Max(e, rs[i - 1].last) + 1 < rs[j].first
  {
  }

  class RangeList {
    var ranges: seq<Range>

    constructor ()
      ensures ranges == []
    {
      ranges := [];
    }

    /** _merge_range(): adds the positions from start to end. */
    method MergeRange(start: nat, end: nat)
      requires start <= end && Canonical(ranges)
      modifies this
      ensures Canonical(ranges) && forall x: nat :: Has(ranges, x) <==> old(Has(ranges, x)) || start <= x <= end
    {
      if |ranges| == 0 {
        ranges := [Range(start, end)];
        assert ranges[0] == Range(start, end);
        return;
      }
      var i := FindPlace(ranges, start);
      MergeAt(start, end, i);
    }

    /** Merges all ranges that the new one reaches to the right of its place, and at most one to the left. */
    method MergeAt(start: nat, end: nat, place: nat)
      requires start <= end && Canonical(ranges) && Place(ranges, start, place) && place <= |ranges|
      modifies this
      ensures Canonical(ranges) && forall x: nat :: Has(ranges, x) <==> old(Has(ranges, x)) || start <= x <= end
    {
      hide *;
      ghost var rs, j, new_ := ranges, place, Range(start, end);
      var i, s, e := place, start, end;
      NoneYet(rs, i, new_);
      assert ranges == rs[..i] + rs[j..];
      while i < |ranges| && e >= ranges[i].first - 1 && s <= ranges[i].last + 1
        invariant i == place <= j <= |rs| && ranges == rs[..i] + rs[j..] && s == start && end <= e
        invariant Covers(rs, i, j, new_, Range(s, e))
        decreases |rs| - j
      {
        assert ranges[i] == rs[j];
        Around(rs, i, start, j);
        GrowNext(rs, i, j, new_, Range(s, e));
        var range := ranges[i];
        s, e := Min(s, range.first), Max(e, range.last);
        ranges := ranges[..i] + ranges[i + 1..];
        j := j + 1;
      }
      Around(rs, i, start, j);
      if j < |rs| { assert ranges[i] == rs[j]; }
      if i > 0 {
        assert ranges[i - 1] == rs[i - 1];
        if s <= ranges[i - 1].last + 1 {
          LeftJoins(rs, i, j, new_, Range(s, e));
          LeftReach(rs, i, j, e);
          var range := ranges[i - 1];
          s, e := Min(s, range.first), Max(e, range.last);
          OneLessLeft(rs, i, j);
          ranges := ranges[..i - 1] + ranges[i..];
          i := i - 1;
        }
      }
      Replaced(rs, i, j, new_, Range(s, e));
      ranges := ranges[..i] + [Range(s, e)] + ranges[i..];
      assert ranges == rs[..i] + [Range(s, e)] + rs[j..];
      forall x: nat ensures In(new_, x) <==> start <= x <= end { InMeans(new_, x); }
    }
  }

  lemma OneLessLeft(rs: seq<Range>, i: nat, j: nat)
    requires 0 < i <= j <= |rs|
    ensures var left := rs[..i] + rs[j..]; left[..i - 1] + left[i..] == rs[..i - 1] + rs[j..]
  {
  }

  /** Any writes that have the same positions in the end, in whatever order and however often, leave the same list. */
  method MergeAll(writes: seq<Range>) returns (list: RangeList)
    requires forall i :: 0 <= i < |writes| ==> writes[i].first <= writes[i].last
    ensures Canonical(list.ranges) && forall x: nat :: Has(list.ranges, x) <==> Has(writes, x)
    ensures forall rs :: Canonical(rs) && (forall x: nat :: Has(rs, x) <==> Has(writes, x)) ==> list.ranges == rs
  {
    list := new RangeList();
    for i := 0 to |writes|
      invariant fresh(list) && Canonical(list.ranges) && forall x: nat :: Has(list.ranges, x) <==> Has(writes[..i], x)
    {
      list.MergeRange(writes[i].first, writes[i].last);
      OneMoreWrite(writes, i);
    }
    assert writes[..|writes|] == writes;
    forall rs | Canonical(rs) && (forall x: nat :: Has(rs, x) <==> Has(writes, x)) ensures list.ranges == rs {
      CanonicalUnique(list.ranges, rs);
    }
  }

  lemma OneMoreWrite(writes: seq<Range>, i: nat)
    requires i < |writes|
    ensures forall x: nat :: Has(writes[..i + 1], x) <==> Has(writes[..i], x) || writes[i].first <= x <= writes[i].last
  {
    var few, more := writes[..i], writes[..i + 1];
    assert more == few + [writes[i]];
    forall x: nat ensures Has(more, x) <==> Has(few, x) || writes[i].first <= x <= writes[i].last {
      if Has(few, x) { var k :| 0 <= k < i && In(few[k], x); assert In(more[k], x); }
      if In(writes[i], x) { assert In(more[i], x); }
      if Has(more, x) && !In(writes[i], x) {
        var k :| 0 <= k < i + 1 && In(more[k], x);
        assert In(few[k], x);
      }
    }
  }

  // ----- What is missing -----

  /** The maximal gaps from `low` on: those before each range, and the rest up to the total size, unless that is only
    * the position of the total size itself. */
  function Gaps(rs: seq<Range>, low: nat, total: nat): seq<Range> {
    if rs == [] then
      if low < total then [Range(low, total)] else []
    else
      (if low < rs[0].first then [Range(low, rs[0].first - 1)] else []) + Gaps(rs[1..], rs[0].last + 1, total)
  }

  /** The list starts at `low` or later and ends at the total size. */
  ghost predicate Within(rs: seq<Range>, low: nat, total: nat) {
    Canonical(rs) && forall i :: 0 <= i < |rs| ==> low <= rs[i].first && rs[i].last <= total
  }

  /** The last position counts as there when it alone is missing. */
  ghost predicate Closed(rs: seq<Range>, low: nat, total: nat, x: nat) {
    x == total && (low == total || (total > 0 && Has(rs, total - 1)))
  }

  /** The gaps have exactly the positions up to the total size that the list has not, but for the last one when it alone
    * is missing. */
  lemma {:induction false} GapsComplement(rs: seq<Range>, low: nat, total: nat, x: nat)
    requires Within(rs, low, total) && low <= x <= total
    ensures Has(Gaps(rs, low, total), x) <==> !Has(rs, x) && !Closed(rs, low, total, x)
    decreases |rs|
  {
    var gaps := Gaps(rs, low, total);
    if rs == [] {
      if low < total { assert gaps[0] == Range(low, total); }
    } else {
      var r, rest := rs[0], Gaps(rs[1..], rs[0].last + 1, total);
      RestHas(rs, x);
      FirstGap(gaps, if low < r.first then [Range(low, r.first - 1)] else [], rest, x);
      if x <= r.last {
        GapsAfter(rs[1..], r.last + 1, total, x);
        LaterHas(rs, x);
      } else {
        GapsComplement(rs[1..], r.last + 1, total, x);
        if total > 0 { RestHas(rs, total - 1); }
      }
    }
  }

  lemma FirstGap(gaps: seq<Range>, first: seq<Range>, rest: seq<Range>, x: nat)
    requires gaps == first + rest && |first| <= 1
    ensures Has(gaps, x) <==> (first != [] && In(first[0], x)) || Has(rest, x)
  {
    if Has(rest, x) { var k :| 0 <= k < |rest| && In(rest[k], x); assert gaps[|first| + k] == rest[k]; }
    if first != [] && In(first[0], x) { assert gaps[0] == first[0]; }
    if Has(gaps, x) {
      var k :| 0 <= k < |gaps| && In(gaps[k], x);
      if k >= |first| { assert rest[k - |first|] == gaps[k]; }
    }
  }

  /** All gaps come after `low`. */
  lemma {:induction false} GapsAfter(rs: seq<Range>, low: nat, total: nat, x: nat)
    requires Within(rs, low, total) && x < low
    ensures !Has(Gaps(rs, low, total), x)
  {
    if rs != [] {
      GapsAfter(rs[1..], rs[0].last + 1, total, x);
      FirstGap(Gaps(rs, low, total), if low < rs[0].first then [Range(low, rs[0].first - 1)] else [],
               Gaps(rs[1..], rs[0].last + 1, total), x);
    }
  }

  lemma LaterHas(rs: seq<Range>, x: nat)
    requires Canonical(rs) && rs != [] && x <= rs[0].last
    ensures Has(rs, x) <==> rs[0].first <= x
  {
    if rs[0].first <= x { assert In(rs[0], x); }
  }

  /** The gaps are listed in order, and each is as long as can be. */
  lemma {:induction false} GapsCanonical(rs: seq<Range>, low: nat, total: nat)
    requires Within(rs, low, total)
    ensures Canonical(Gaps(rs, low, total))
    ensures forall i :: 0 <= i < |Gaps(rs, low, total)| ==> Gaps(rs, low, total)[i].first >= low
  {
    if rs != [] {
      GapsCanonical(rs[1..], rs[0].last + 1, total);
    }
  }

  /** Pairs of starts and ends. */
  function Flat(rs: seq<Range>): (s: seq<nat>)
    ensures |s| == 2 * |rs|
    ensures forall i :: 0 <= i < |rs| ==> s[2 * i] == rs[i].first && s[2 * i + 1] == rs[i].last
  {
    if rs == [] then [] else Flat(rs[..|rs| - 1]) + [rs[|rs| - 1].first, rs[|rs| - 1].last]
  }

  /** The part of the gaps found so far. */
  lemma {:induction false} GapsSplit(rs: seq<Range>, low: nat, total: nat, i: nat)
    requires i < |rs|
    ensures Gaps(rs[i..], low, total)
         == (if low < rs[i].first then [Range(low, rs[i].first - 1)] else []) + Gaps(rs[i + 1..], rs[i].last + 1, total)
  {
    assert rs[i..][1..] == rs[i + 1..];
  }

  lemma FlatNext(rs: seq<Range>, r: Range)
    ensures Flat(rs + [r]) == Flat(rs) + [r.first, r.last]
  {
    assert (rs + [r])[..|rs|] == rs;
  }

  /** Before range i, with everything up to `low` looked at: the gaps found, and what has been stored of them. */
  ghost predicate Finding(rs: seq<Range>, total: nat, store: bool, i: nat, low: nat, found: seq<Range>, out: seq<nat>) {
    && Within(rs, 0, total) && i <= |rs| && Gaps(rs, 0, total) == found + Gaps(rs[i..], low, total)
    && out == if store then Flat(found) else []
  }

  lemma FindNext(rs: seq<Range>, total: nat, store: bool, i: nat, low: nat, found: seq<Range>, out: seq<nat>)
    requires Finding(rs, total, store, i, low, found, out) && i < |rs|
    ensures rs[i].first <= rs[i].last
    ensures low < rs[i].first ==>
        Finding(rs, total, store, i + 1, rs[i].last + 1, found + [Range(low, rs[i].first - 1)],
                                          if store then out + [low, rs[i].first - 1] else out)
    ensures low >= rs[i].first ==> Finding(rs, total, store, i + 1, rs[i].last + 1, found, out)
  {
    hide Within, Gaps, Flat, Canonical;
    GapsSplit(rs, low, total, i);
    FirstBelow(rs, i, total);
    if low < rs[i].first { FlatNext(found, Range(low, rs[i].first - 1)); }
  }

  lemma FindStart(rs: seq<Range>, total: nat, store: bool)
    requires Within(rs, 0, total)
    ensures Finding(rs, total, store, 0, 0, [], [])
  {
    assert rs[0..] == rs;
  }

  lemma FindEnd(rs: seq<Range>, total: nat, store: bool, low: nat, found: seq<Range>, out: seq<nat>)
    requires Finding(rs, total, store, |rs|, low, found, out)
    ensures low < total ==> Gaps(rs, 0, total) == found + [Range(low, total)]
    ensures low >= total ==> Gaps(rs, 0, total) == found
    ensures store ==> Flat(found + [Range(low, total)]) == out + [low, total]
  {
    assert rs[|rs|..] == [];
    FlatNext(found, Range(low, total));
  }

  /** So many gaps have been found, and stored if they are asked for. */
  lemma Found(rs: seq<Range>, total: nat, store: bool, i: nat, low: nat, found: seq<Range>, out: seq<nat>)
    requires Finding(rs, total, store, i, low, found, out)
    ensures var gaps := Gaps(rs, 0, total);
      |found| <= |gaps| && gaps[..|found|] == found && out == if store then Flat(found) else []
  {
  }

  /** _missing_ranges(): the number of gaps up to the limit, and the gaps themselves if they are asked for. */
  method MissingRanges(rs: seq<Range>, totalSize: nat, store: bool, countMax: nat) returns (count: nat, out: seq<nat>)
    requires Within(rs, 0, totalSize)
    ensures var gaps := Gaps(rs, 0, totalSize);
      && count == (if countMax < |gaps| then countMax else |gaps|) && out == if store then Flat(gaps[..count]) else []
  {
    hide *;
    FindStart(rs, totalSize, store);
    Found(rs, totalSize, store, 0, 0, [], []);
    count, out := 0, [];
    if countMax == 0 { return; }
    ghost var found: seq<Range> := [];
    var low: nat := 0;
    for i := 0 to |rs|
      invariant Finding(rs, totalSize, store, i, low, found, out) && count == |found| <= countMax
    {
      Found(rs, totalSize, store, i, low, found, out);
      if count >= countMax { return; }
      FindNext(rs, totalSize, store, i, low, found, out);
      if low < rs[i].first {
        if store { out := out + [low, rs[i].first - 1]; }
        count := count + 1;
        found := found + [Range(low, rs[i].first - 1)];
      }
      low := rs[i].last + 1;
    }
    Found(rs, totalSize, store, |rs|, low, found, out);
    FindEnd(rs, totalSize, store, low, found, out);
    if low < totalSize && count < countMax {
      if store { out := out + [low, totalSize]; }
      count := count + 1;
      assert Gaps(rs, 0, totalSize)[..count] == found + [Range(low, totalSize)];
    }
  }

  lemma FirstBelow(rs: seq<Range>, i: nat, total: nat)
    requires Within(rs, 0, total) && i < |rs|
    ensures rs[i].first <= rs[i].last <= total
  {
  }
}
