/** The order in which calculate_minimum_redundancy() merges weights: leaves and internal nodes wait in two queues, and
  * each new internal node takes the two smallest. */
module TwoQueues {
  import opened PrefixCodes

  /** After m merges: weight[j] is the weight of internal node j, leaves[j] counts the leaves that nodes below j have
    * taken, and larger[j] is the larger of the two weights that node j merged. */
  datatype Merges = Merges(weight: seq<nat>, leaves: seq<nat>, larger: seq<nat>)

  /** The number of internal nodes that nodes below j have taken. */
  function Inner(leaves: seq<nat>, j: nat): int
    requires j < |leaves|
  {
    2 * j - leaves[j]
  }

  ghost predicate Shape(n: nat, h: Merges) {
    var m := |h.weight|;
    && 1 <= m < n
    && |h.leaves| == m + 1 && |h.larger| == m
    && h.leaves[0] == 0 && h.leaves[1] == 2
    && (forall j :: 0 <= j < m ==> h.leaves[j] <= h.leaves[j + 1] <= h.leaves[j] + 2)
    && (forall j :: 1 <= j <= m ==> j < h.leaves[j] <= n && h.leaves[j] <= 2 * j)
  }

  /** Weights are positive, ascending, and sum up to less than 2^32. */
  ghost predicate Weights(w: seq<nat>) {
    && |w| >= 2
    && Ascending(w)
    && (forall i :: 0 <= i < |w| ==> w[i] >= 1)
    && Sum(w) < 0x1_0000_0000
  }

  datatype Pick = Pick(leaf: nat, root: nat, weight: nat)

  /** One pick: the internal node at the head of its queue if it is lighter than the next leaf. */
  function Take(w: seq<nat>, weight: seq<nat>, leaf: nat, root: nat): Pick
    requires leaf < |w| || root < |weight|
  {
    if leaf >= |w| || (root < |weight| && weight[root] < w[leaf])
    then Pick(leaf, root + 1, weight[root])
    else Pick(leaf + 1, root, w[leaf])
  }

  ghost function First(w: seq<nat>): Merges
    requires |w| >= 2
  {
    Merges([w[0] + w[1]], [0, 2], [w[1]])
  }

  ghost function Next(w: seq<nat>, h: Merges): Merges
    requires Shape(|w|, h) && |h.weight| < |w| - 1
  {
    var m := |h.weight|;
    var p := Take(w, h.weight, h.leaves[m], Inner(h.leaves, m));
    var q := Take(w, h.weight, p.leaf, p.root);
    Merges(h.weight + [p.weight + q.weight], h.leaves + [q.leaf], h.larger + [q.weight])
  }

  /** Internal node j was taken by node p. */
  ghost predicate IsParent(leaves: seq<nat>, j: nat, p: nat) {
    p + 1 < |leaves| && Inner(leaves, p) <= j < Inner(leaves, p + 1)
  }

  /** Leaf k was taken by node p. */
  ghost predicate IsLeafParent(leaves: seq<nat>, k: nat, p: nat) {
    p + 1 < |leaves| && leaves[p] <= k < leaves[p + 1]
  }

  // ----- What waits in the queues -----

  function Merged(a: seq<nat>, b: seq<nat>): (r: seq<nat>)
    ensures |r| == |a| + |b|
  {
    if a == [] then b
    else if b == [] then a
    else if b[0] < a[0] then [b[0]] + Merged(a, b[1..])
    else [a[0]] + Merged(a[1..], b)
  }

  ghost function Waiting(w: seq<nat>, weight: seq<nat>, leaf: nat, root: nat): seq<nat>
    requires leaf <= |w| && root <= |weight|
  {
    Merged(w[leaf..], weight[root..])
  }

  lemma TakeIsHead(w: seq<nat>, weight: seq<nat>, leaf: nat, root: nat)
    requires leaf <= |w| && root <= |weight| && (leaf < |w| || root < |weight|)
    ensures var p := Take(w, weight, leaf, root);
      && p.leaf <= |w| && p.root <= |weight|
      && Waiting(w, weight, leaf, root) == [p.weight] + Waiting(w, weight, p.leaf, p.root)
  {
    var a, b := w[leaf..], weight[root..];
    if a != [] { assert a[1..] == w[leaf + 1..]; }
    if b != [] { assert b[1..] == weight[root + 1..]; }
    if a == [] { assert b == [b[0]] + b[1..]; }
    if b == [] { assert a == [a[0]] + a[1..] && Merged(a[1..], b) == a[1..]; }
  }

  lemma {:induction false} InsertMerged(x: nat, a: seq<nat>, b: seq<nat>)
    requires forall i :: 0 <= i < |b| ==> b[i] <= x
    ensures Insert(x, Merged(a, b)) == Merged(a, b + [x])
  {
    if a == [] {
      InsertLast(x, b);
    } else if b == [] {
      if x < a[0] {
        assert [x][1..] == [] && Merged(a, []) == a;
      } else {
        InsertMerged(x, a[1..], []);
        assert [] + [x] == [x];
        assert Merged(a[1..], []) == a[1..];
      }
    } else if b[0] < a[0] {
      InsertMerged(x, a, b[1..]);
      assert (b + [x])[1..] == b[1..] + [x];
    } else {
      InsertMerged(x, a[1..], b);
    }
  }

  lemma {:induction false} InsertLast(x: nat, b: seq<nat>)
    requires forall i :: 0 <= i < |b| ==> b[i] <= x
    ensures Insert(x, b) == b + [x]
  {
    if b != [] {
      InsertLast(x, b[1..]);
      assert b + [x] == [b[0]] + (b[1..] + [x]);
    }
  }

  // ----- The invariant of the merge loop -----

  /** Nothing that still waits is lighter than the last merge's larger weight. */
  ghost predicate Heavier(w: seq<nat>, h: Merges)
    requires Shape(|w|, h)
  {
    var m := |h.weight|;
    var last := h.larger[m - 1];
    && h.weight[m - 1] <= 2 * last
    && (forall i :: h.leaves[m] <= i < |w| ==> last <= w[i])
    && (forall j :: Inner(h.leaves, m) <= j < m ==> last <= h.weight[j])
    && (forall i, j :: 0 <= i <= j < m ==> h.weight[i] <= h.weight[j] && h.larger[i] <= h.larger[j])
  }

  /** Each internal weight is the sum of what the node took. */
  ghost predicate Adds(w: seq<nat>, h: Merges)
    requires Shape(|w|, h)
  {
    forall j :: 0 <= j < |h.weight| ==> AddsAt(w, h, j)
  }

  ghost predicate AddsAt(w: seq<nat>, h: Merges, j: nat)
    requires Shape(|w|, h) && j < |h.weight|
  {
    h.weight[j] == Sum(w[h.leaves[j]..h.leaves[j + 1]]) + Sum(h.weight[Inner(h.leaves, j)..Inner(h.leaves, j + 1)])
  }

  /** A node outweighs its internal child by at least what that child's heavier part weighs. */
  ghost predicate Siblings(n: nat, h: Merges)
    requires Shape(n, h)
  {
    forall c: nat, p: nat :: IsParent(h.leaves, c, p) ==>
      h.weight[c] <= h.larger[p] && h.weight[c] + h.larger[c] <= h.weight[p]
  }

  /** The merged weights and what still waits make up the whole cost and the whole weight. */
  ghost predicate Balanced(w: seq<nat>, weight: seq<nat>, leaf: nat, root: nat)
    requires leaf <= |w| && root <= |weight|
  {
    var waiting := Waiting(w, weight, leaf, root);
    && Sum(weight) + HuffmanCost(waiting) == HuffmanCost(w)
    && Sum(waiting) == Sum(w)
  }

  ghost predicate Inv(w: seq<nat>, h: Merges) {
    && Weights(w)
    && Shape(|w|, h)
    && Heavier(w, h)
    && Adds(w, h)
    && Siblings(|w|, h)
    && Balanced(w, h.weight, h.leaves[|h.weight|], Inner(h.leaves, |h.weight|))
  }

  lemma FirstInv(w: seq<nat>)
    requires Weights(w)
    ensures Inv(w, First(w))
  {
    var h, x, rest := First(w), w[0] + w[1], w[2..];
    assert Waiting(w, h.weight, 2, 0) == Insert(x, rest) by {
      InsertMerged(x, rest, []);
      assert Merged(rest, []) == rest;
      assert [] + [x] == [x] == h.weight[0..];
    }
    InsertSum(x, rest);
    SumOne(x);
    assert w[1..][1..] == rest;
    FirstAdds(w);
  }

  lemma FirstAdds(w: seq<nat>)
    requires |w| >= 2
    ensures Adds(w, First(w))
  {
    assert w[..2] == [w[0], w[1]];
    TwoFromList(w[0], w[1], []);
    assert [w[0], w[1]] + [] == [w[0], w[1]];
  }

  lemma SumOne(x: nat)
    ensures Sum([x]) == x
  {
    assert [x][1..] == [];
  }

  lemma {:induction false} InsertSum(x: nat, s: seq<nat>)
    ensures Sum(Insert(x, s)) == x + Sum(s)
  {
    if s == [] || x < s[0] {
      assert ([x] + s)[1..] == s;
    } else {
      InsertSum(x, s[1..]);
      assert ([s[0]] + Insert(x, s[1..]))[1..] == Insert(x, s[1..]);
    }
  }

  lemma NextShape(w: seq<nat>, h: Merges)
    requires Shape(|w|, h) && |h.weight| < |w| - 1
    ensures Shape(|w|, Next(w, h))
  {
    var m, h' := |h.weight|, Next(w, h);
    var leaf, root := h.leaves[m], Inner(h.leaves, m);
    var p := Take(w, h.weight, leaf, root);
    var q := Take(w, h.weight, p.leaf, p.root);
    assert leaf <= q.leaf <= leaf + 2 && q.leaf <= |w| && q.root <= m && q.leaf + q.root == leaf + root + 2;
    hide Take;
    assert forall j :: 0 <= j <= m ==> h'.leaves[j] == h.leaves[j];
    assert h'.leaves[m + 1] == q.leaf;
  }

  lemma NextHeavier(w: seq<nat>, h: Merges)
    requires Weights(w) && Shape(|w|, h) && Heavier(w, h) && |h.weight| < |w| - 1
    ensures Shape(|w|, Next(w, h)) && Heavier(w, Next(w, h))
  {
    NextShape(w, h);
    var m, h' := |h.weight|, Next(w, h);
    var leaf, root := h.leaves[m], Inner(h.leaves, m);
    var p := Take(w, h.weight, leaf, root);
    var q := Take(w, h.weight, p.leaf, p.root);
    assert h.larger[m - 1] <= p.weight <= q.weight;
    assert forall i :: q.leaf <= i < |w| ==> q.weight <= w[i];
    assert forall j :: q.root <= j < m ==> q.weight <= h.weight[j];
    assert forall j :: 0 <= j < m ==> h'.weight[j] == h.weight[j] && h'.larger[j] == h.larger[j];
    assert h'.larger[m] == q.weight && h'.weight[m] == p.weight + q.weight;
  }

  lemma NextWaiting(w: seq<nat>, weight: seq<nat>, leaf: nat, root: nat, p: Pick, q: Pick)
    requires leaf <= |w| && root <= |weight| && (leaf < |w| || root < |weight|)
    requires p == Take(w, weight, leaf, root)
    requires p.leaf < |w| || p.root < |weight|
    requires q == Take(w, weight, p.leaf, p.root)
    requires forall j :: 0 <= j < |weight| ==> weight[j] <= p.weight + q.weight
    ensures q.leaf <= |w| && q.root <= |weight|
    ensures Waiting(w, weight, leaf, root) == [p.weight, q.weight] + Waiting(w, weight, q.leaf, q.root)
    ensures Waiting(w, weight + [p.weight + q.weight], q.leaf, q.root)
         == Insert(p.weight + q.weight, Waiting(w, weight, q.leaf, q.root))
  {
    var x := p.weight + q.weight;
    TakeIsHead(w, weight, leaf, root);
    TakeIsHead(w, weight, p.leaf, p.root);
    var rest := Waiting(w, weight, q.leaf, q.root);
    assert [p.weight] + ([q.weight] + rest) == [p.weight, q.weight] + rest;
    InsertMerged(x, w[q.leaf..], weight[q.root..]);
    assert (weight + [x])[q.root..] == weight[q.root..] + [x];
  }

  lemma NextBalanced(w: seq<nat>, weight: seq<nat>, leaf: nat, root: nat, p: Pick, q: Pick)
    requires leaf <= |w| && root <= |weight| && (leaf < |w| || root < |weight|)
    requires p == Take(w, weight, leaf, root)
    requires p.leaf < |w| || p.root < |weight|
    requires q == Take(w, weight, p.leaf, p.root)
    requires forall j :: 0 <= j < |weight| ==> weight[j] <= p.weight + q.weight
    requires Balanced(w, weight, leaf, root)
    ensures q.leaf <= |w| && q.root <= |weight| && p.weight + q.weight <= Sum(w)
    ensures Balanced(w, weight + [p.weight + q.weight], q.leaf, q.root)
  {
    hide HuffmanCost, Sum, Insert, Merged;
    NextWaiting(w, weight, leaf, root, p, q);
    CostStep(weight, p.weight, q.weight, Waiting(w, weight, q.leaf, q.root));
  }

  lemma TakeAdds(w: seq<nat>, weight: seq<nat>, leaf: nat, root: nat)
    requires leaf <= |w| && root <= |weight| && (leaf < |w| || root < |weight|)
    ensures var p := Take(w, weight, leaf, root);
      && leaf <= p.leaf <= |w| && root <= p.root <= |weight|
      && p.weight == Sum(w[leaf..p.leaf]) + Sum(weight[root..p.root])
  {
    if leaf < |w| { assert w[leaf..leaf + 1] == [w[leaf]]; SumOne(w[leaf]); }
    if root < |weight| { assert weight[root..root + 1] == [weight[root]]; SumOne(weight[root]); }
    assert w[leaf..leaf] == [] && weight[root..root] == [];
  }

  lemma NextAdds(w: seq<nat>, h: Merges)
    requires Shape(|w|, h) && Adds(w, h) && |h.weight| < |w| - 1
    requires Shape(|w|, Next(w, h))
    ensures Adds(w, Next(w, h))
  {
    hide Sum;
    var m, h' := |h.weight|, Next(w, h);
    forall j | 0 <= j < m ensures AddsAt(w, h', j) {
      var lo, hi := Inner(h.leaves, j), Inner(h.leaves, j + 1);
      assert AddsAt(w, h, j);
      assert h'.leaves[j] == h.leaves[j] && h'.leaves[j + 1] == h.leaves[j + 1];
      assert h'.weight[lo..hi] == h.weight[lo..hi];
    }
    NextAddsLast(w, h);
  }

  lemma NextAddsLast(w: seq<nat>, h: Merges)
    requires Shape(|w|, h) && |h.weight| < |w| - 1 && Shape(|w|, Next(w, h))
    ensures AddsAt(w, Next(w, h), |h.weight|)
  {
    hide Sum;
    var m, h' := |h.weight|, Next(w, h);
    var leaf, root := h.leaves[m], Inner(h.leaves, m);
    var p := Take(w, h.weight, leaf, root);
    var q := Take(w, h.weight, p.leaf, p.root);
    TakeAdds(w, h.weight, leaf, root);
    TakeAdds(w, h.weight, p.leaf, p.root);
    SumSplit(w, leaf, p.leaf, q.leaf);
    SumSplit(h.weight, root, p.root, q.root);
    assert h'.weight[root..q.root] == h.weight[root..q.root];
  }

  lemma SumSplit(s: seq<nat>, i: nat, j: nat, k: nat)
    requires i <= j <= k <= |s|
    ensures Sum(s[i..k]) == Sum(s[i..j]) + Sum(s[j..k])
  {
    assert s[i..k] == s[i..j] + s[j..k];
    SumConcat(s[i..j], s[j..k]);
  }

  lemma NextSiblings(w: seq<nat>, h: Merges)
    requires Shape(|w|, h) && Heavier(w, h) && Siblings(|w|, h) && |h.weight| < |w| - 1
    requires Shape(|w|, Next(w, h)) && Heavier(w, Next(w, h))
    ensures Siblings(|w|, Next(w, h))
  {
    var m, h' := |h.weight|, Next(w, h);
    var leaf, root := h.leaves[m], Inner(h.leaves, m);
    forall c: nat, p: nat | IsParent(h'.leaves, c, p)
      ensures h'.weight[c] <= h'.larger[p] && h'.weight[c] + h'.larger[c] <= h'.weight[p]
    {
      if p < m {
        assert h'.leaves[p] == h.leaves[p] && h'.leaves[p + 1] == h.leaves[p + 1];
        assert IsParent(h.leaves, c, p);
      } else {
        var x := Take(w, h.weight, leaf, root);
        var y := Take(w, h.weight, x.leaf, x.root);
        assert h.larger[c] <= h.larger[m - 1] <= x.weight <= y.weight;
        assert h.weight[c] == x.weight || h.weight[c] == y.weight;
      }
    }
  }

  lemma NextInv(w: seq<nat>, h: Merges)
    requires Inv(w, h) && |h.weight| < |w| - 1
    ensures Inv(w, Next(w, h))
    ensures Next(w, h).weight[|h.weight|] < 0x1_0000_0000
  {
    hide HuffmanCost, Sum, Insert, Merged, Balanced, Adds, Siblings;
    NextHeavier(w, h);
    NextAdds(w, h);
    NextSiblings(w, h);
    var m, h' := |h.weight|, Next(w, h);
    var leaf, root := h.leaves[m], Inner(h.leaves, m);
    var p := Take(w, h.weight, leaf, root);
    var q := Take(w, h.weight, p.leaf, p.root);
    assert h'.weight[m] == p.weight + q.weight;
    assert forall j :: 0 <= j < m ==> h.weight[j] == h'.weight[j] <= h'.weight[m];
    NextBalanced(w, h.weight, leaf, root, p, q);
    assert h'.leaves[m + 1] == q.leaf && Inner(h'.leaves, m + 1) == q.root;
  }

  lemma CostStep(weight: seq<nat>, x: nat, y: nat, rest: seq<nat>)
    ensures var s, t := [x, y] + rest, Insert(x + y, rest);
      && Sum(s) == Sum(t) == x + y + Sum(rest)
      && Sum(weight) + HuffmanCost(s) == Sum(weight + [x + y]) + HuffmanCost(t)
  {
    TwoFromList(x, y, rest);
    InsertSum(x + y, rest);
    SumConcat(weight, [x + y]);
    SumOne(x + y);
  }

  lemma TwoFromList(x: nat, y: nat, rest: seq<nat>)
    ensures Sum([x, y] + rest) == x + y + Sum(rest)
    ensures HuffmanCost([x, y] + rest) == x + y + HuffmanCost(Insert(x + y, rest))
  {
    var s := [x, y] + rest;
    assert s[1..] == [y] + rest && s[2..] == rest && ([y] + rest)[1..] == rest;
  }

  /** All merges of an ascending list of weights. */
  ghost function Build(w: seq<nat>, m: nat): (h: Merges)
    requires Weights(w) && 1 <= m < |w|
    ensures Inv(w, h) && |h.weight| == m
  {
    if m == 1 then
      FirstInv(w);
      First(w)
    else
      var h := Build(w, m - 1);
      NextInv(w, h);
      Next(w, h)
  }

  /** The internal weights together are the least cost, and the last one is the total. */
  lemma BuildCost(w: seq<nat>)
    requires Weights(w)
    ensures var h := Build(w, |w| - 1);
      && Sum(h.weight) == HuffmanCost(w)
      && h.leaves[|w| - 1] == |w|
      && h.weight[|w| - 2] == Sum(w)
  {
    hide Insert;
    var h, m := Build(w, |w| - 1), |w| - 1;
    assert h.leaves[m] == |w| && Inner(h.leaves, m) == m - 1;
    assert w[|w|..] == [] && h.weight[m - 1..] == [h.weight[m - 1]];
    SumOne(h.weight[m - 1]);
  }
}
