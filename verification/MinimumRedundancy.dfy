/** calculate_minimum_redundancy(): the in-place, three-phase computation of optimal code lengths. */
module MinimumRedundancy {
  import opened Bits
  import opened PrefixCodes
  import opened TwoQueues

  function Add32(x: nat, y: nat): nat {
    (x + y) % 0x1_0000_0000
  }

  lemma NoWrap(x: nat, y: nat)
    requires x + y < 0x1_0000_0000
    ensures Add32(x, y) == x + y
  {
  }

  // ----- Phase 1: merge, leaving parent indices in place of consumed weights -----

  /** The queues inside the array: internal weights at root..next and leaf weights from leaf on. */
  ghost predicate Queues(s: seq<nat>, w: seq<nat>, weight: seq<nat>, root: nat, leaf: nat) {
    && |s| == |w| && root <= |weight| < leaf <= |w|
    && (forall j :: root <= j < |weight| ==> s[j] == weight[j])
    && (forall k :: leaf <= k < |w| ==> s[k] == w[k])
  }

  /** Adds the lighter of the two queue heads to `sum` in place a[next]; a consumed internal node keeps its parent's
    * index. The first pick of the source omits the test root < next, which always holds there. */
  method PickInto(a: array<nat>, next: nat, root: nat, leaf: nat, sum: nat, ghost w: seq<nat>, ghost weight: seq<nat>)
    returns (root': nat, leaf': nat)
    requires |weight| == next && Queues(a[..], w, weight, root, leaf) && (leaf < |w| || root < next)
    modifies a
    ensures var p := Take(w, weight, leaf, root);
      root' == p.root && leaf' == p.leaf && a[next] == Add32(sum, p.weight)
    ensures root' <= root + 1 && (root' == root + 1 ==> a[root] == next)
    ensures forall i :: 0 <= i < a.Length && i != next && !(root <= i < root') ==> a[i] == old(a[i])
    ensures Queues(a[..], w, weight, root', leaf')
  {
    hide Add32;
    var n := a.Length;
    if leaf >= n || (root < next && a[root] < a[leaf]) {
      a[next] := Add32(sum, a[root]);
      a[root] := next;
      root', leaf' := root + 1, leaf;
    } else {
      a[next] := Add32(sum, a[leaf]);
      root', leaf' := root, leaf + 1;
    }
  }

  /** One round of the merge loop. */
  method MergeOne(a: array<nat>, next: nat, root: nat, leaf: nat, ghost w: seq<nat>, ghost weight: seq<nat>)
    returns (root': nat, leaf': nat)
    requires |weight| == next < |w| - 1 && root + leaf == 2 * next && Queues(a[..], w, weight, root, leaf)
    requires a.Length == |w| && Weights(w)
    modifies a
    ensures leaf < |w| || root < next
    ensures var p := Take(w, weight, leaf, root);
      (p.leaf < |w| || p.root < next)
      && var q := Take(w, weight, p.leaf, p.root);
      root' == q.root && leaf' == q.leaf && (p.weight + q.weight < 0x1_0000_0000 ==> a[next] == p.weight + q.weight)
    ensures forall j :: root <= j < root' ==> a[j] == next
    ensures forall i :: 0 <= i < a.Length && i != next && !(root <= i < root') ==> a[i] == old(a[i])
    ensures Queues(a[..], w, weight, root', leaf')
  {
    hide Add32, Weights, Queues;
    ghost var p := Take(w, weight, leaf, root);
    ghost var q := Take(w, weight, p.leaf, p.root);
    if p.weight + q.weight < 0x1_0000_0000 { NoWrap(0, p.weight); NoWrap(p.weight, q.weight); }
    root', leaf' := PickInto(a, next, root, leaf, 0, w, weight);
    root', leaf' := PickInto(a, next, root', leaf', a[next], w, weight);
  }

  method MergePairs(a: array<nat>, ghost w: seq<nat>) returns (ghost h: Merges)
    requires w == a[..] && Weights(w)
    modifies a
    ensures h == Build(w, |w| - 1)
    ensures forall j :: 0 <= j < |w| - 2 ==> IsParent(h.leaves, j, a[j])
  {
    hide Build, Inv, Weights, IsParent, Shape, Next, Add32;
    var n := a.Length;
    FirstSum(w);
    NoWrap(w[0], w[1]);
    a[0] := Add32(a[0], a[1]);
    h := Build1(w);
    var root, leaf, next := 0, 2, 1;
    while next < n - 1
      invariant 1 <= next <= n - 1
      invariant h == Build(w, next) && |h.weight| == next && |h.leaves| == next + 1
      invariant leaf == h.leaves[next] && root == Inner(h.leaves, next)
      invariant 0 <= root < next < leaf <= n
      invariant forall j :: 0 <= j < root ==> IsParent(h.leaves, j, a[j])
      invariant Queues(a[..], w, h.weight, root, leaf)
    {
      ghost var h', p, q := BuildNext(w, h);
      root, leaf := MergeOne(a, next, root, leaf, w, h.weight);
      ParentsStay(h, h', next, root);
      h := h';
      next := next + 1;
    }
  }

  lemma ParentsStay(h: Merges, h': Merges, next: nat, root: nat)
    requires |h.leaves| == next + 1 && |h'.leaves| == next + 2 && h'.leaves[..next + 1] == h.leaves
    requires Inner(h'.leaves, next + 1) == root
    ensures forall j, k :: IsParent(h.leaves, j, k) ==> IsParent(h'.leaves, j, k)
    ensures forall j: nat {:trigger IsParent(h'.leaves, j, next)} :: Inner(h.leaves, next) <= j < root ==>
        IsParent(h'.leaves, j, next)
  {
    assert forall k :: 0 <= k <= next ==> h.leaves[k] == h'.leaves[k];
  }

  lemma FirstSum(w: seq<nat>)
    requires Weights(w)
    ensures |w| >= 2 && w[0] + w[1] < 0x1_0000_0000
  {
    assert Sum(w) == w[0] + Sum(w[1..]);
    assert Sum(w[1..]) == w[1] + Sum(w[1..][1..]);
  }

  lemma Build1(w: seq<nat>) returns (h: Merges)
    requires Weights(w)
    ensures h == Build(w, 1) == First(w) && Shape(|w|, h)
  {
    h := Build(w, 1);
  }

  lemma BuildStep(w: seq<nat>, m: nat)
    requires Weights(w) && 1 <= m < |w| - 1
    ensures var h := Build(w, m);
      Shape(|w|, h) && |h.weight| == m && Build(w, m + 1) == Next(w, h) && Shape(|w|, Next(w, h))
      && Next(w, h).weight[m] < 0x1_0000_0000
  {
    hide Heavier, Adds, Siblings, Balanced, Take, Weights;
    NextInv(w, Build(w, m));
  }

  lemma BuildNext(w: seq<nat>, h: Merges) returns (h': Merges, p: Pick, q: Pick)
    requires Weights(w) && 1 <= |h.weight| < |w| - 1 && h == Build(w, |h.weight|)
    ensures var m := |h.weight|;
      && |h.leaves| == m + 1 && 0 <= Inner(h.leaves, m) < m < h.leaves[m] <= |w|
      && p == Take(w, h.weight, h.leaves[m], Inner(h.leaves, m))
      && (p.leaf < |w| || p.root < m) && q == Take(w, h.weight, p.leaf, p.root)
      && h' == Build(w, m + 1) && |h'.leaves| == m + 2 && h'.leaves[..m + 1] == h.leaves
      && h'.weight == h.weight + [p.weight + q.weight] && p.weight + q.weight < 0x1_0000_0000
      && h'.leaves[m + 1] == q.leaf && Inner(h'.leaves, m + 1) == q.root
      && q.root <= m < m + 1 < q.leaf <= |w|
  {
    hide Build, Weights, Inv;
    var m := |h.weight|;
    BuildStep(w, m);
    h' := Next(w, h);
    p := Take(w, h.weight, h.leaves[m], Inner(h.leaves, m));
    q := Take(w, h.weight, p.leaf, p.root);
    assert h'.weight[m] == p.weight + q.weight;
  }

  // ----- Phase 2: depths of the internal nodes -----

  ghost predicate NodeDepths(leaves: seq<nat>, dep: seq<nat>) {
    && 1 <= |dep| == |leaves| - 1
    && dep[|dep| - 1] == 0
    && forall j: nat, p: nat :: IsParent(leaves, j, p) && j < |dep| - 1 ==> dep[j] == dep[p] + 1
  }

  ghost predicate Complete(n: nat, h: Merges) {
    Shape(n, h) && |h.weight| == n - 1 && h.leaves[n - 1] == n
  }

  lemma {:induction false} InnerMono(n: nat, h: Merges, i: nat, j: nat)
    requires Shape(n, h) && i <= j < |h.leaves|
    ensures 0 <= Inner(h.leaves, i) <= Inner(h.leaves, j)
    ensures h.leaves[i] <= h.leaves[j]
    ensures Inner(h.leaves, j) <= j && (j >= 1 ==> Inner(h.leaves, j) < j)
    decreases j - i
  {
    if i < j { InnerMono(n, h, i, j - 1); }
  }

  lemma ParentUnique(n: nat, h: Merges, j: nat, p: nat, q: nat)
    requires Shape(n, h) && IsParent(h.leaves, j, p) && IsParent(h.leaves, j, q)
    ensures p == q && j < p
  {
    if p < q { InnerMono(n, h, p + 1, q); }
    if q < p { InnerMono(n, h, q + 1, p); }
    InnerMono(n, h, p + 1, p + 1);
  }

  method ParentsToDepths(a: array<nat>, ghost h: Merges) returns (ghost dep: seq<nat>)
    requires a.Length >= 2 && Complete(a.Length, h)
    requires forall j :: 0 <= j < a.Length - 2 ==> IsParent(h.leaves, j, a[j])
    modifies a
    ensures NodeDepths(h.leaves, dep) && |dep| == a.Length - 1
    ensures forall j :: 0 <= j < |dep| ==> a[j] == dep[j]
  {
    hide *;
    var n := a.Length;
    ghost var parent := a[..];
    Parents(n, h, parent);
    a[n - 2] := 0;
    var next := n - 3;
    while next >= 0
      invariant -1 <= next <= n - 3
      invariant a[n - 2] == 0
      invariant forall j :: next < j < n - 2 ==> a[j] == a[parent[j]] + 1
      invariant forall j :: 0 <= j <= next ==> a[j] == parent[j]
    {
      a[next] := a[a[next]] + 1;
      next := next - 1;
    }
    dep := a[..n - 1];
    DepthsFromParents(n, h, parent, dep);
  }

  lemma DepthsFromParents(n: nat, h: Merges, parent: seq<nat>, dep: seq<nat>)
    requires n >= 2 && Complete(n, h) && |parent| == n && |dep| == n - 1 && dep[n - 2] == 0
    requires forall j :: 0 <= j < n - 2 ==>
      IsParent(h.leaves, j, parent[j]) && parent[j] < n - 1 && dep[j] == dep[parent[j]] + 1
    ensures NodeDepths(h.leaves, dep)
  {
    forall j: nat, p: nat | IsParent(h.leaves, j, p) && j < |dep| - 1 ensures dep[j] == dep[p] + 1 {
      ParentUnique(n, h, j, p, parent[j]);
    }
  }

  lemma Parents(n: nat, h: Merges, parent: seq<nat>)
    requires n >= 2 && Complete(n, h) && |parent| == n
    requires forall j :: 0 <= j < n - 2 ==> IsParent(h.leaves, j, parent[j])
    ensures forall j :: 0 <= j < n - 2 ==> j < parent[j] < n - 1
  {
    forall j | 0 <= j < n - 2 ensures j < parent[j] < n - 1 {
      ParentUnique(n, h, j, parent[j], parent[j]);
    }
  }

  /** Nodes made later are never deeper. */
  lemma {:induction false} DepthsDescend(n: nat, h: Merges, dep: seq<nat>, i: nat, j: nat)
    requires Complete(n, h) && NodeDepths(h.leaves, dep) && i <= j < n - 1
    ensures dep[i] >= dep[j]
    decreases n - i
  {
    if i < j {
      var p := FindParent(n, h, i);
      if j < n - 2 {
        var q := FindParent(n, h, j);
        ParentUnique(n, h, i, p, p);
        ParentUnique(n, h, j, q, q);
        if q < p { InnerMono(n, h, q + 1, p); }
        DepthsDescend(n, h, dep, p, q);
      }
    }
  }

  lemma FindParent(n: nat, h: Merges, j: nat) returns (p: nat)
    requires Complete(n, h) && j < n - 2
    ensures IsParent(h.leaves, j, p)
  {
    p := 0;
    while !(j < Inner(h.leaves, p + 1))
      invariant p < n - 1 && Inner(h.leaves, p) <= j
      decreases n - p
    {
      p := p + 1;
    }
  }

  lemma FindLeafParent(n: nat, h: Merges, k: nat) returns (p: nat)
    requires Complete(n, h) && k < n
    ensures IsLeafParent(h.leaves, k, p)
  {
    p := 0;
    while !(k < h.leaves[p + 1])
      invariant p < n - 1 && h.leaves[p] <= k
      decreases n - p
    {
      p := p + 1;
    }
  }

  // ----- Phase 3: depths of the leaves -----

  ghost predicate LeafDepths(leaves: seq<nat>, dep: seq<nat>, lens: seq<nat>) {
    && |dep| + 1 == |leaves|
    && forall k: nat, p: nat :: IsLeafParent(leaves, k, p) && k < |lens| ==> lens[k] == dep[p] + 1
  }

  lemma LeafParentUnique(n: nat, h: Merges, k: nat, p: nat, q: nat)
    requires Shape(n, h) && IsLeafParent(h.leaves, k, p) && IsLeafParent(h.leaves, k, q)
    ensures p == q
  {
    if p < q { InnerMono(n, h, p + 1, q); }
    if q < p { InnerMono(n, h, q + 1, p); }
  }

  lemma {:induction false} LeafDepthsExist(n: nat, h: Merges, dep: seq<nat>, m: nat) returns (lens: seq<nat>)
    requires Complete(n, h) && |dep| == n - 1 && m <= n
    ensures |lens| == m && LeafDepths(h.leaves, dep, lens)
    decreases m
  {
    lens := [];
    if m > 0 {
      lens := LeafDepthsExist(n, h, dep, m - 1);
      var q := FindLeafParent(n, h, m - 1);
      var lens' := lens + [dep[q] + 1];
      forall k: nat, p: nat | IsLeafParent(h.leaves, k, p) && k < m ensures lens'[k] == dep[p] + 1 {
        if k == m - 1 { LeafParentUnique(n, h, k, p, q); }
      }
      lens := lens';
    }
  }

  /** The nodes x..y are those of depth d - 1, the nodes below x are deeper, the leaves after `next` are placed, and
    * `avbl` places are free at depth d. */
  ghost predicate Level(n: nat, h: Merges, dep: seq<nat>, d: nat, x: nat, y: nat, avbl: int, next: int)
    requires Complete(n, h) && |dep| == n - 1
  {
    if d == 0 then x == n - 1 && y == n && avbl == 1 && next == n - 1
    else
      && x <= y <= n - 1
      && Inner(h.leaves, y) == x && avbl == 2 * (y - x) && next + 1 == h.leaves[y]
      && (forall j :: x <= j < y ==> dep[j] == d - 1)
      && (forall j :: 0 <= j < x ==> dep[j] >= d)
  }

  /** One level down: the nodes z..x have depth d, and so have the leaves that fill the other places. */
  lemma Descend(n: nat, h: Merges, dep: seq<nat>, lens: seq<nat>, d: nat, x: nat, y: nat, avbl: int, next: int)
    returns (z: nat)
    requires n >= 2 && Complete(n, h) && NodeDepths(h.leaves, dep) && LeafDepths(h.leaves, dep, lens) && |lens| == n
    requires Level(n, h, dep, d, x, y, avbl, next) && avbl > 0
    ensures z <= x < y
    ensures forall j :: z <= j < x ==> dep[j] == d
    ensures forall j :: 0 <= j < z ==> dep[j] > d
    ensures avbl - (x - z) == next + 1 - h.leaves[x] >= 0
    ensures forall k :: h.leaves[x] <= k <= next ==> lens[k] == d
    ensures Level(n, h, dep, d + 1, z, x, 2 * (x - z), h.leaves[x] as int - 1)
    ensures z <= h.leaves[x] && -1 <= next < n
  {
    z := if d == 0 then n - 2 else Inner(h.leaves, x);
    InnerMono(n, h, x, x);
    if d > 0 {
      InnerMono(n, h, x, y);
      LevelLeaves(n, h, dep, lens, d, x, y);
    }
    forall j | 0 <= j < x ensures if z <= j then dep[j] == d else dep[j] > d {
      if j < n - 2 { LevelNode(n, h, dep, d, x, y, avbl, next, z, j); }
    }
  }

  lemma LevelNode(n: nat, h: Merges, dep: seq<nat>, d: nat, x: nat, y: nat, avbl: int, next: int, z: nat, j: nat)
    requires n >= 2 && Complete(n, h) && NodeDepths(h.leaves, dep) && Level(n, h, dep, d, x, y, avbl, next)
    requires z == (if d == 0 then n - 2 else Inner(h.leaves, x)) && j < x && j < n - 2
    ensures if z <= j then dep[j] == d else dep[j] > d
  {
    var p := FindParent(n, h, j);
    ParentUnique(n, h, j, p, p);
    if d > 0 {
      if p >= y { InnerMono(n, h, y, p); }
      if p < x { InnerMono(n, h, p + 1, x); } else { InnerMono(n, h, x, p); }
    }
  }

  lemma LevelLeaves(n: nat, h: Merges, dep: seq<nat>, lens: seq<nat>, d: nat, x: nat, y: nat)
    requires Complete(n, h) && LeafDepths(h.leaves, dep, lens) && |lens| == n && x <= y <= n - 1
    requires forall j :: x <= j < y ==> dep[j] == d - 1
    ensures h.leaves[y] <= n
    ensures forall k :: h.leaves[x] <= k < h.leaves[y] ==> lens[k] == d
  {
    InnerMono(n, h, y, n - 1);
    forall k | h.leaves[x] <= k < h.leaves[y] ensures lens[k] == d {
      var p := FindLeafParent(n, h, k);
      if p >= y { InnerMono(n, h, y, p); }
      if p < x { InnerMono(n, h, p + 1, x); }
    }
  }

  lemma LastLevel(n: nat, h: Merges, dep: seq<nat>, d: nat, x: nat, y: nat, next: int)
    requires n >= 2 && Complete(n, h) && |dep| == n - 1 && Level(n, h, dep, d, x, y, 0, next)
    ensures next == -1
  {
    InnerMono(n, h, y, y);
  }

  method DepthsToLengths(a: array<nat>, ghost h: Merges, ghost dep: seq<nat>) returns (ghost lens: seq<nat>)
    requires a.Length >= 2 && Complete(a.Length, h) && NodeDepths(h.leaves, dep)
    requires |dep| == a.Length - 1 && forall j :: 0 <= j < |dep| ==> a[j] == dep[j]
    modifies a
    ensures |lens| == a.Length && LeafDepths(h.leaves, dep, lens)
    ensures a[..] == lens
  {
    hide NodeDepths, LeafDepths, Level;
    var n := a.Length;
    lens := LeafDepthsExist(n, h, dep, n);
    var avbl, used, dpth := 1, 0, 0;
    var root, next := n - 2, n - 1;
    ghost var x, y := n - 1, n;
    TopLevel(n, h, dep);
    while avbl > 0
      invariant 0 <= x <= y && x <= n - 1 && root == x - 1 && used == 0 && avbl >= 0 && 0 <= dpth
      invariant -1 <= next < n && x <= next + 1
      invariant Level(n, h, dep, dpth, x, y, avbl, next)
      invariant forall j :: 0 <= j < x ==> a[j] == dep[j]
      invariant forall k :: next < k < n ==> a[k] == lens[k]
      decreases y
    {
      ghost var z := Descend(n, h, dep, lens, dpth, x, y, avbl, next);
      while root >= 0 && a[root] == dpth
        invariant z - 1 <= root < x && used == x - 1 - root
      {
        used := used + 1;
        root := root - 1;
      }
      while avbl > used
        invariant used <= avbl && avbl - used == next + 1 - h.leaves[x] && -1 <= next < n
        invariant forall j :: 0 <= j < z ==> a[j] == dep[j]
        invariant forall k :: next < k < n ==> a[k] == lens[k]
      {
        a[next] := dpth;
        next := next - 1;
        avbl := avbl - 1;
      }
      avbl := 2 * used;
      dpth := dpth + 1;
      used := 0;
      x, y := z, x;
    }
    LastLevel(n, h, dep, dpth, x, y, next);
  }

  lemma TopLevel(n: nat, h: Merges, dep: seq<nat>)
    requires n >= 2 && Complete(n, h) && |dep| == n - 1
    ensures Level(n, h, dep, 0, n - 1, n, 1, n - 1)
  {
  }

  // ----- What the lengths are worth -----

  lemma {:induction false} CostConstant(ws: seq<nat>, lens: seq<nat>, d: nat)
    requires |ws| == |lens| && forall i :: 0 <= i < |lens| ==> lens[i] == d
    ensures Cost(ws, lens) == Sum(ws) * d
  {
    if ws != [] {
      CostConstant(ws[1..], lens[1..], d);
      MulDistr(ws[0], Sum(ws[1..]), d);
    }
  }

  lemma {:induction false} KraftConstant(lens: seq<nat>, d: nat, m: nat)
    requires d <= m && forall i :: 0 <= i < |lens| ==> lens[i] == d
    ensures AtMost(lens, m) && Kraft(lens, m) == |lens| * Pow2(m - d)
  {
    if lens != [] {
      KraftConstant(lens[1..], d, m);
      MulDistr(1, |lens| - 1, Pow2(m - d));
    }
  }

  lemma CostSplit(ws: seq<nat>, lens: seq<nat>, i: nat, j: nat, k: nat)
    requires |ws| == |lens| && i <= j <= k <= |ws|
    ensures Cost(ws[i..k], lens[i..k]) == Cost(ws[i..j], lens[i..j]) + Cost(ws[j..k], lens[j..k])
  {
    assert ws[i..k] == ws[i..j] + ws[j..k] && lens[i..k] == lens[i..j] + lens[j..k];
    CostConcat(ws[i..j], lens[i..j], ws[j..k], lens[j..k]);
  }

  lemma KraftSplit(lens: seq<nat>, i: nat, j: nat, k: nat, m: nat)
    requires i <= j <= k <= |lens| && AtMost(lens, m)
    ensures AtMost(lens[i..k], m) && AtMost(lens[i..j], m) && AtMost(lens[j..k], m)
    ensures Kraft(lens[i..k], m) == Kraft(lens[i..j], m) + Kraft(lens[j..k], m)
  {
    assert lens[i..k] == lens[i..j] + lens[j..k];
    KraftConcat(lens[i..j], lens[j..k], m);
  }

  /** The tree with its depths. */
  ghost predicate Tree(w: seq<nat>, h: Merges, dep: seq<nat>, lens: seq<nat>) {
    && Weights(w) && Complete(|w|, h) && Adds(w, h)
    && NodeDepths(h.leaves, dep) && |dep| == |w| - 1
    && LeafDepths(h.leaves, dep, lens) && |lens| == |w|
  }

  /** What node m took lies one level below it. */
  lemma ChildrenOf(w: seq<nat>, h: Merges, dep: seq<nat>, lens: seq<nat>, m: nat)
    requires Tree(w, h, dep, lens) && m < |w| - 1
    ensures 0 <= Inner(h.leaves, m) <= Inner(h.leaves, m + 1) <= m
    ensures h.leaves[m] <= h.leaves[m + 1] <= |w|
    ensures forall k :: h.leaves[m] <= k < h.leaves[m + 1] ==> lens[k] == dep[m] + 1
    ensures forall j :: Inner(h.leaves, m) <= j < Inner(h.leaves, m + 1) ==> dep[j] == dep[m] + 1
  {
    var n := |w|;
    InnerMono(n, h, m, m + 1);
    InnerMono(n, h, m + 1, n - 1);
    forall k | h.leaves[m] <= k < h.leaves[m + 1] ensures lens[k] == dep[m] + 1 {
      assert IsLeafParent(h.leaves, k, m);
    }
    forall j | Inner(h.leaves, m) <= j < Inner(h.leaves, m + 1) ensures dep[j] == dep[m] + 1 {
      assert IsParent(h.leaves, j, m);
    }
  }

  lemma {:induction false} PartialCost(w: seq<nat>, h: Merges, dep: seq<nat>, lens: seq<nat>, m: nat)
    requires Tree(w, h, dep, lens) && m <= |w| - 1
    ensures 0 <= Inner(h.leaves, m) <= m && h.leaves[m] <= |w|
    ensures Cost(w[0..h.leaves[m]], lens[0..h.leaves[m]])
         == Sum(h.weight[0..m]) + Cost(h.weight[Inner(h.leaves, m)..m], dep[Inner(h.leaves, m)..m])
  {
    InnerMono(|w|, h, m, |w| - 1);
    if m > 0 {
      hide Cost, Sum, Tree;
      PartialCost(w, h, dep, lens, m - 1);
      TreeSizes(w, h, dep, lens);
      CostOfChildren(w, h, dep, lens, m - 1);
      var l, l', r, r' := h.leaves[m - 1], h.leaves[m], Inner(h.leaves, m - 1), Inner(h.leaves, m);
      CostSplit(w, lens, 0, l, l');
      CostSplit(h.weight, dep, r, r', m - 1);
      CostSplit(h.weight, dep, r', m - 1, m);
      SumSplit(h.weight, 0, m - 1, m);
      LastNode(h.weight, dep, m);
    }
  }

  lemma TreeSizes(w: seq<nat>, h: Merges, dep: seq<nat>, lens: seq<nat>)
    requires Tree(w, h, dep, lens)
    ensures |w| == |lens| && |h.weight| == |dep| == |w| - 1
  {
  }

  lemma CostOfChildren(w: seq<nat>, h: Merges, dep: seq<nat>, lens: seq<nat>, m: nat)
    requires Tree(w, h, dep, lens) && m < |w| - 1
    ensures 0 <= Inner(h.leaves, m) <= Inner(h.leaves, m + 1) <= m
    ensures h.leaves[m] <= h.leaves[m + 1] <= |w|
    ensures Cost(w[h.leaves[m]..h.leaves[m + 1]], lens[h.leaves[m]..h.leaves[m + 1]])
      + Cost(h.weight[Inner(h.leaves, m)..Inner(h.leaves, m + 1)], dep[Inner(h.leaves, m)..Inner(h.leaves, m + 1)])
      == h.weight[m] * dep[m] + h.weight[m]
  {
    hide Cost, Sum;
    ChildrenOf(w, h, dep, lens, m);
    var d := dep[m] + 1;
    var l, l', r, r' := h.leaves[m], h.leaves[m + 1], Inner(h.leaves, m), Inner(h.leaves, m + 1);
    CostConstant(w[l..l'], lens[l..l'], d);
    CostConstant(h.weight[r..r'], dep[r..r'], d);
    assert AddsAt(w, h, m);
    BothTimes(Sum(w[l..l']), Sum(h.weight[r..r']), h.weight[m], dep[m]);
  }

  lemma BothTimes(a: nat, b: nat, w: nat, depth: nat)
    requires a + b == w
    ensures a * (depth + 1) + b * (depth + 1) == w * depth + w
  {
    MulDistr(a, b, depth + 1);
    MulDistr(depth, 1, w);
  }

  lemma LastNode(weight: seq<nat>, dep: seq<nat>, m: nat)
    requires 1 <= m <= |weight| == |dep|
    ensures Sum(weight[m - 1..m]) == weight[m - 1]
    ensures Cost(weight[m - 1..m], dep[m - 1..m]) == weight[m - 1] * dep[m - 1]
  {
    assert weight[m - 1..m] == [weight[m - 1]] && dep[m - 1..m] == [dep[m - 1]];
    CostConstant([weight[m - 1]], [dep[m - 1]], dep[m - 1]);
    SumOne(weight[m - 1]);
  }

  lemma TotalCost(w: seq<nat>, h: Merges, dep: seq<nat>, lens: seq<nat>)
    requires Tree(w, h, dep, lens)
    ensures Cost(w, lens) == Sum(h.weight)
  {
    hide Cost, Sum;
    var n := |w|;
    RootDepth(w, h, dep, lens);
    PartialCost(w, h, dep, lens, n - 1);
    assert w[0..n] == w && lens[0..n] == lens && h.weight[0..n - 1] == h.weight;
    LastNode(h.weight, dep, n - 1);
  }

  /** The least cost is reached. */
  lemma TreeCost(w: seq<nat>, h: Merges, dep: seq<nat>, lens: seq<nat>)
    requires Tree(w, h, dep, lens) && h == Build(w, |w| - 1)
    ensures Cost(w, lens) == HuffmanCost(w)
  {
    hide Inv, Build;
    BuildCost(w);
    TotalCost(w, h, dep, lens);
  }

  /** The first m nodes leave nodes r..m open and have placed the first l leaves: both fill the same code space. */
  ghost predicate SameSpace(lens: seq<nat>, l: nat, dep: seq<nat>, r: int, m: nat, d: nat) {
    && l <= |lens| && 0 <= r <= m <= |dep|
    && AtMost(lens[0..l], d) && AtMost(dep[r..m], d)
    && Kraft(lens[0..l], d) == Kraft(dep[r..m], d)
  }

  lemma {:induction false} PartialKraft(w: seq<nat>, h: Merges, dep: seq<nat>, lens: seq<nat>, m: nat, d: nat)
    requires Tree(w, h, dep, lens) && m <= |w| - 1 && AtMost(lens, d) && AtMost(dep, d)
    ensures SameSpace(lens, h.leaves[m], dep, Inner(h.leaves, m), m, d)
  {
    hide Kraft;
    if m > 0 {
      hide SameSpace, AtMost;
      PartialKraft(w, h, dep, lens, m - 1, d);
      KraftOfChildren(w, h, dep, lens, m - 1, d);
      KraftStep(dep, lens, h.leaves[m - 1], h.leaves[m], Inner(h.leaves, m - 1), Inner(h.leaves, m), m, d);
    } else {
      assert lens[0..0] == dep[0..0];
    }
  }

  lemma KraftStep(dep: seq<nat>, lens: seq<nat>, l: nat, l': nat, r: nat, r': nat, m: nat, d: nat)
    requires AtMost(lens, d) && AtMost(dep, d) && l <= l' <= |lens| && r <= r' < m <= |dep|
    requires SameSpace(lens, l, dep, r, m - 1, d)
    requires AtMost(lens[l..l'], d) && AtMost(dep[r..r'], d)
    requires Kraft(lens[l..l'], d) + Kraft(dep[r..r'], d) == Pow2(d - dep[m - 1])
    ensures SameSpace(lens, l', dep, r', m, d)
  {
    hide Kraft;
    KraftSplit(lens, 0, l, l', d);
    KraftSplit(dep, r, r', m - 1, d);
    KraftSplit(dep, r', m - 1, m, d);
    KraftLast(dep, m, d);
  }

  lemma KraftLast(dep: seq<nat>, m: nat, d: nat)
    requires 1 <= m <= |dep| && AtMost(dep, d)
    ensures dep[m - 1] <= d && AtMost(dep[m - 1..m], d)
    ensures Kraft(dep[m - 1..m], d) == Pow2(d - dep[m - 1])
  {
    assert dep[m - 1..m] == [dep[m - 1]];
    KraftOne(dep[m - 1], d);
  }

  lemma KraftOfChildren(w: seq<nat>, h: Merges, dep: seq<nat>, lens: seq<nat>, m: nat, d: nat)
    requires Tree(w, h, dep, lens) && m < |w| - 1 && AtMost(lens, d) && AtMost(dep, d)
    ensures 0 <= Inner(h.leaves, m) <= Inner(h.leaves, m + 1) <= m && dep[m] + 1 <= d
    ensures h.leaves[m] <= h.leaves[m + 1] <= |w|
    ensures AtMost(lens[h.leaves[m]..h.leaves[m + 1]], d)
    ensures AtMost(dep[Inner(h.leaves, m)..Inner(h.leaves, m + 1)], d)
    ensures Kraft(lens[h.leaves[m]..h.leaves[m + 1]], d) + Kraft(dep[Inner(h.leaves, m)..Inner(h.leaves, m + 1)], d)
      == Pow2(d - dep[m])
  {
    hide Kraft;
    ChildrenOf(w, h, dep, lens, m);
    var l, l', r, r' := h.leaves[m], h.leaves[m + 1], Inner(h.leaves, m), Inner(h.leaves, m + 1);
    assert (l' - l) + (r' - r) == 2;
    if l < l' { assert lens[l] <= d; } else { assert dep[r] <= d; }
    KraftConstant(lens[l..l'], dep[m] + 1, d);
    KraftConstant(dep[r..r'], dep[m] + 1, d);
    MulDistr(l' - l, r' - r, Pow2(d - dep[m] - 1));
  }

  lemma TreeOrder(w: seq<nat>, h: Merges, dep: seq<nat>, lens: seq<nat>, i: nat, j: nat)
    requires Tree(w, h, dep, lens) && i <= j < |w|
    ensures lens[i] >= lens[j] >= 1
  {
    var n := |w|;
    var p := FindLeafParent(n, h, i);
    var q := FindLeafParent(n, h, j);
    if q < p { InnerMono(n, h, q + 1, p); }
    DepthsDescend(n, h, dep, p, q);
  }

  /** Heavier weights never get longer words, and the words fill the code space exactly. */
  lemma TreeLengths(w: seq<nat>, h: Merges, dep: seq<nat>, lens: seq<nat>)
    requires Tree(w, h, dep, lens)
    ensures forall i, j :: 0 <= i <= j < |lens| ==> lens[i] >= lens[j] >= 1
    ensures |lens| == |w| >= 2 && |dep| == |w| - 1 && lens[0] == dep[0] + 1
    ensures AtMost(lens, lens[0]) && Kraft(lens, lens[0]) == Pow2(lens[0])
  {
    hide Kraft, Adds, NodeDepths, Weights;
    var n := |w|;
    forall i, j | 0 <= i <= j < n ensures lens[i] >= lens[j] >= 1 {
      TreeOrder(w, h, dep, lens, i, j);
    }
    assert IsLeafParent(h.leaves, 0, 0);
    forall j | 0 <= j < |dep| ensures dep[j] <= lens[0] {
      DepthsDescend(n, h, dep, 0, j);
    }
    PartialKraft(w, h, dep, lens, n - 1, lens[0]);
    assert lens[0..n] == lens;
    KraftLast(dep, n - 1, lens[0]);
    RootDepth(w, h, dep, lens);
  }

  lemma RootDepth(w: seq<nat>, h: Merges, dep: seq<nat>, lens: seq<nat>)
    requires Tree(w, h, dep, lens)
    ensures dep[|w| - 2] == 0
  {
  }

  // ----- How long a word can get -----

  function Fib(k: nat): nat {
    if k < 2 then k else Fib(k - 1) + Fib(k - 2)
  }

  lemma {:induction false} FibMono(i: nat, j: nat)
    requires i <= j
    ensures Fib(i) <= Fib(j)
    decreases j
  {
    if i < j { FibMono(i, j - 1); }
  }

  /** A node whose depth is t less than the first node's weighs at least the Fibonacci number of t + 3. */
  lemma {:induction false} FibonacciWeights(w: seq<nat>, h: Merges, dep: seq<nat>, t: nat) returns (j: nat)
    requires Weights(w) && Complete(|w|, h) && Siblings(|w|, h) && h.weight[0] >= 2 && h.larger[0] >= 1
    requires NodeDepths(h.leaves, dep) && |dep| == |w| - 1 && t <= dep[0]
    ensures j < |dep| && dep[j] == dep[0] - t
    ensures h.weight[j] >= Fib(t + 3) && h.larger[j] >= Fib(t + 2)
  {
    if t == 0 {
      j := 0;
      assert Fib(3) == 2 && Fib(2) == 1;
    } else {
      var c := FibonacciWeights(w, h, dep, t - 1);
      assert dep[c] >= 1;
      j := FindParent(|w|, h, c);
      ParentUnique(|w|, h, c, j, j);
    }
  }

  lemma FirstNode(w: seq<nat>, m: nat)
    requires Weights(w) && 1 <= m < |w|
    ensures var h := Build(w, m); h.weight[0] >= 2 && h.larger[0] >= 1
    decreases m
  {
    if m > 1 {
      BuildStep(w, m - 1);
      FirstNode(w, m - 1);
    }
  }

  /** The longest word of total weight T has the Fibonacci number of its length plus two at most T. */
  lemma LongestWord(w: seq<nat>, h: Merges, dep: seq<nat>, lens: seq<nat>)
    requires Tree(w, h, dep, lens) && h == Build(w, |w| - 1)
    ensures Fib(lens[0] + 2) <= Sum(w)
  {
    var n := |w|;
    FirstNode(w, n - 1);
    TreeLengths(w, h, dep, lens);
    var j := FibonacciWeights(w, h, dep, dep[0]);
    BuildCost(w);
    HeaviestIsLast(w, h, j);
  }

  lemma HeaviestIsLast(w: seq<nat>, h: Merges, j: nat)
    requires Inv(w, h) && j < |h.weight|
    ensures h.weight[j] <= h.weight[|h.weight| - 1]
  {
  }

  /** Code lengths for ascending weights: they never increase with the weight, fill the code space exactly, and cost no
    * more than any prefix code. */
  ghost predicate Shortest(w: seq<nat>, lens: seq<nat>) {
    && |lens| == |w| >= 2
    && (forall i, j :: 0 <= i <= j < |lens| ==> lens[i] >= lens[j] >= 1)
    && AtMost(lens, lens[0]) && Kraft(lens, lens[0]) == Pow2(lens[0])
    && Fib(lens[0] + 2) <= Sum(w)
    && (forall codes :: PrefixFree(codes) && |codes| == |w| ==> Cost(w, lens) <= Cost(w, Lengths(codes)))
    && Cost(w, lens) == HuffmanCost(w)
  }

  /** calculate_minimum_redundancy(): the ascending weights in `a` are replaced by the shortest code lengths. */
  method CalculateMinimumRedundancy(a: array<nat>)
    requires a.Length >= 2 ==> Weights(a[..])
    modifies a
    ensures a.Length == 1 ==> a[0] == 1
    ensures a.Length >= 2 ==> Shortest(old(a[..]), a[..])
  {
    if a.Length == 0 { return; }
    if a.Length == 1 { a[0] := 1; return; }
    hide *;
    ghost var w := a[..];
    ghost var h := MergePairs(a, w);
    BuildComplete(w);
    ghost var dep := ParentsToDepths(a, h);
    ghost var lens := DepthsToLengths(a, h, dep);
    Summary(w, h, dep, lens);
  }

  lemma BuildComplete(w: seq<nat>)
    requires Weights(w)
    ensures var h := Build(w, |w| - 1); Complete(|w|, h) && Adds(w, h)
  {
    BuildCost(w);
  }

  lemma Summary(w: seq<nat>, h: Merges, dep: seq<nat>, lens: seq<nat>)
    requires Tree(w, h, dep, lens) && h == Build(w, |w| - 1)
    ensures Shortest(w, lens)
  {
    hide Build, NodeDepths, LeafDepths, Cost, Kraft, Sum, HuffmanCost, Fib;
    TreeLengths(w, h, dep, lens);
    LongestWord(w, h, dep, lens);
    TreeCost(w, h, dep, lens);
    forall codes | PrefixFree(codes) && |codes| == |w| ensures Cost(w, lens) <= Cost(w, Lengths(codes)) {
      NoPrefixCodeCheaper(w, codes);
    }
  }
}
