/** The merge tree of Huffman's algorithm as tdefl_calculate_minimum_redundancy builds it: two queues, one of symbols in
    ascending order and one of merged nodes, whose lightest items are merged until one node is left. */
module HuffmanTree {

  ghost predicate Ascending(w: seq<nat>) {
    forall i, j :: 0 <= i <= j < |w| ==> w[i] <= w[j]
  }

  function Sum(w: seq<nat>, lo: nat, hi: nat): (s: nat)
    requires lo <= hi <= |w|
    decreases hi
  {
    if lo == hi then 0 else Sum(w, lo, hi - 1) + w[hi - 1]
  }

  lemma {:induction false} SumFirst(w: seq<nat>, lo: nat, hi: nat)
    requires lo < hi <= |w|
    ensures Sum(w, lo, hi) == w[lo] + Sum(w, lo + 1, hi)
  {
    if lo + 1 < hi {
      SumFirst(w, lo, hi - 1);
    }
  }

  lemma {:induction false} SumPrefix(w: seq<nat>, v: seq<nat>, lo: nat, hi: nat)
    requires lo <= hi <= |w| && hi <= |v|
    requires forall i :: lo <= i < hi ==> v[i] == w[i]
    ensures Sum(v, lo, hi) == Sum(w, lo, hi)
  {
    if lo < hi {
      SumPrefix(w, v, lo, hi - 1);
    }
  }

  lemma {:induction false} SumMember(w: seq<nat>, lo: nat, hi: nat, i: nat)
    requires lo <= i < hi <= |w|
    ensures w[i] <= Sum(w, lo, hi)
  {
    if i < hi - 1 {
      SumMember(w, lo, hi - 1, i);
    }
  }

  // ----- the merge tree -----

  /** parent[j] is the internal node that internal node j was merged into; the last node is the root.
      Parents come later, never go backwards, and have at most two internal children. */
  ghost predicate Tree(parent: seq<nat>, n: nat) {
    && n >= 2 && |parent| == n - 2
    && (forall j :: 0 <= j < n - 2 ==> j < parent[j] <= n - 2)
    && (forall i, j :: 0 <= i <= j < n - 2 ==> parent[i] <= parent[j])
    && (forall j :: 0 <= j < n - 4 ==> parent[j] < parent[j + 2])
  }

  /** The weights of the internal nodes force Fibonacci growth towards the root. */
  ghost predicate Grows(parent: seq<nat>, weight: seq<nat>) {
    && |weight| == |parent| + 1
    && (forall j :: 0 <= j < |weight| ==> weight[j] >= 2)
    && (forall j :: 0 <= j < |parent| ==> parent[j] < |weight| && weight[parent[j]] >= weight[j] + 1)
    && (forall i :: 0 <= i < |parent| && parent[i] < |parent| ==>
          weight[parent[parent[i]]] >= weight[parent[i]] + weight[i])
  }

  function Depth(parent: seq<nat>, j: nat): nat
    decreases |parent| - j
  {
    if j < |parent| && parent[j] > j then 1 + Depth(parent, parent[j]) else 0
  }

  lemma {:induction false} DepthMonotonic(parent: seq<nat>, n: nat, i: nat, j: nat)
    requires Tree(parent, n) && i <= j <= n - 2
    ensures Depth(parent, i) >= Depth(parent, j)
    decreases n - i
  {
    if j < n - 2 {
      DepthMonotonic(parent, n, parent[i], parent[j]);
    }
  }

  /** Depths fall by at most one from one internal node to the next. */
  lemma DepthNoGap(parent: seq<nat>, n: nat, j: nat)
    requires Tree(parent, n) && j < n - 2
    ensures Depth(parent, j) <= Depth(parent, j + 1) + 1
  {
    DepthMonotonic(parent, n, j + 1, parent[j]);
  }

  lemma {:induction false} TwoPerParent(parent: seq<nat>, n: nat, j: nat, k: nat)
    requires Tree(parent, n) && j + 2 * k < n - 2
    ensures parent[j + 2 * k] >= parent[j] + k
  {
    if k > 0 {
      TwoPerParent(parent, n, j, k - 1);
    }
  }

  /** A level of the tree has at most twice as many internal nodes as the level above. */
  lemma LevelDoubles(parent: seq<nat>, n: nat, depth: nat, low: int, mid: int, high: int)
    requires Tree(parent, n) && -1 <= low <= mid <= high <= n - 2
    requires forall j :: low < j <= mid ==> Depth(parent, j) == depth + 1
    requires forall j :: 0 <= j <= mid ==> Depth(parent, j) > depth
    requires forall j :: high < j <= n - 2 ==> Depth(parent, j) < depth
    ensures mid - low <= 2 * (high - mid)
  {
    if low < mid {
      var j, k := low + 1, (mid - low - 1) / 2;
      assert Depth(parent, j) == depth + 1 && Depth(parent, j + 2 * k) == depth + 1;
      assert Depth(parent, n - 2) == 0;
      assert Depth(parent, parent[j]) == depth && Depth(parent, parent[j + 2 * k]) == depth;
      TwoPerParent(parent, n, j, k);
    }
  }

  function Fib(k: nat): nat {
    if k < 2 then k else Fib(k - 1) + Fib(k - 2)
  }

  function Ancestor(parent: seq<nat>, j: nat, k: nat): nat {
    if k == 0 then j
    else
      var p := Ancestor(parent, j, k - 1);
      if p < |parent| then parent[p] else p
  }

  lemma {:induction false} AncestorDepth(parent: seq<nat>, n: nat, j: nat, k: nat)
    requires Tree(parent, n) && j <= n - 2 && k <= Depth(parent, j)
    ensures Ancestor(parent, j, k) <= n - 2
    ensures Depth(parent, Ancestor(parent, j, k)) == Depth(parent, j) - k
  {
    if k > 0 {
      AncestorDepth(parent, n, j, k - 1);
    }
  }

  lemma {:induction false} AncestorWeight(parent: seq<nat>, n: nat, weight: seq<nat>, j: nat, k: nat)
    requires Tree(parent, n) && Grows(parent, weight) && j <= n - 2 && k <= Depth(parent, j)
    ensures Ancestor(parent, j, k) <= n - 2
    ensures weight[Ancestor(parent, j, k)] >= Fib(k + 3)
  {
    hide Depth;
    AncestorDepth(parent, n, j, k);
    if k == 0 {
      assert Fib(3) == 2;
    } else {
      var i := Step(parent, n, j, k);
      AncestorWeight(parent, n, weight, j, k - 1);
      if k == 1 {
        assert Fib(4) == 3;
      } else {
        AncestorWeight(parent, n, weight, j, k - 2);
        FibStep(parent, n, weight, j, k);
      }
    }
  }

  lemma FibStep(parent: seq<nat>, n: nat, weight: seq<nat>, j: nat, k: nat)
    requires Tree(parent, n) && Grows(parent, weight) && j <= n - 2 && 2 <= k <= Depth(parent, j)
    requires Ancestor(parent, j, k - 1) <= n - 2 && Ancestor(parent, j, k - 2) <= n - 2
    requires weight[Ancestor(parent, j, k - 1)] >= Fib(k + 2)
    requires weight[Ancestor(parent, j, k - 2)] >= Fib(k + 1)
    ensures Ancestor(parent, j, k) <= n - 2
    ensures weight[Ancestor(parent, j, k)] >= Fib(k + 3)
  {
    var i := Step(parent, n, j, k);
    var h := Step(parent, n, j, k - 1);
    assert parent[parent[h]] == Ancestor(parent, j, k);
    assert Fib(k + 3) == Fib(k + 2) + Fib(k + 1);
  }

  lemma Step(parent: seq<nat>, n: nat, j: nat, k: nat) returns (i: nat)
    requires Tree(parent, n) && j <= n - 2 && 0 < k <= Depth(parent, j)
    ensures i == Ancestor(parent, j, k - 1) < n - 2
    ensures parent[i] == Ancestor(parent, j, k)
  {
    AncestorDepth(parent, n, j, k - 1);
    i := Ancestor(parent, j, k - 1);
  }

  lemma {:induction false} FibMonotonic(i: nat, j: nat)
    requires i <= j
    ensures Fib(i) <= Fib(j)
  {
    if i < j {
      FibMonotonic(i, j - 1);
    }
  }

  lemma Fib25()
    ensures Fib(25) == 75025
  {
    assert Fib(8) == 21 && Fib(9) == 34;
    assert Fib(13) == 233 && Fib(14) == 377;
    assert Fib(18) == 2584 && Fib(19) == 4181;
    assert Fib(23) == 28657 && Fib(24) == 46368;
  }

  lemma FibLarge(k: nat)
    ensures k >= 25 ==> Fib(k) > 65536
  {
    if k >= 25 {
      FibMonotonic(25, k);
      Fib25();
    }
  }

  /** Weights that fit 16 bits keep the tree shallow enough for the 32 entries of num_codes. */
  lemma DepthBound(parent: seq<nat>, n: nat, weight: seq<nat>, j: nat)
    requires Tree(parent, n) && Grows(parent, weight) && j <= n - 2
    requires forall i :: 0 <= i < |weight| ==> weight[i] < 65536
    ensures Depth(parent, j) <= 21
  {
    hide Fib, Ancestor;
    var d := Depth(parent, j);
    AncestorWeight(parent, n, weight, j, d);
    FibLarge(d + 3);
  }

  // ----- phase 1: merging -----

  /** The merge tree while it is being built: the first |parent| internal nodes and the first `leaf`
      symbols have been merged, and no weight merged so far exceeds `last`. */
  datatype Merge = Merge(parent: seq<nat>, weight: seq<nat>, leaf: nat, last: nat)

  ghost predicate Input(w: seq<nat>) {
    && |w| >= 2 && Ascending(w)
    && (forall i :: 0 <= i < |w| ==> w[i] > 0)
    && Sum(w, 0, |w|) < 65536
  }

  ghost predicate Shape(w: seq<nat>, m: Merge) {
    && m.leaf <= |w|
    && |m.parent| < |m.weight| < |w|
    && m.leaf + |m.parent| == 2 * |m.weight|
    && (forall j :: 0 <= j < |m.parent| ==> j < m.parent[j] < |m.weight|)
    && (forall i, j :: 0 <= i <= j < |m.parent| ==> m.parent[i] <= m.parent[j])
    && (forall j :: 0 <= j < |m.parent| - 2 ==> m.parent[j] < m.parent[j + 2])
  }

  /** What is left to merge is sorted and at least as heavy as anything merged already. */
  ghost predicate Ordered(w: seq<nat>, m: Merge) {
    && (forall j :: m.leaf <= j < |w| ==> m.last <= w[j])
    && (forall j :: |m.parent| <= j < |m.weight| ==> m.last <= m.weight[j])
    && (forall j :: 0 <= j < |m.parent| && j < |m.weight| ==> m.weight[j] <= m.last)
    && (forall j :: 0 <= j < |m.weight| ==> m.weight[j] <= 2 * m.last)
    && Ascending(m.weight)
  }

  ghost predicate Growing(m: Merge) {
    && m.last >= 1
    && (forall j :: 0 <= j < |m.weight| ==> m.weight[j] >= 2)
    && (forall j :: 0 <= j < |m.parent| ==> m.parent[j] < |m.weight| && j < |m.weight|)
    && (forall j :: 0 <= j < |m.parent| ==> m.weight[m.parent[j]] >= m.weight[j] + 1)
  }

  ghost predicate GrowingTwice(m: Merge) {
    && Growing(m)
    && (forall i :: 0 <= i < |m.parent| && m.parent[i] < |m.parent| ==>
          m.weight[m.parent[m.parent[i]]] >= m.weight[m.parent[i]] + m.weight[i])
  }

  ghost predicate Conserved(w: seq<nat>, m: Merge) {
    && m.leaf <= |w| && |m.parent| <= |m.weight|
    && Sum(w, m.leaf, |w|) + Sum(m.weight, |m.parent|, |m.weight|) == Sum(w, 0, |w|)
  }

  ghost predicate Merging(w: seq<nat>, m: Merge) {
    Shape(w, m) && Ordered(w, m) && GrowingTwice(m) && Conserved(w, m)
  }

  /** Whether the next merged item is an internal node rather than a symbol. */
  predicate TakesNode(w: seq<nat>, weight: seq<nat>, root: nat, leaf: nat) {
    leaf >= |w| || (root < |weight| && weight[root] < w[leaf])
  }

  function Item(w: seq<nat>, weight: seq<nat>, root: nat, leaf: nat): nat
    requires leaf < |w| || root < |weight|
  {
    if TakesNode(w, weight, root, leaf) && root < |weight| then weight[root] else w[leaf]
  }

  /** One merge of the two lightest items into a new internal node. */
  function Next(w: seq<nat>, m: Merge): (r: Merge)
    requires Shape(w, m) && |m.weight| < |w| - 1
  {
    var node := |m.weight|;
    var n1 := TakesNode(w, m.weight, |m.parent|, m.leaf);
    var x := Item(w, m.weight, |m.parent|, m.leaf);
    var parent1 := if n1 then m.parent + [node] else m.parent;
    var leaf1 := if n1 then m.leaf else m.leaf + 1;
    var n2 := TakesNode(w, m.weight, |parent1|, leaf1);
    var y := Item(w, m.weight, |parent1|, leaf1);
    Merge(if n2 then parent1 + [node] else parent1, m.weight + [x + y], if n2 then leaf1 else leaf1 + 1, y)
  }

  lemma NextParts(w: seq<nat>, m: Merge)
    requires Shape(w, m) && |m.weight| < |w| - 1
    ensures var r, node := Next(w, m), |m.weight|;
      && r.leaf <= |w| && r.leaf + |r.parent| == m.leaf + |m.parent| + 2 && |r.weight| == node + 1
      && (r.parent == m.parent || r.parent == m.parent + [node] || r.parent == m.parent + [node] + [node])
  {
  }

  lemma NextShape(w: seq<nat>, m: Merge)
    requires Shape(w, m) && |m.weight| < |w| - 1
    ensures Shape(w, Next(w, m))
  {
    NextParts(w, m);
    hide Next;
  }

  lemma NextOrdered(w: seq<nat>, m: Merge)
    requires Shape(w, m) && |m.weight| < |w| - 1 && Ascending(w) && Ordered(w, m)
    ensures Ordered(w, Next(w, m))
    ensures m.last <= Next(w, m).last
  {
  }

  /** The two items merged, and the internal nodes among them. */
  lemma Picks(w: seq<nat>, m: Merge) returns (x: nat, y: nat)
    requires Input(w) && Shape(w, m) && Ordered(w, m) && Growing(m) && |m.weight| < |w| - 1
    ensures var r := Next(w, m);
      && r.weight == m.weight + [x + y] && x >= 1 && y >= 1 && x >= m.last && y >= m.last
      && |r.parent| <= |m.weight|
      && (|r.parent| >= |m.parent| + 1 ==> m.weight[|m.parent|] == x || m.weight[|m.parent|] == y)
      && (|r.parent| >= |m.parent| + 2 ==> m.weight[|m.parent| + 1] == y && m.weight[|m.parent|] == x)
  {
    x := Item(w, m.weight, |m.parent|, m.leaf);
    y := Next(w, m).last;
    assert y == Next(w, m).weight[|m.weight|] - x;
  }

  lemma NextGrowing(w: seq<nat>, m: Merge)
    requires Input(w) && Merging(w, m) && |m.weight| < |w| - 1
    ensures Growing(Next(w, m))
  {
    var x, y := Picks(w, m);
    var r := Next(w, m);
    NextShape(w, m);
    NextOrdered(w, m);
    forall j | 0 <= j < |r.parent|
      ensures r.weight[r.parent[j]] >= r.weight[j] + 1
    {
      if j >= |m.parent| {
        assert r.parent[j] == |m.weight|;
      } else {
        assert r.parent[j] == m.parent[j];
      }
    }
  }

  lemma NextGrowingTwice(w: seq<nat>, m: Merge)
    requires Input(w) && Merging(w, m) && |m.weight| < |w| - 1
    ensures GrowingTwice(Next(w, m))
  {
    NextGrowing(w, m);
    var x, y := Picks(w, m);
    var r := Next(w, m);
    NextShape(w, m);
    forall i | 0 <= i < |r.parent| && r.parent[i] < |r.parent|
      ensures r.weight[r.parent[r.parent[i]]] >= r.weight[r.parent[i]] + r.weight[i]
    {
      var j := r.parent[i];
      assert i < |m.parent| && m.parent[i] == j;
      assert r.weight[i] == m.weight[i] <= m.last && r.weight[j] == m.weight[j];
      if j >= |m.parent| {
        assert r.parent[j] == |m.weight|;
      }
    }
  }

  function Total(w: seq<nat>, weight: seq<nat>, root: nat, leaf: nat): nat
    requires leaf <= |w| && root <= |weight|
  {
    Sum(w, leaf, |w|) + Sum(weight, root, |weight|)
  }

  lemma TakeOne(w: seq<nat>, weight: seq<nat>, root: nat, leaf: nat)
    requires leaf <= |w| && root <= |weight| && (leaf < |w| || root < |weight|)
    ensures var n := TakesNode(w, weight, root, leaf);
      && (if n then root < |weight| else leaf < |w|)
      && Item(w, weight, root, leaf) + (if n then Total(w, weight, root + 1, leaf)
        else Total(w, weight, root, leaf + 1))
         == Total(w, weight, root, leaf)
  {
    if TakesNode(w, weight, root, leaf) {
      SumFirst(weight, root, |weight|);
    } else {
      SumFirst(w, leaf, |w|);
    }
  }

  lemma NextConserved(w: seq<nat>, m: Merge)
    requires Merging(w, m) && |m.weight| < |w| - 1
    ensures Conserved(w, Next(w, m))
  {
    var r := Next(w, m);
    var node := |m.weight|;
    TakeOne(w, m.weight, |m.parent|, m.leaf);
    var n1 := TakesNode(w, m.weight, |m.parent|, m.leaf);
    var root1 := if n1 then |m.parent| + 1 else |m.parent|;
    var leaf1 := if n1 then m.leaf else m.leaf + 1;
    TakeOne(w, m.weight, root1, leaf1);
    SumPrefix(m.weight, r.weight, |r.parent|, node);
  }

  lemma NextMerging(w: seq<nat>, m: Merge)
    requires Input(w) && Merging(w, m) && |m.weight| < |w| - 1
    ensures Merging(w, Next(w, m))
  {
    NextShape(w, m);
    NextOrdered(w, m);
    NextGrowingTwice(w, m);
    NextConserved(w, m);
  }

  lemma Start(w: seq<nat>)
    requires Input(w)
    ensures Merging(w, Merge([], [w[0] + w[1]], 2, w[1]))
    ensures w[0] + w[1] < 65536
  {
    hide Sum;
    StartSums(w);
  }

  lemma StartSums(w: seq<nat>)
    requires Input(w)
    ensures w[0] + w[1] < 65536 && Conserved(w, Merge([], [w[0] + w[1]], 2, w[1]))
  {
    SumFirst(w, 0, |w|);
    SumFirst(w, 1, |w|);
    assert Sum([w[0] + w[1]], 0, 1) == w[0] + w[1] by {
      assert Sum([w[0] + w[1]], 0, 0) == 0;
    }
  }

  lemma NextSmall(w: seq<nat>, m: Merge)
    requires Input(w) && Merging(w, m) && |m.weight| < |w| - 1
    ensures Next(w, m).weight[|m.weight|] < 65536
  {
    NextMerging(w, m);
    var r := Next(w, m);
    SumMember(r.weight, |r.parent|, |r.weight|, |m.weight|);
  }

  /** After the last merge the ghost record is a tree that is at most 21 deep. */
  lemma TreeComplete(w: seq<nat>, m: Merge)
    requires Merging(w, m) && |m.weight| == |w| - 1
    requires forall j :: 0 <= j < |m.weight| ==> m.weight[j] < 65536
    ensures |m.parent| == |w| - 2 && Tree(m.parent, |w|)
    ensures forall j :: 0 <= j <= |w| - 2 ==> Depth(m.parent, j) <= 21
  {
    assert Grows(m.parent, m.weight);
    forall j | 0 <= j <= |w| - 2
      ensures Depth(m.parent, j) <= 21
    {
      DepthBound(m.parent, |w|, m.weight, j);
    }
  }
}
