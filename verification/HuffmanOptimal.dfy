/** Huffman's algorithm is optimal: no prefix code for the same weights costs less than the merged weights add up to. */
module HuffmanOptimal {
  import opened Bits
  import opened Sums
  import opened HuffmanTree

  /** A symbol's weight and the length of its code word. */
  datatype Leaf = Leaf(weight: nat, len: nat)

  /** The Kraft share of a code word, in units of 2^-top. */
  function Share(len: nat, top: nat): nat {
    if len <= top then Pow2(top - len) else 0
  }

  function Unit(top: nat): Leaf -> nat {
    (x: Leaf) => Share(x.len, top)
  }

  function LeafCost(x: Leaf): nat {
    x.weight * x.len
  }

  /** What it costs to send every symbol as often as its weight says. */
  function Cost(q: seq<Leaf>): nat {
    SumOf(q, LeafCost)
  }

  function Weights(q: seq<Leaf>): (w: seq<nat>)
    ensures |w| == |q| && forall i :: 0 <= i < |q| ==> w[i] == q[i].weight
  {
    seq(|q|, i requires 0 <= i < |q| => q[i].weight)
  }

  /** Lengths that a prefix code can have (Kraft's inequality). */
  ghost predicate Code(q: seq<Leaf>, top: nat) {
    (forall i :: 0 <= i < |q| ==> q[i].len <= top) && SumOf(q, Unit(top)) <= Pow2(top)
  }

  lemma Longest(q: seq<Leaf>) returns (a: nat)
    requires q != []
    ensures a < |q| && forall i :: 0 <= i < |q| ==> q[i].len <= q[a].len
  {
    a := 0;
    for i := 0 to |q|
      invariant a < |q| && forall k :: 0 <= k < i ==> q[k].len <= q[a].len
    {
      if q[i].len > q[a].len {
        a := i;
      }
    }
  }

  lemma Trade(x: nat, y: nat, l: nat, m: nat)
    requires x <= y && l <= m
    ensures x * m + y * l <= x * l + y * m
  {
    assert (y - x) * (m - l) >= 0;
  }

  /** The lightest symbol can have the longest code word. */
  lemma ToLongest(q: seq<Leaf>, top: nat, i: nat) returns (r: seq<Leaf>)
    requires i < |q| && Code(q, top) && forall k :: 0 <= k < |q| ==> q[i].weight <= q[k].weight
    ensures |r| == |q| && Weights(r) == Weights(q) && Cost(r) <= Cost(q)
    ensures Code(r, top) && SumOf(r, Unit(top)) == SumOf(q, Unit(top))
    ensures forall k :: 0 <= k < |r| ==> r[k].len <= r[i].len
    ensures exists k :: 0 <= k < |q| && q[k].len == r[i].len
  {
    hide SumOf, Pow2;
    var a := Longest(q);
    r := q[i := q[i].(len := q[a].len)][a := Leaf(q[a].weight, q[i].len)];
    if a == i {
      assert r == q;
    } else {
      SwapCost(q, i, a);
      SwapShare(q, i, a, top);
    }
    assert Weights(r) == Weights(q);
    assert q[a].len == r[i].len;
  }

  lemma SwapCost(q: seq<Leaf>, i: nat, a: nat)
    requires i < |q| && a < |q| && i != a && q[i].weight <= q[a].weight && q[i].len <= q[a].len
    ensures Cost(q[i := q[i].(len := q[a].len)][a := Leaf(q[a].weight, q[i].len)]) <= Cost(q)
  {
    hide SumOf;
    var x, y := q[i], q[a];
    SumUpdate(q, i, x.(len := y.len), LeafCost);
    SumUpdate(q[i := x.(len := y.len)], a, Leaf(y.weight, x.len), LeafCost);
    Trade(x.weight, y.weight, x.len, y.len);
  }

  lemma SwapShare(q: seq<Leaf>, i: nat, a: nat, top: nat)
    requires i < |q| && a < |q| && i != a
    ensures SumOf(q[i := q[i].(len := q[a].len)][a := Leaf(q[a].weight, q[i].len)], Unit(top)) == SumOf(q, Unit(top))
  {
    hide SumOf, Pow2;
    var x, y := q[i], q[a];
    SumUpdate(q, i, x.(len := y.len), Unit(top));
    SumUpdate(q[i := x.(len := y.len)], a, Leaf(y.weight, x.len), Unit(top));
  }

  lemma WithoutWeights(q: seq<Leaf>, i: nat)
    requires i < |q|
    ensures multiset(Weights(Without(q, i))) == multiset(Weights(q)) - multiset{q[i].weight}
  {
    MultisetWithout(Weights(q), i);
    assert Weights(Without(q, i)) == Without(Weights(q), i);
  }

  lemma {:induction false} Rescale(q: seq<Leaf>, low: nat, top: nat)
    requires low <= top && forall i :: 0 <= i < |q| ==> q[i].len <= low
    ensures SumOf(q, Unit(top)) == SumOf(q, Unit(low)) * Pow2(top - low)
  {
    if q != [] {
      var init, last := q[..|q| - 1], q[|q| - 1];
      Rescale(init, low, top);
      Pow2Add(low - last.len, top - low);
      assert low - last.len + (top - low) == top - last.len;
      MulDistributes(SumOf(init, Unit(low)), Pow2(low - last.len), Pow2(top - low));
      assert Unit(top)(last) == Unit(low)(last) * Pow2(top - low);
    }
  }

  /** Behind a code whose longest word has `low` bits there is never room for less than another such word. */
  lemma Room(q: seq<Leaf>, low: nat, high: nat, top: nat)
    requires low <= high <= top && forall i :: 0 <= i < |q| ==> q[i].len <= low
    requires SumOf(q, Unit(top)) + Pow2(top - low) + Pow2(top - high) <= Pow2(top)
    ensures low >= 1 && SumOf(q, Unit(low)) + 2 <= Pow2(low)
  {
    var k, u := SumOf(q, Unit(low)), Pow2(top - low);
    Rescale(q, low, top);
    Pow2Add(low, top - low);
    assert k * u + u < Pow2(low) * u;
    if k + 1 >= Pow2(low) {
      MulMonotonic(Pow2(low), k + 1, u);
      MulDistributes(k, 1, u);
    }
  }

  function One(x: nat): multiset<nat> {
    multiset{x}
  }

  /** x is the lightest of a. */
  ghost predicate Lightest(a: multiset<nat>, x: nat) {
    x in a && forall z :: z in a ==> x <= z
  }

  lemma LightestAt(q: seq<Leaf>, x: nat) returns (i: nat)
    requires Lightest(multiset(Weights(q)), x)
    ensures i < |q| && q[i].weight == x && forall k :: 0 <= k < |q| ==> x <= q[k].weight
  {
    assert x in Weights(q);
    i :| 0 <= i < |q| && Weights(q)[i] == x;
    forall k | 0 <= k < |q|
      ensures x <= q[k].weight
    {
      assert Weights(q)[k] in multiset(Weights(q));
    }
  }

  /** A lightest symbol, given the longest code word and left out. */
  lemma TakeLightest(q: seq<Leaf>, top: nat, x: nat) returns (r: seq<Leaf>, len: nat)
    requires Code(q, top) && Lightest(multiset(Weights(q)), x)
    ensures |r| == |q| - 1 && multiset(Weights(r)) == multiset(Weights(q)) - multiset{x}
    ensures len <= top && (forall k :: 0 <= k < |r| ==> r[k].len <= len) && Code(r, top)
    ensures SumOf(r, Unit(top)) + Pow2(top - len) == SumOf(q, Unit(top)) && Cost(r) + x * len <= Cost(q)
    ensures exists k :: 0 <= k < |q| && q[k].len == len
  {
    var i := LightestAt(q, x);
    var s := ToLongest(q, top, i);
    r, len := Without(s, i), s[i].len;
    assert Weights(s)[i] == x;
    SumWithout(s, i, LeafCost);
    SumWithout(s, i, Unit(top));
    WithoutWeights(s, i);
  }

  lemma HalfUnit(t: nat, x: Leaf)
    requires t >= 1 && x.len == t - 1
    ensures Unit(t)(x) == 2
  {
    assert Pow2(1) == 2;
  }

  lemma PushWeight(q: seq<Leaf>, x: Leaf)
    ensures multiset(Weights(q + [x])) == multiset(Weights(q)) + multiset{x.weight}
  {
    assert Weights(q + [x]) == Weights(q) + [x.weight];
  }

  lemma SplitCost(x: nat, y: nat, l: nat, m: nat)
    requires 1 <= m <= l
    ensures (x + y) * (m - 1) + x + y <= x * l + y * m
  {
    MulDistributes(x, y, m - 1);
    MulMonotonic(m, l, x);
  }

  /** The two lightest symbols of a code can be siblings: with one symbol in their place, the rest of the code is still
      one, and costs less by what the two weigh. */
  lemma MergeCode(q: seq<Leaf>, top: nat, x: nat, y: nat) returns (r: seq<Leaf>, t: nat)
    requires Code(q, top) && Lightest(multiset(Weights(q)), x) && Lightest(multiset(Weights(q)) - multiset{x}, y)
    ensures Code(r, t) && Cost(r) + x + y <= Cost(q)
    ensures multiset(Weights(r)) == multiset(Weights(q)) - multiset{x} - multiset{y} + One(x + y)
  {
    hide Pow2, SumOf, Weights;
    var q1, l1 := TakeLightest(q, top, x);
    var q2, l2 := TakeLightest(q1, top, y);
    Room(q2, l2, l1, top);
    var last := Leaf(x + y, l2 - 1);
    r, t := q2 + [last], l2;
    SumPush(q2, last, LeafCost);
    SumPush(q2, last, Unit(t));
    HalfUnit(t, last);
    PushWeight(q2, last);
    SplitCost(x, y, l1, l2);
  }

  // ----- the rounds of the algorithm -----

  /** The merge tree after k rounds. */
  ghost function MergeAt(w: seq<nat>, k: nat): (m: Merge)
    requires Input(w) && 1 <= k < |w|
    ensures Merging(w, m) && |m.weight| == k
  {
    if k == 1 then
      Start(w);
      Merge([], [w[0] + w[1]], 2, w[1])
    else
      var m := MergeAt(w, k - 1);
      NextMerging(w, m);
      Next(w, m)
  }

  /** What is left to merge: symbols from `leaf` on, and merged nodes from `root` on. */
  ghost function Bag(w: seq<nat>, weight: seq<nat>, root: nat, leaf: nat): multiset<nat>
    requires leaf <= |w| && root <= |weight|
  {
    multiset(w[leaf..]) + multiset(weight[root..])
  }

  lemma FirstOf(w: seq<nat>, i: nat)
    requires i < |w|
    ensures multiset(w[i..]) == multiset(w[i + 1..]) + multiset{w[i]}
  {
    assert w[i..] == [w[i]] + w[i + 1..];
  }

  lemma TailAtLeast(w: seq<nat>, i: nat, x: nat)
    requires i <= |w| && Ascending(w) && (i < |w| ==> x <= w[i])
    ensures forall z :: z in multiset(w[i..]) ==> x <= z
  {
  }

  /** The two queues are sorted, so the lighter of their first items is the lightest of all. */
  lemma ItemLightest(w: seq<nat>, weight: seq<nat>, root: nat, leaf: nat)
    requires leaf <= |w| && root <= |weight| && (leaf < |w| || root < |weight|) && Ascending(w) && Ascending(weight)
    ensures var x, node := Item(w, weight, root, leaf), TakesNode(w, weight, root, leaf);
      && (if node then root < |weight| else leaf < |w|)
      && Lightest(Bag(w, weight, root, leaf), x)
      && Bag(w, weight, if node then root + 1 else root, if node then leaf else leaf + 1)
         == Bag(w, weight, root, leaf) - multiset{x}
  {
    var x := Item(w, weight, root, leaf);
    TailAtLeast(w, leaf, x);
    TailAtLeast(weight, root, x);
    if TakesNode(w, weight, root, leaf) {
      FirstOf(weight, root);
    } else {
      FirstOf(w, leaf);
    }
  }

  /** A round is two picks, each from the fronts of the queues. */
  lemma NextPicks(w: seq<nat>, m: Merge) returns (root: nat, leaf: nat, x: nat, y: nat)
    requires Input(w) && Merging(w, m) && |m.weight| < |w| - 1
    ensures m.leaf <= |w| && |m.parent| <= |m.weight| && (m.leaf < |w| || |m.parent| < |m.weight|)
    ensures leaf <= |w| && root <= |m.weight| && (leaf < |w| || root < |m.weight|)
    ensures x == Item(w, m.weight, |m.parent|, m.leaf) && y == Item(w, m.weight, root, leaf)
    ensures var n := TakesNode(w, m.weight, |m.parent|, m.leaf);
      root == (if n then |m.parent| + 1 else |m.parent|) && leaf == (if n then m.leaf else m.leaf + 1)
    ensures var n, r := TakesNode(w, m.weight, root, leaf), Next(w, m);
      && |r.parent| == (if n then root + 1 else root) <= |m.weight| && r.leaf == (if n then leaf else leaf + 1) <= |w|
      && r.weight == m.weight + [x + y]
    ensures Ascending(w) && Ascending(m.weight) && Shape(w, m)
  {
    x := Item(w, m.weight, |m.parent|, m.leaf);
    var n := TakesNode(w, m.weight, |m.parent|, m.leaf);
    root := if n then |m.parent| + 1 else |m.parent|;
    leaf := if n then m.leaf else m.leaf + 1;
    y := Item(w, m.weight, root, leaf);
    NextParts(w, m);
  }

  /** A round merges the two lightest items. */
  lemma NextLightest(w: seq<nat>, m: Merge) returns (x: nat, y: nat)
    requires Input(w) && Merging(w, m) && |m.weight| < |w| - 1
    ensures m.leaf <= |w| && |m.parent| <= |m.weight|
    ensures var a, r := Bag(w, m.weight, |m.parent|, m.leaf), Next(w, m);
      && Lightest(a, x) && Lightest(a - multiset{x}, y) && r.weight == m.weight + [x + y]
      && r.leaf <= |w| && |r.parent| <= |r.weight|
      && Bag(w, r.weight, |r.parent|, r.leaf) == a - multiset{x} - multiset{y} + One(x + y)
  {
    hide *;
    var root, leaf;
    root, leaf, x, y := NextPicks(w, m);
    ItemLightest(w, m.weight, |m.parent|, m.leaf);
    ItemLightest(w, m.weight, root, leaf);
    var r := Next(w, m);
    BagPush(w, m.weight, |r.parent|, r.leaf, x + y);
  }

  lemma BagPush(w: seq<nat>, weight: seq<nat>, root: nat, leaf: nat, x: nat)
    requires leaf <= |w| && root <= |weight|
    ensures Bag(w, weight + [x], root, leaf) == Bag(w, weight, root, leaf) + One(x)
  {
    assert (weight + [x])[root..] == weight[root..] + [x];
  }

  lemma MergeStep(w: seq<nat>, k: nat)
    requires Input(w) && 1 < k < |w|
    ensures MergeAt(w, k) == Next(w, MergeAt(w, k - 1))
  {
    hide Next, Merging, Input;
  }

  /** A code for what is left to merge, together with what has been merged, costs at least what is merged in the end. */
  lemma {:induction false} Cheapest(w: seq<nat>, k: nat, q: seq<Leaf>, top: nat)
    requires Input(w) && 1 <= k < |w| && Code(q, top)
    requires var m := MergeAt(w, k);
      multiset(Weights(q)) == Bag(w, m.weight, |m.parent|, m.leaf)
    ensures Sum(MergeAt(w, |w| - 1).weight, 0, |w| - 1) <= Cost(q) + Sum(MergeAt(w, k).weight, 0, k)
    decreases |w| - k
  {
    hide *;
    if k < |w| - 1 {
      var m := MergeAt(w, k);
      MergeStep(w, k + 1);
      var x, y := NextLightest(w, m);
      var r, t := MergeCode(q, top, x, y);
      Cheapest(w, k + 1, r, t);
      SumGrows(m.weight, x + y);
    }
  }

  lemma SumGrows(w: seq<nat>, x: nat)
    ensures Sum(w + [x], 0, |w| + 1) == Sum(w, 0, |w|) + x
  {
    SumPrefix(w, w + [x], 0, |w|);
  }

  lemma FirstLightest(w: seq<nat>, i: nat)
    requires i < |w| && Ascending(w)
    ensures Lightest(multiset(w[i..]), w[i])
  {
    TailAtLeast(w, i, w[i]);
    hide Ascending;
    assert w[i..][0] == w[i];
  }

  lemma FirstTwo(w: seq<nat>)
    requires |w| >= 2 && Ascending(w)
    ensures Lightest(multiset(w), w[0]) && Lightest(multiset(w) - multiset{w[0]}, w[1])
    ensures multiset(w) - multiset{w[0]} - multiset{w[1]} == multiset(w[2..])
  {
    hide *;
    FirstOf(w, 0);
    FirstOf(w, 1);
    FirstLightest(w, 0);
    FirstLightest(w, 1);
    assert w[0..] == w;
    assert multiset(w) - multiset{w[0]} == multiset(w[1..]);
  }

  lemma FirstRound(w: seq<nat>)
    requires Input(w)
    ensures var m := MergeAt(w, 1);
      && m.weight == [w[0] + w[1]] && m.parent == [] && m.leaf == 2
      && Bag(w, m.weight, 0, 2) == multiset(w[2..]) + One(w[0] + w[1])
  {
    hide Merging, Sum;
    assert [w[0] + w[1]][0..] == [w[0] + w[1]];
  }

  /** The weights of all merged nodes are a lower bound for every code of the symbols. */
  lemma Optimal(w: seq<nat>, q: seq<Leaf>, top: nat)
    requires Input(w) && Code(q, top) && multiset(Weights(q)) == multiset(w)
    ensures Sum(MergeAt(w, |w| - 1).weight, 0, |w| - 1) <= Cost(q)
  {
    hide Merging, Code, Cost, Weights, Lightest, Bag, Next, SumOf, Ascending;
    var x, y := w[0], w[1];
    FirstTwo(w);
    FirstRound(w);
    var r, t := MergeCode(q, top, x, y);
    Cheapest(w, 1, r, t);
    assert Sum([x + y], 0, 1) == Sum([x + y], 0, 0) + (x + y);
  }
}
