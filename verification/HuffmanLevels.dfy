/** From the merge tree to code lengths, level by level: how many symbols each level has, what their code costs, and how
    light the symbols of a deep level must be. */
module HuffmanLevels {
  import opened Bits
  import opened HuffmanTree
  import opened HuffmanOptimal

  const MAX_SUPPORTED_CODE_SIZE := 32

  /** The Kraft sum of a list of code lengths, in units of 2^-top. */
  function KraftSum(lens: seq<nat>, top: nat): nat {
    if lens == [] then 0
    else Share(lens[0], top) + KraftSum(lens[1..], top)
  }

  ghost predicate Descending(w: seq<nat>) {
    forall i, j :: 0 <= i <= j < |w| ==> w[i] >= w[j]
  }

  function Repeat(d: nat, k: nat): (r: seq<nat>)
    ensures |r| == k && forall i :: 0 <= i < k ==> r[i] == d
  {
    if k == 0 then [] else [d] + Repeat(d, k - 1)
  }

  lemma {:induction false} KraftRepeat(d: nat, k: nat, lens: seq<nat>, top: nat)
    requires d <= top
    ensures KraftSum(Repeat(d, k) + lens, top) == k * Pow2(top - d) + KraftSum(lens, top)
  {
    hide *;
    RepeatNext(d, if k == 0 then 0 else k - 1, lens);
    if k > 0 {
      KraftRepeat(d, k - 1, lens, top);
      KraftNext(d, Repeat(d, k - 1) + lens, top);
      MulDistributes(k - 1, 1, Pow2(top - d));
    }
  }

  lemma KraftNext(d: nat, lens: seq<nat>, top: nat)
    requires d <= top
    ensures KraftSum([d] + lens, top) == Pow2(top - d) + KraftSum(lens, top)
  {
    hide Pow2;
    assert ([d] + lens)[1..] == lens;
  }

  lemma RepeatNext(d: nat, k: nat, lens: seq<nat>)
    ensures Repeat(d, 0) + lens == lens
    ensures [d] + (Repeat(d, k) + lens) == Repeat(d, k + 1) + lens
  {
  }

  /** Where the scan over tree levels stands: nodes in (root, high] are the internal nodes of the
      level above, and `avbl` nodes of the current level are still to be classified. */
  ghost predicate Scan(parent: seq<nat>, n: nat, root: int, high: int, next: int, avbl: nat, dpth: nat) {
    && Tree(parent, n) && -1 <= root <= high <= n - 2 && -1 <= next < n
    && (forall j :: 0 <= j <= root ==> Depth(parent, j) >= dpth)
    && (forall j :: root < j <= high ==> Depth(parent, j) == dpth - 1)
    && (forall j :: high < j <= n - 2 ==> Depth(parent, j) < dpth - 1)
    && avbl == 1 + (n - 2 - root) - (n - 1 - next)
    && (if dpth == 0 then avbl == 1 && root == n - 2 else avbl == 2 * (high - root))
  }

  lemma ScanStart(parent: seq<nat>, n: nat)
    requires Tree(parent, n)
    ensures Scan(parent, n, n - 2, n - 2, n - 1, 1, 0)
    ensures Leveling(parent, n, n - 2, n - 2, n - 1, 1, 0, [])
  {
  }

  /** The scan of one level leaves room for its leaves and finds at most as many internal nodes as there are nodes. */
  lemma ScanLevel(parent: seq<nat>, n: nat, root: int, high: int, next: int, avbl: nat, dpth: nat, low: int)
    requires Scan(parent, n, root, high, next, avbl, dpth) && -1 <= low <= root
    requires forall j :: low < j <= root ==> Depth(parent, j) == dpth
    requires low >= 0 ==> Depth(parent, low) != dpth
    ensures root - low <= avbl && avbl - (root - low) <= next - low
    ensures dpth == 0 ==> root - low == 1
    ensures Scan(parent, n, low, root, next - (avbl - (root - low)), 2 * (root - low), dpth + 1)
  {
    forall j | 0 <= j <= low
      ensures Depth(parent, j) >= dpth + 1
    {
      DepthMonotonic(parent, n, j, low);
    }
    assert Depth(parent, n - 2) == 0;
    if dpth == 0 {
      assert n > 2 ==> Depth(parent, n - 3) > 0;
    } else {
      LevelDoubles(parent, n, dpth - 1, low, root, high);
    }
  }

  lemma ScanDepth(parent: seq<nat>, n: nat, root: int, high: int, next: int, avbl: nat, dpth: nat)
    requires Scan(parent, n, root, high, next, avbl, dpth) && avbl > 0
    requires forall j :: 0 <= j <= n - 2 ==> Depth(parent, j) <= 21
    ensures dpth <= 22 && -1 <= root <= high <= n - 2 && (high >= 0 || dpth == 0)
  {
    if dpth > 0 {
      assert Depth(parent, high) == dpth - 1;
    }
  }

  lemma ScanEnd(parent: seq<nat>, n: nat, root: int, high: int, next: int, dpth: nat)
    requires Scan(parent, n, root, high, next, 0, dpth)
    ensures root == -1 && next == -1
  {
    assert Depth(parent, n - 2) == 0;
    if 0 <= root < n - 2 {
      DepthNoGap(parent, n, root);
    }
  }

  /** A node's share of the Kraft sum goes to its two children. */
  lemma LevelShares(n: int, u: int, unit: int)
    ensures n * (2 * unit) == (n - u) * (2 * unit) + 2 * u * unit
  {
    MulAssoc(u, 2, unit);
    MulDistributes(n - u, u, 2 * unit);
  }

  lemma KraftLevel(lens0: seq<nat>, dpth: nat, avbl: nat, used: nat)
    requires used <= avbl && dpth < MAX_SUPPORTED_CODE_SIZE
    requires KraftSum(lens0, MAX_SUPPORTED_CODE_SIZE) + avbl * Pow2(MAX_SUPPORTED_CODE_SIZE - dpth)
          == Pow2(MAX_SUPPORTED_CODE_SIZE)
    ensures KraftSum(Repeat(dpth, avbl - used) + lens0, MAX_SUPPORTED_CODE_SIZE)
          + 2 * used * Pow2(MAX_SUPPORTED_CODE_SIZE - dpth - 1) == Pow2(MAX_SUPPORTED_CODE_SIZE)
  {
    hide KraftSum, Repeat;
    KraftRepeat(dpth, avbl - used, lens0, MAX_SUPPORTED_CODE_SIZE);
    var unit := Pow2(MAX_SUPPORTED_CODE_SIZE - dpth - 1);
    assert Pow2(MAX_SUPPORTED_CODE_SIZE - dpth) == 2 * unit;
    LevelShares(avbl, used, unit);
  }

  /** The lengths given so far: all below the current depth, longest first. */
  ghost predicate Lengths(lens: seq<nat>, dpth: nat) {
    Descending(lens) && forall i :: 0 <= i < |lens| ==> 1 <= lens[i] < dpth
  }

  lemma LengthsLevel(lens: seq<nat>, dpth: nat, k: nat)
    requires Lengths(lens, dpth) && (dpth == 0 ==> k == 0)
    ensures Lengths(Repeat(dpth, k) + lens, dpth + 1)
  {
  }

  /** The level scan together with the lengths given so far: what they leave of the Kraft sum is
      exactly one unit for each node still to be classified. */
  ghost predicate Leveling(parent: seq<nat>, n: nat, root: int, high: int, next: int, avbl: nat, dpth: nat,
    lens: seq<nat>) {
    && Scan(parent, n, root, high, next, avbl, dpth) && Lengths(lens, dpth) && dpth <= 23
    && KraftSum(lens, MAX_SUPPORTED_CODE_SIZE) + avbl * Pow2(MAX_SUPPORTED_CODE_SIZE - dpth)
       == Pow2(MAX_SUPPORTED_CODE_SIZE)
  }

  lemma LevelingStep(parent: seq<nat>, n: nat, root: int, high: int, next: int, avbl: nat, dpth: nat, lens: seq<nat>,
    low: int)
    requires Leveling(parent, n, root, high, next, avbl, dpth, lens) && avbl > 0
    requires forall j :: 0 <= j <= n - 2 ==> Depth(parent, j) <= 21
    requires -1 <= low <= root
    requires forall j :: low < j <= root ==> Depth(parent, j) == dpth
    requires low >= 0 ==> Depth(parent, low) != dpth
    ensures var used := root - low;
      && dpth <= MAX_SUPPORTED_CODE_SIZE && used <= avbl && avbl - used <= next - low
      && Leveling(parent, n, low, root, next - (avbl - used), 2 * used, dpth + 1, Repeat(dpth, avbl - used) + lens)
  {
    hide Scan, Depth, KraftSum, Repeat, Lengths, Pow2;
    ScanDepth(parent, n, root, high, next, avbl, dpth);
    ScanLevel(parent, n, root, high, next, avbl, dpth, low);
    KraftLevel(lens, dpth, avbl, root - low);
    LengthsLevel(lens, dpth, avbl - (root - low));
  }

  lemma LevelingEnd(parent: seq<nat>, n: nat, root: int, high: int, next: int, dpth: nat, lens: seq<nat>)
    requires Leveling(parent, n, root, high, next, 0, dpth, lens)
    ensures root == -1 && next == -1 && Lengths(lens, dpth) && Lengths(lens, MAX_SUPPORTED_CODE_SIZE + 1)
    ensures KraftSum(lens, MAX_SUPPORTED_CODE_SIZE) == Pow2(MAX_SUPPORTED_CODE_SIZE)
  {
    ScanEnd(parent, n, root, high, next, dpth);
  }

  // ----- what the first rounds have merged -----

  lemma NextExtends(w: seq<nat>, m: Merge)
    requires Merging(w, m) && |m.weight| < |w| - 1
    ensures var r := Next(w, m);
      && r.weight[..|m.weight|] == m.weight && |m.parent| <= |r.parent| && r.parent[..|m.parent|] == m.parent
      && forall i :: |m.parent| <= i < |r.parent| ==> r.parent[i] == |m.weight|
  {
    hide Ordered, GrowingTwice, Conserved;
    NextParts(w, m);
  }

  lemma MergeFirst(w: seq<nat>)
    requires Input(w)
    ensures MergeAt(w, 1) == Merge([], [w[0] + w[1]], 2, w[1])
  {
    hide Next, Merging, Sum, Ascending;
  }

  /** Later rounds only add to the record. */
  ghost predicate Extends(a: Merge, b: Merge, j: nat) {
    && j <= |b.weight| && a.weight == b.weight[..j] && |a.parent| <= |b.parent| && a.parent == b.parent[..|a.parent|]
    && forall i :: |a.parent| <= i < |b.parent| ==> b.parent[i] >= j
  }

  lemma {:induction false} Earlier(w: seq<nat>, j: nat, k: nat)
    requires Input(w) && 1 <= j <= k < |w|
    ensures Extends(MergeAt(w, j), MergeAt(w, k), j)
  {
    hide *;
    var a := MergeAt(w, j);
    if j < k {
      var m := MergeAt(w, k - 1);
      MergingShape(w, m);
      Earlier(w, j, k - 1);
      NextExtends(w, m);
      MergeStep(w, k);
      ExtendsMore(a, m, Next(w, m), j);
    } else {
      ExtendsSelf(a, j);
    }
  }

  lemma MergingShape(w: seq<nat>, m: Merge)
    requires Merging(w, m)
    ensures Shape(w, m)
  {
  }

  lemma ExtendsSelf(a: Merge, j: nat)
    requires |a.weight| == j
    ensures Extends(a, a, j)
  {
  }

  lemma ExtendsMore(a: Merge, m: Merge, r: Merge, j: nat)
    requires Extends(a, m, j) && |m.weight| <= |r.weight| && |m.parent| <= |r.parent|
    requires r.weight[..|m.weight|] == m.weight && r.parent[..|m.parent|] == m.parent
    requires forall i :: |m.parent| <= i < |r.parent| ==> r.parent[i] == |m.weight|
    ensures Extends(a, r, j)
  {
    forall i | |a.parent| <= i < |r.parent|
      ensures r.parent[i] >= j
    {
      if i < |m.parent| {
        assert r.parent[i] == m.parent[i];
      }
    }
  }

  /** The first k merged nodes weigh as much as the symbols and the nodes that were merged into them. */
  lemma BalancedAt(w: seq<nat>, k: nat)
    requires Input(w) && 1 <= k < |w|
    ensures var m := MergeAt(w, k);
      && m.leaf + |m.parent| == 2 * k && m.leaf <= |w| && |m.parent| <= k
      && Sum(m.weight, 0, k) == Sum(w, 0, m.leaf) + Sum(m.weight, 0, |m.parent|)
  {
    var m := MergeAt(w, k);
    SumSplit(w, 0, m.leaf, |w|);
    SumSplit(m.weight, 0, |m.parent|, k);
  }

  lemma {:induction false} SumSplit(w: seq<nat>, lo: nat, mid: nat, hi: nat)
    requires lo <= mid <= hi <= |w|
    ensures Sum(w, lo, hi) == Sum(w, lo, mid) + Sum(w, mid, hi)
  {
    if mid < hi {
      SumSplit(w, lo, mid, hi - 1);
    }
  }

  /** Nodes below r are exactly those merged into the first k. */
  ghost predicate Cut(parent: seq<nat>, k: nat, r: nat) {
    && r <= |parent|
    && (forall j :: 0 <= j < r ==> parent[j] < k)
    && (forall j :: r <= j < |parent| ==> parent[j] >= k)
  }

  lemma Balanced(w: seq<nat>, k: nat, r: nat)
    requires Input(w) && k < |w| && Cut(MergeAt(w, |w| - 1).parent, k, r)
    ensures r <= 2 * k && 2 * k - r <= |w| && r <= k
    ensures var m := MergeAt(w, |w| - 1);
      Sum(m.weight, 0, k) == Sum(w, 0, 2 * k - r) + Sum(m.weight, 0, r)
  {
    hide Merging, Sum, Cut, Extends, Next, Ascending;
    var m := MergeAt(w, |w| - 1);
    if k > 0 {
      var a := MergeAt(w, k);
      Earlier(w, k, |w| - 1);
      BalancedAt(w, k);
      BelowRound(w, k);
      CutUnique(a, m, k, r);
      SumPrefix(m.weight, a.weight, 0, k);
      SumPrefix(m.weight, a.weight, 0, r);
    } else {
      CutNone(m.parent, r);
      SumEmpty(w, 0);
      SumEmpty(m.weight, 0);
    }
  }

  lemma CutAt(parent: seq<nat>, k: nat, r: nat, j: nat)
    requires Cut(parent, k, r) && j < |parent|
    ensures parent[j] < k <==> j < r
  {
  }

  lemma BelowRound(w: seq<nat>, k: nat)
    requires Input(w) && 1 <= k < |w|
    ensures var m := MergeAt(w, k);
      forall i :: 0 <= i < |m.parent| ==> m.parent[i] < k
  {
  }

  lemma CutNone(parent: seq<nat>, r: nat)
    requires Cut(parent, 0, r)
    ensures r == 0
  {
    if parent != [] {
      CutAt(parent, 0, r, 0);
    }
  }

  lemma CutUnique(a: Merge, m: Merge, k: nat, r: nat)
    requires Extends(a, m, k) && Cut(m.parent, k, r) && forall i :: 0 <= i < |a.parent| ==> a.parent[i] < k
    ensures r == |a.parent| && forall i :: 0 <= i < k ==> a.weight[i] == m.weight[i]
  {
    if a.parent != [] {
      CutAt(m.parent, k, r, |a.parent| - 1);
    }
    if |a.parent| < |m.parent| {
      CutAt(m.parent, k, r, |a.parent|);
    }
  }

  /** No symbol merged so far is heavier than the last merged node. */
  lemma {:induction false} Consumed(w: seq<nat>, k: nat)
    requires Input(w) && 1 <= k < |w|
    ensures var m := MergeAt(w, k);
      forall i :: 0 <= i < m.leaf ==> w[i] <= m.weight[k - 1]
  {
    hide *;
    if k > 1 {
      Consumed(w, k - 1);
      ConsumedNext(w, MergeAt(w, k - 1));
      MergeStep(w, k);
    } else {
      MergeFirst(w);
    }
  }

  lemma ConsumedNext(w: seq<nat>, m: Merge)
    requires Input(w) && Merging(w, m) && |m.weight| < |w| - 1
    requires forall i :: 0 <= i < m.leaf ==> w[i] <= m.weight[|m.weight| - 1]
    ensures var r := Next(w, m);
      forall i :: 0 <= i < r.leaf ==> i < |w| && w[i] <= r.weight[|m.weight|]
  {
    NextMerging(w, m);
    hide GrowingTwice, Conserved, Input;
  }

  // ----- what the lengths cost -----

  /** The cost of these lengths for symbols of these weights. */
  function Charge(w: seq<nat>, lens: seq<nat>): nat
    requires |w| == |lens|
  {
    if w == [] then 0 else w[0] * lens[0] + Charge(w[1..], lens[1..])
  }

  lemma {:induction false} ChargeFill(w: seq<nat>, i: nat, c: nat, d: nat, lens: seq<nat>)
    requires i + c + |lens| == |w|
    ensures Charge(w[i..], Repeat(d, c) + lens) == Charge(w[i + c..], lens) + d * Sum(w, i, i + c)
    decreases c
  {
    hide Repeat, Charge, Sum;
    RepeatFirst(d, c, lens);
    if c > 0 {
      ChargeFill(w, i + 1, c - 1, d, lens);
      ChargeFirst(w, i, d, Repeat(d, c - 1) + lens);
      SumFirst(w, i, i + c);
      MulDistributes(w[i], Sum(w, i + 1, i + c), d);
    } else {
      SumEmpty(w, i);
    }
  }

  lemma SumEmpty(w: seq<nat>, i: nat)
    requires i <= |w|
    ensures Sum(w, i, i) == 0
  {
  }

  lemma RepeatFirst(d: nat, c: nat, lens: seq<nat>)
    ensures Repeat(d, 0) + lens == lens
    ensures c > 0 ==> Repeat(d, c) + lens == [d] + (Repeat(d, c - 1) + lens)
  {
  }

  lemma ChargeFirst(w: seq<nat>, i: nat, d: nat, lens: seq<nat>)
    requires i < |w| && i + 1 + |lens| == |w|
    ensures Charge(w[i..], [d] + lens) == w[i] * d + Charge(w[i + 1..], lens)
  {
    assert ([d] + lens)[1..] == lens && w[i..][1..] == w[i + 1..];
  }

  /** The number of lengths greater than d. */
  function Above(lens: seq<nat>, d: nat): (n: nat)
    ensures n <= |lens|
  {
    if lens == [] then 0 else (if lens[0] > d then 1 else 0) + Above(lens[1..], d)
  }

  lemma {:induction false} NoneAbove(lens: seq<nat>, d: nat)
    requires forall i :: 0 <= i < |lens| ==> lens[i] <= d
    ensures Above(lens, d) == 0
  {
    if lens != [] {
      NoneAbove(lens[1..], d);
    }
  }

  lemma {:induction false} AbovePush(lens: seq<nat>, x: nat, d: nat)
    ensures Above(lens + [x], d) == Above(lens, d) + (if x > d then 1 else 0)
  {
    if lens == [] {
      assert [] + [x] == [x];
      assert Above([x], d) == (if x > d then 1 else 0) + Above([x][1..], d);
    } else {
      AbovePush(lens[1..], x, d);
      assert (lens + [x])[1..] == lens[1..] + [x];
    }
  }

  lemma {:induction false} KraftSumPush(lens: seq<nat>, x: nat, top: nat)
    ensures KraftSum(lens + [x], top) == KraftSum(lens, top) + Share(x, top)
  {
    if lens == [] {
      assert [] + [x] == [x];
      assert KraftSum([x], top) == Share(x, top) + KraftSum([x][1..], top);
    } else {
      KraftSumPush(lens[1..], x, top);
      assert (lens + [x])[1..] == lens[1..] + [x];
    }
  }

  /** At every level the symbols that are deeper are light: together, by the nodes at that level, and each alone. */
  ghost predicate LightBelow(w: seq<nat>, lens: seq<nat>, d: nat) {
    && |lens| <= |w|
    && var k := |w| - |lens| + Above(lens, d);
       && Sum(w, 0, k) * Fib(d + 1) <= (Pow2(d) - KraftSum(lens, d)) * Sum(w, 0, |w|)
       && (k > 0 ==> w[k - 1] * Fib(d + 1) <= Sum(w, 0, |w|))
  }

  /** Deeper levels do not change what is known of this one. */
  lemma {:induction false} LightKept(w: seq<nat>, lens: seq<nat>, d: nat, e: nat, c: nat)
    requires LightBelow(w, lens, d) && d < e && |lens| + c <= |w|
    ensures LightBelow(w, Repeat(e, c) + lens, d)
  {
    if c == 0 {
      assert Repeat(e, 0) + lens == lens;
    } else {
      LightKept(w, lens, d, e, c - 1);
      assert (Repeat(e, c) + lens)[1..] == Repeat(e, c - 1) + lens;
    }
  }

  lemma {:induction false} KraftTwice(lens: seq<nat>, d: nat)
    requires forall i :: 0 <= i < |lens| ==> lens[i] <= d
    ensures KraftSum(lens, d + 1) == 2 * KraftSum(lens, d)
  {
    if lens != [] {
      KraftTwice(lens[1..], d);
    }
  }

  /** A node k levels up weighs at least Fib(k + 1) times as much. */
  lemma {:induction false} AncestorGrowth(parent: seq<nat>, n: nat, weight: seq<nat>, j: nat, k: nat)
    requires Tree(parent, n) && Grows(parent, weight) && j <= n - 2 && k <= Depth(parent, j)
    ensures Ancestor(parent, j, k) <= n - 2
    ensures weight[j] * Fib(k + 1) <= weight[Ancestor(parent, j, k)]
  {
    hide Fib, Depth, Tree, Grows;
    AncestorDepth(parent, n, j, k);
    FibSteps(k);
    if k == 1 {
      AncestorHeavier(parent, n, weight, j, 1);
    } else if k > 1 {
      AncestorGrowth(parent, n, weight, j, k - 1);
      AncestorGrowth(parent, n, weight, j, k - 2);
      AncestorHeavier(parent, n, weight, j, k);
      MulDistributes(Fib(k), Fib(k - 1), weight[j]);
    }
  }

  lemma FibSteps(k: nat)
    ensures Fib(1) == 1 && Fib(2) == 1
    ensures k > 1 ==> Fib(k + 1) == Fib(k) + Fib(k - 1)
  {
  }

  lemma AncestorHeavier(parent: seq<nat>, n: nat, weight: seq<nat>, j: nat, k: nat)
    requires Tree(parent, n) && Grows(parent, weight) && j <= n - 2 && 0 < k <= Depth(parent, j)
    ensures |weight| == n - 1 && forall i :: 0 <= i <= k ==> Ancestor(parent, j, i) <= n - 2
    ensures weight[Ancestor(parent, j, k)] >= weight[Ancestor(parent, j, k - 1)]
    ensures k > 1 ==> weight[Ancestor(parent, j, k)]
                      >= weight[Ancestor(parent, j, k - 1)] + weight[Ancestor(parent, j, k - 2)]
  {
    forall i | 0 <= i <= k
      ensures Ancestor(parent, j, i) <= n - 2
    {
      AncestorDepth(parent, n, j, i);
    }
    var i := Step(parent, n, j, k);
    if k > 1 {
      var h := Step(parent, n, j, k - 1);
      assert parent[parent[h]] == Ancestor(parent, j, k);
    }
  }

  lemma RootAncestor(parent: seq<nat>, n: nat, j: nat)
    requires Tree(parent, n) && j <= n - 2
    ensures Ancestor(parent, j, Depth(parent, j)) == n - 2
  {
    AncestorDepth(parent, n, j, Depth(parent, j));
    var a := Ancestor(parent, j, Depth(parent, j));
    assert a < n - 2 ==> Depth(parent, a) == 1 + Depth(parent, parent[a]);
  }

  // ----- one level -----

  /** A level ends where its nodes' children begin. */
  lemma LevelCut(parent: seq<nat>, n: nat, depth: nat, low: int, root: int)
    requires Tree(parent, n) && -1 <= low <= root <= n - 2 && (depth == 0 ==> root == n - 2)
    requires forall j :: 0 <= j <= low ==> Depth(parent, j) > depth
    requires forall j :: low < j <= root ==> Depth(parent, j) == depth
    requires forall j :: root < j <= n - 2 ==> Depth(parent, j) < depth
    requires low >= 0 ==> low < root
    ensures Cut(parent, root + 1, low + 1)
  {
    assert Depth(parent, n - 2) == 0;
    forall j | 0 <= j < n - 2
      ensures Depth(parent, j) == 1 + Depth(parent, parent[j])
    {
    }
  }

  /** The nodes of a level weigh little if there are few of them. */
  lemma {:induction false} LevelWeight(parent: seq<nat>, n: nat, weight: seq<nat>, depth: nat, lo: nat, hi: nat)
    requires Tree(parent, n) && Grows(parent, weight) && lo <= hi <= n - 1
    requires forall j :: lo <= j < hi ==> Depth(parent, j) == depth
    ensures Sum(weight, lo, hi) * Fib(depth + 1) <= (hi - lo) * weight[n - 2]
  {
    if lo < hi {
      hide Fib, Depth, Tree, Grows;
      LevelWeight(parent, n, weight, depth, lo, hi - 1);
      NodeWeight(parent, n, weight, hi - 1);
      MulDistributes(Sum(weight, lo, hi - 1), weight[hi - 1], Fib(depth + 1));
      MulDistributes(hi - 1 - lo, 1, weight[n - 2]);
    }
  }

  lemma NodeWeight(parent: seq<nat>, n: nat, weight: seq<nat>, j: nat)
    requires Tree(parent, n) && Grows(parent, weight) && j <= n - 2
    ensures |weight| == n - 1 && weight[j] * Fib(Depth(parent, j) + 1) <= weight[n - 2]
  {
    AncestorGrowth(parent, n, weight, j, Depth(parent, j));
    RootAncestor(parent, n, j);
  }

  /** What the last round leaves. */
  lemma LastRound(w: seq<nat>)
    requires Input(w)
    ensures var m, n := MergeAt(w, |w| - 1), |w|;
      && Grows(m.parent, m.weight) && |m.weight| == n - 1 && |m.parent| == n - 2 && m.weight[n - 2] == Sum(w, 0, n)
      && Ascending(m.weight)
  {
    var m, n := MergeAt(w, |w| - 1), |w|;
    assert Sum(w, n, n) == 0;
    assert Sum(m.weight, n - 2, n - 2) == 0;
  }

  /** A symbol below a level is not heavier than that level's last node. */
  lemma SymbolBelow(w: seq<nat>, k: nat, r: nat, i: nat)
    requires Input(w) && 1 <= k < |w| && Cut(MergeAt(w, |w| - 1).parent, k, r) && i + r < 2 * k
    ensures i < |w| && w[i] <= MergeAt(w, |w| - 1).weight[k - 1]
  {
    hide *;
    var a, m := MergeAt(w, k), MergeAt(w, |w| - 1);
    Earlier(w, k, |w| - 1);
    BalancedAt(w, k);
    BelowRound(w, k);
    CutUnique(a, m, k, r);
    Consumed(w, k);
  }

  /** What is known when all symbols down to a level have their lengths: what they cost, how much of the Kraft sum is
      left, and how light the others are. */
  ghost predicate Costing(w: seq<nat>, weight: seq<nat>, lens: seq<nat>, root: int, avbl: nat, dpth: nat) {
    && |lens| <= |w| && -1 <= root < |weight|
    && Charge(w[|w| - |lens|..], lens) + dpth * Sum(w, 0, |w| - |lens|) + Sum(weight, 0, root + 1)
      == Sum(weight, 0, |weight|)
    && KraftSum(lens, dpth) + avbl == Pow2(dpth)
    && forall d :: 0 <= d < dpth ==> LightBelow(w, lens, d)
  }

  lemma CostingStart(w: seq<nat>, weight: seq<nat>)
    requires |weight| >= 1
    ensures Costing(w, weight, [], |weight| - 1, 1, 0)
  {
    assert w[|w|..] == [];
  }

  lemma {:induction false} KraftFill(d: nat, k: nat, lens: seq<nat>)
    ensures KraftSum(Repeat(d, k) + lens, d) == k + KraftSum(lens, d)
  {
    KraftRepeat(d, k, lens, d);
    assert Pow2(0) == 1;
  }

  lemma LevelLight(w: seq<nat>, lens: seq<nat>, d: nat, k: nat, used: nat)
    requires |lens| + k == |w| && (forall i :: 0 <= i < |lens| ==> lens[i] <= d) && KraftSum(lens, d) + used == Pow2(d)
    requires Sum(w, 0, k) * Fib(d + 1) <= used * Sum(w, 0, |w|)
    requires k > 0 ==> w[k - 1] * Fib(d + 1) <= Sum(w, 0, |w|)
    ensures LightBelow(w, lens, d)
  {
    NoneAbove(lens, d);
  }

  /** The cost of a level: its leaves get its depth, and the symbols below it will cost one bit more. */
  lemma LevelCharge(w: seq<nat>, lens: seq<nat>, dpth: nat, c: nat, k: nat, above: nat, below: nat, total: nat)
    requires k + |lens| == |w| && c <= k && above == Sum(w, 0, k - c) + below
    requires Charge(w[k..], lens) + dpth * Sum(w, 0, k) + above == total
    ensures Charge(w[k - c..], Repeat(dpth, c) + lens) + (dpth + 1) * Sum(w, 0, k - c) + below == total
  {
    hide Charge, Repeat, Sum;
    ChargeFill(w, k - c, c, dpth, lens);
    SumSplit(w, 0, k - c, k);
    MulDistributes(Sum(w, 0, k - c), Sum(w, k - c, k), dpth);
    MulDistributes(dpth, 1, Sum(w, 0, k - c));
  }

  /** What a level adds to the Kraft sum. */
  lemma LevelKraft(lens: seq<nat>, dpth: nat, avbl: nat, used: nat)
    requires used <= avbl && KraftSum(lens, dpth) + avbl == Pow2(dpth)
    requires forall i :: 0 <= i < |lens| ==> lens[i] <= dpth
    ensures var after := Repeat(dpth, avbl - used) + lens;
      && KraftSum(after, dpth) + used == Pow2(dpth) && KraftSum(after, dpth + 1) + 2 * used == Pow2(dpth + 1)
      && forall i :: 0 <= i < |after| ==> after[i] <= dpth
  {
    KraftFill(dpth, avbl - used, lens);
    hide KraftSum;
    KraftTwice(Repeat(dpth, avbl - used) + lens, dpth);
  }

  /** All levels above, and this one, are known to be light. */
  lemma LightAll(w: seq<nat>, lens: seq<nat>, dpth: nat, c: nat)
    requires (forall d :: 0 <= d < dpth ==> LightBelow(w, lens, d)) && |lens| + c <= |w|
    requires LightBelow(w, Repeat(dpth, c) + lens, dpth)
    ensures forall d :: 0 <= d < dpth + 1 ==> LightBelow(w, Repeat(dpth, c) + lens, d)
  {
    hide LightBelow;
    forall d | 0 <= d < dpth
      ensures LightBelow(w, Repeat(dpth, c) + lens, d)
    {
      LightKept(w, lens, d, dpth, c);
    }
  }

  lemma ScanCut(parent: seq<nat>, n: nat, root: int, high: int, next: int, avbl: nat, dpth: nat, low: int)
    requires Scan(parent, n, root, high, next, avbl, dpth) && -1 <= low <= root && avbl > 0
    requires forall j :: low < j <= root ==> Depth(parent, j) == dpth
    requires low >= 0 ==> Depth(parent, low) != dpth
    ensures Cut(parent, root + 1, low + 1) && avbl == next - root && root <= n - 2 && root - low <= avbl
    ensures root >= 0 ==> low < root
  {
    ScanLevel(parent, n, root, high, next, avbl, dpth, low);
    if root == low {
      ScanEnd(parent, n, low, root, next - avbl, dpth + 1);
    }
    forall j | 0 <= j <= low
      ensures Depth(parent, j) > dpth
    {
      DepthMonotonic(parent, n, j, low);
    }
    hide Depth;
    LevelCut(parent, n, dpth, low, root);
  }

  /** The nodes of a level weigh what the symbols below it weigh, and that is little. */
  lemma LevelSums(w: seq<nat>, m: Merge, root: int, low: int, dpth: nat)
    requires Input(w) && m == MergeAt(w, |w| - 1) && Tree(m.parent, |w|) && -1 <= low <= root <= |w| - 2
    requires Cut(m.parent, root + 1, low + 1) && forall j :: low < j <= root ==> Depth(m.parent, j) == dpth
    ensures |m.weight| == |w| - 1 && 0 <= 2 * (root + 1) - (low + 1) <= |w|
    ensures var k := 2 * (root + 1) - (low + 1);
      && Sum(m.weight, 0, root + 1) == Sum(w, 0, k) + Sum(m.weight, 0, low + 1)
      && Sum(w, 0, k) * Fib(dpth + 1) <= (root - low) * Sum(w, 0, |w|)
  {
    hide Merging, Next, Ascending, Fib, Cut, Depth, Sum, Tree, Grows;
    LastRound(w);
    Balanced(w, root + 1, low + 1);
    SumSplit(m.weight, 0, low + 1, root + 1);
    LevelWeight(m.parent, |w|, m.weight, dpth, low + 1, root + 1);
  }

  /** Every symbol below it is light. */
  lemma LevelSymbol(w: seq<nat>, m: Merge, root: nat, low: int, dpth: nat)
    requires Input(w) && m == MergeAt(w, |w| - 1) && Tree(m.parent, |w|) && -1 <= low < root <= |w| - 2
    requires Cut(m.parent, root + 1, low + 1) && Depth(m.parent, root) == dpth
    ensures var k := 2 * (root + 1) - (low + 1);
      0 < k <= |w| && w[k - 1] * Fib(dpth + 1) <= Sum(w, 0, |w|)
  {
    hide Merging, Next, Ascending, Fib, Cut, Depth, Sum, Tree, Grows;
    var k := 2 * (root + 1) - (low + 1);
    LastRound(w);
    SymbolBelow(w, root + 1, low + 1, k - 1);
    NodeWeight(m.parent, |w|, m.weight, root);
    MulMonotonic(w[k - 1], m.weight[root], Fib(dpth + 1));
  }

  /** What the symbols below a level weigh, given how far the scan has come. */
  lemma LevelFacts(w: seq<nat>, m: Merge, root: int, high: int, next: int, avbl: nat, dpth: nat, low: int)
    requires Input(w) && m == MergeAt(w, |w| - 1) && Scan(m.parent, |w|, root, high, next, avbl, dpth) && avbl > 0
    requires -1 <= low <= root && forall j :: low < j <= root ==> Depth(m.parent, j) == dpth
    requires low >= 0 ==> Depth(m.parent, low) != dpth
    ensures |m.weight| == |w| - 1 && -1 <= next < |w| && root <= |w| - 2
    ensures root - low <= avbl && avbl - (root - low) <= next + 1
    ensures var k := next + 1 - (avbl - (root - low));
      && Sum(m.weight, 0, root + 1) == Sum(w, 0, k) + Sum(m.weight, 0, low + 1)
      && Sum(w, 0, k) * Fib(dpth + 1) <= (root - low) * Sum(w, 0, |w|)
      && (k > 0 ==> w[k - 1] * Fib(dpth + 1) <= Sum(w, 0, |w|))
  {
    hide Merging, Next, Ascending, Fib, Cut, Depth, Sum, Tree;
    ScanCut(m.parent, |w|, root, high, next, avbl, dpth, low);
    LevelSums(w, m, root, low, dpth);
    if root >= 0 {
      LevelSymbol(w, m, root, low, dpth);
    }
  }

  lemma CostingNext(w: seq<nat>, weight: seq<nat>, lens: seq<nat>, root: int, avbl: nat, dpth: nat, low: int)
    requires Costing(w, weight, lens, root, avbl, dpth) && -1 <= low <= root && root - low <= avbl
    requires (forall i :: 0 <= i < |lens| ==> lens[i] <= dpth) && avbl - (root - low) <= |w| - |lens|
    requires var k := |w| - |lens| - (avbl - (root - low));
      && Sum(weight, 0, root + 1) == Sum(w, 0, k) + Sum(weight, 0, low + 1)
      && Sum(w, 0, k) * Fib(dpth + 1) <= (root - low) * Sum(w, 0, |w|)
      && (k > 0 ==> w[k - 1] * Fib(dpth + 1) <= Sum(w, 0, |w|))
    ensures Costing(w, weight, Repeat(dpth, avbl - (root - low)) + lens, low, 2 * (root - low), dpth + 1)
  {
    hide Fib, Sum, KraftSum, Charge, Repeat, LightBelow, Pow2;
    var used := root - low;
    var c, k := avbl - used, |w| - |lens|;
    LevelCharge(w, lens, dpth, c, k, Sum(weight, 0, root + 1), Sum(weight, 0, low + 1), Sum(weight, 0, |weight|));
    LevelKraft(lens, dpth, avbl, used);
    LevelLight(w, Repeat(dpth, c) + lens, dpth, k - c, used);
    LightAll(w, lens, dpth, c);
  }

  /** One level of the scan. */
  lemma CostingStep(w: seq<nat>, m: Merge, root: int, high: int, next: int, avbl: nat, dpth: nat, lens: seq<nat>,
    low: int)
    requires Input(w) && m == MergeAt(w, |w| - 1) && Leveling(m.parent, |w|, root, high, next, avbl, dpth, lens)
      && avbl > 0
    requires -1 <= low <= root && |lens| == |w| - 1 - next && Costing(w, m.weight, lens, root, avbl, dpth)
    requires forall j :: low < j <= root ==> Depth(m.parent, j) == dpth
    requires low >= 0 ==> Depth(m.parent, low) != dpth
    ensures root - low <= avbl
    ensures Costing(w, m.weight, Repeat(dpth, avbl - (root - low)) + lens, low, 2 * (root - low), dpth + 1)
  {
    hide Costing, Scan, Merging, Fib, Sum, Repeat, Ascending, Next, KraftSum, Pow2, Depth;
    LevelFacts(w, m, root, high, next, avbl, dpth, low);
    CostingNext(w, m.weight, lens, root, avbl, dpth, low);
  }

  /** No prefix code for symbols of these weights costs less than these lengths do. */
  ghost predicate Minimal(w: seq<nat>, lens: seq<nat>) {
    |w| == |lens| && forall q, top :: Code(q, top) && multiset(Weights(q)) == multiset(w) ==> Charge(w, lens) <= Cost(q)
  }

  /** The symbols below every level that is in use are light. */
  ghost predicate LightTails(w: seq<nat>, lens: seq<nat>) {
    forall d, i :: 0 <= i < |lens| && 0 <= d < lens[i] ==> LightBelow(w, lens, d)
  }

  /** At the end of the scan the lengths cost what the merged nodes weigh, and that is optimal. */
  lemma CostingEnd(w: seq<nat>, m: Merge, lens: seq<nat>, dpth: nat)
    requires Input(w) && m == MergeAt(w, |w| - 1) && |lens| == |w| && Costing(w, m.weight, lens, -1, 0, dpth)
    requires Lengths(lens, dpth)
    ensures Minimal(w, lens) && LightTails(w, lens)
  {
    hide Merging, Next, KraftSum, LightBelow, Code, Weights, Cost, Charge, Ascending;
    assert w[0..] == w;
    SumEmpty(w, 0);
    SumEmpty(m.weight, 0);
    forall q, top | Code(q, top) && multiset(Weights(q)) == multiset(w)
      ensures Charge(w, lens) <= Cost(q)
    {
      Optimal(w, q, top);
    }
  }
}
