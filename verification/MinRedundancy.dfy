/** tdefl_calculate_minimum_redundancy: Huffman code lengths computed in place.

    One array of 16-bit keys holds, in turn, symbol weights, parent links, internal node depths
    and finally code lengths.  The ghost sequences below record the merge tree that the array
    only ever shows a part of. */
module MinRedundancy {
  import opened Bits
  import opened HuffmanTree
  import opened HuffmanOptimal
  import opened HuffmanLevels

  datatype SymFreq = SymFreq(key: nat, sym: nat)

  function Keys(a: seq<SymFreq>): (k: seq<nat>)
    ensures |k| == |a| && forall i :: 0 <= i < |a| ==> k[i] == a[i].key
  {
    seq(|a|, i requires 0 <= i < |a| => a[i].key)
  }

  /** What the array shows of a merge: parents, then weights still to merge, then symbols still to merge. */
  ghost predicate Overlay(a: array<SymFreq>, w: seq<nat>, parent: seq<nat>, weight: seq<nat>, leaf: nat)
    reads a
  {
    && a.Length == |w| && |parent| <= a.Length && |weight| <= a.Length
    && (forall j :: 0 <= j < |parent| ==> a[j].key == parent[j])
    && (forall j :: |parent| <= j < |weight| ==> a[j].key == weight[j])
    && (forall j :: leaf <= j < |w| ==> a[j].key == w[j])
  }

  ghost predicate HasSymbols(a: array<SymFreq>, syms: seq<nat>)
    reads a
  {
    a.Length == |syms| && forall i :: 0 <= i < a.Length ==> a[i].sym == syms[i]
  }

  /** The first half of a merge: the lightest item becomes the weight of internal node `next`. */
  method TakeFirst(a: array<SymFreq>, n: nat, root0: nat, leaf0: nat, next: nat,
                     ghost w: seq<nat>, ghost parent: seq<nat>, ghost weight: seq<nat>, ghost syms: seq<nat>)
    returns (root: nat, leaf: nat)
    requires n == a.Length == |w| <= 65536 && next == |weight| < n && root0 == |parent| <= next < leaf0
    requires root0 < next
    requires Overlay(a, w, parent, weight, leaf0) && HasSymbols(a, syms)
    modifies a
    ensures HasSymbols(a, syms)
    ensures var node := TakesNode(w, weight, root0, leaf0);
      && root == (if node then root0 + 1 else root0) && leaf == (if node then leaf0 else leaf0 + 1)
      && Overlay(a, w, if node then parent + [next] else parent, weight, leaf)
    ensures a[next].key == Item(w, weight, root0, leaf0)
  {
    root, leaf := root0, leaf0;
    if leaf >= n || a[root].key < a[leaf].key {
      a[next] := a[next].(key := a[root].key);
      a[root] := a[root].(key := next % 65536);
      root := root + 1;
    } else {
      a[next] := a[next].(key := a[leaf].key);
      leaf := leaf + 1;
    }
  }

  /** The second half: the lightest remaining item is added to it. */
  method TakeSecond(a: array<SymFreq>, n: nat, root0: nat, leaf0: nat, next: nat,
                     ghost w: seq<nat>, ghost parent: seq<nat>, ghost weight: seq<nat>, ghost syms: seq<nat>)
    returns (root: nat, leaf: nat)
    requires n == a.Length == |w| <= 65536 && next == |weight| < n && root0 == |parent| <= next < leaf0
    requires leaf0 < n || root0 < next
    requires Overlay(a, w, parent, weight, leaf0) && HasSymbols(a, syms)
    requires a[next].key + Item(w, weight, root0, leaf0) < 65536
    modifies a
    ensures HasSymbols(a, syms)
    ensures var node := TakesNode(w, weight, root0, leaf0);
      && root == (if node then root0 + 1 else root0) && leaf == (if node then leaf0 else leaf0 + 1)
      && Overlay(a, w, if node then parent + [next] else parent, weight + [a[next].key], leaf)
    ensures a[next].key == old(a[next].key) + Item(w, weight, root0, leaf0)
  {
    root, leaf := root0, leaf0;
    if leaf >= n || (root < next && a[root].key < a[leaf].key) {
      a[next] := a[next].(key := (a[next].key + a[root].key) % 65536);
      a[root] := a[root].(key := next % 65536);
      root := root + 1;
    } else {
      a[next] := a[next].(key := (a[next].key + a[leaf].key) % 65536);
      leaf := leaf + 1;
    }
  }

  /** The weight at the root is the sum of all keys, so 16 bits never wrap. */
  method MergePhase(a: array<SymFreq>, n: nat, ghost syms: seq<nat>) returns (ghost m: Merge)
    requires n == a.Length <= 65536 && Input(Keys(a[..])) && HasSymbols(a, syms)
    modifies a
    ensures Merging(old(Keys(a[..])), m) && |m.weight| == n - 1 && m == MergeAt(old(Keys(a[..])), n - 1)
    ensures Tree(m.parent, n) && forall j :: 0 <= j <= n - 2 ==> Depth(m.parent, j) <= 21
    ensures forall j :: 0 <= j < n - 2 ==> a[j].key == m.parent[j]
    ensures HasSymbols(a, syms)
  {
    hide Ordered, GrowingTwice, Conserved, MergeAt, Next, Ascending, Sum, Tree, Depth, Merging;
    hide Shape;
    ghost var w := Keys(a[..]);
    Start(w);
    MergeFirst(w);
    a[0] := a[0].(key := (a[0].key + a[1].key) % 65536);
    var root, leaf, next := 0, 2, 1;
    m := Merge([], [w[0] + w[1]], 2, w[1]);
    while next < n - 1
      invariant 1 <= next <= n - 1
      invariant Merging(w, m) && m == MergeAt(w, next)
      invariant |m.parent| == root && |m.weight| == next && m.leaf == leaf
      invariant forall j :: 0 <= j < next ==> m.weight[j] < 65536
      invariant Overlay(a, w, m.parent, m.weight, m.leaf)
      invariant HasSymbols(a, syms)
    {
      MergingShape(w, m);
      NextSmall(w, m);
      root, leaf := MergeOne(a, n, root, leaf, next, w, m, syms);
      MergeStep(w, next + 1);
      m := Next(w, m);
      next := next + 1;
    }
    TreeComplete(w, m);
  }

  /** One round: the two lightest items are merged. */
  method MergeOne(a: array<SymFreq>, n: nat, root0: nat, leaf0: nat, next: nat, ghost w: seq<nat>, ghost m: Merge,
                  ghost syms: seq<nat>) returns (root: nat, leaf: nat)
    requires n == a.Length == |w| <= 65536 && 1 <= next < n - 1 && Input(w) && Merging(w, m)
    requires |m.parent| == root0 && |m.weight| == next && m.leaf == leaf0
    requires Overlay(a, w, m.parent, m.weight, m.leaf) && HasSymbols(a, syms)
    requires Next(w, m).weight[next] < 65536
    modifies a
    ensures Merging(w, Next(w, m)) && HasSymbols(a, syms)
    ensures var r := Next(w, m);
      && root == |r.parent| && leaf == r.leaf && |r.weight| == next + 1 && r.weight[..next] == m.weight
      && Overlay(a, w, r.parent, r.weight, r.leaf)
  {
    hide Ordered, GrowingTwice, Conserved, HasSymbols;
    NextMerging(w, m);
    ghost var node := TakesNode(w, m.weight, root0, leaf0);
    ghost var parent := if node then m.parent + [next] else m.parent;
    root, leaf := TakeFirst(a, n, root0, leaf0, next, w, m.parent, m.weight, syms);
    root, leaf := TakeSecond(a, n, root, leaf, next, w, parent, m.weight, syms);
    assert a[next].key == Next(w, m).weight[next];
  }

  // ----- phase 2: parents to depths -----

  method DepthPhase(a: array<SymFreq>, n: nat, ghost parent: seq<nat>, ghost syms: seq<nat>)
    returns (ghost depths: seq<nat>)
    requires n == a.Length <= 65536 && Tree(parent, n) && HasSymbols(a, syms)
    requires forall j :: 0 <= j < n - 2 ==> a[j].key == parent[j]
    modifies a
    ensures |depths| == n - 1 && forall j :: 0 <= j <= n - 2 ==> a[j].key == depths[j] == Depth(parent, j)
    ensures HasSymbols(a, syms)
  {
    a[n - 2] := a[n - 2].(key := 0);
    var next := n - 3;
    while next >= 0
      invariant -1 <= next <= n - 3
      invariant forall j :: 0 <= j <= next ==> a[j].key == parent[j]
      invariant forall j :: next < j <= n - 2 ==> a[j].key == Depth(parent, j)
      invariant HasSymbols(a, syms)
    {
      a[next] := a[next].(key := a[a[next].key].key + 1);
      next := next - 1;
    }
    depths := seq(n - 1, j requires 0 <= j < n - 1 => Depth(parent, j));
  }

  // ----- phase 3: internal depths to code lengths -----

  /** The part of the array not yet overwritten still holds internal depths; the rest holds lengths. */
  ghost predicate Depths(a: array<SymFreq>, depths: seq<nat>, root: int, next: int, lens: seq<nat>)
    reads a
  {
    && |depths| == a.Length - 1 && -1 <= root < |depths| && -1 <= next < a.Length && |lens| == a.Length - 1 - next
    && (forall j :: 0 <= j <= root ==> a[j].key == depths[j])
    && (forall k :: 0 <= k < |lens| ==> a[next + 1 + k].key == lens[k])
  }

  /** Counts the internal nodes at one depth. */
  method CountLevel(a: array<SymFreq>, root0: int, dpth: nat, ghost depths: seq<nat>) returns (root: int, used: nat)
    requires |depths| == a.Length - 1 && -1 <= root0 < |depths|
    requires forall j :: 0 <= j <= root0 ==> a[j].key == depths[j]
    ensures -1 <= root <= root0 && used == root0 - root
    ensures forall j :: root < j <= root0 ==> depths[j] == dpth
    ensures root >= 0 ==> depths[root] != dpth
  {
    root, used := root0, 0;
    while root >= 0 && a[root].key == dpth
      invariant -1 <= root <= root0 && used == root0 - root
      invariant forall j :: root < j <= root0 ==> depths[j] == dpth
    {
      used := used + 1;
      root := root - 1;
    }
  }

  /** Gives the current depth to the symbols that are leaves of this level. */
  method FillLevel(a: array<SymFreq>, next0: int, avbl0: nat, used: nat, dpth: nat,
                   ghost depths: seq<nat>, ghost root: int, ghost lens0: seq<nat>, ghost syms: seq<nat>)
    returns (next: int, ghost lens: seq<nat>)
    requires dpth <= MAX_SUPPORTED_CODE_SIZE && HasSymbols(a, syms)
    requires Depths(a, depths, root, next0, lens0)
    requires used <= avbl0 && avbl0 - used <= next0 - root
    modifies a
    ensures HasSymbols(a, syms)
    ensures Depths(a, depths, root, next, lens) && next == next0 - (avbl0 - used)
    ensures lens == Repeat(dpth, avbl0 - used) + lens0
  {
    hide HasSymbols, Repeat;
    var avbl: nat := avbl0;
    next, lens := next0, lens0;
    RepeatNext(dpth, 0, lens0);
    while avbl > used
      invariant used <= avbl <= avbl0 && next == next0 - (avbl0 - avbl)
      invariant HasSymbols(a, syms)
      invariant Depths(a, depths, root, next, lens)
      invariant lens == Repeat(dpth, avbl0 - avbl) + lens0
    {
      RepeatNext(dpth, avbl0 - avbl, lens0);
      FillOne(a, next, dpth, depths, root, lens, syms);
      lens := [dpth] + lens;
      next := next - 1;
      avbl := avbl - 1;
    }
  }

  method FillOne(a: array<SymFreq>, next: int, dpth: nat, ghost depths: seq<nat>, ghost root: int, ghost lens: seq<nat>,
                 ghost syms: seq<nat>)
    requires dpth <= MAX_SUPPORTED_CODE_SIZE && HasSymbols(a, syms) && root < next
      && Depths(a, depths, root, next, lens)
    modifies a
    ensures HasSymbols(a, syms) && Depths(a, depths, root, next - 1, [dpth] + lens)
  {
    a[next] := a[next].(key := dpth % 65536);
  }

  method LengthPhase(a: array<SymFreq>, n: nat, ghost w: seq<nat>, ghost m: Merge, ghost depths: seq<nat>,
    ghost syms: seq<nat>)
    requires n == a.Length == |w| <= 65536 && Input(w) && m == MergeAt(w, n - 1) && Tree(m.parent, n)
      && HasSymbols(a, syms)
    requires |depths| == n - 1 == |m.weight|
    requires forall j :: 0 <= j <= n - 2 ==> a[j].key == depths[j] == Depth(m.parent, j) <= 21
    modifies a
    ensures HasSymbols(a, syms)
    ensures Lengths(Keys(a[..]), MAX_SUPPORTED_CODE_SIZE + 1)
    ensures KraftSum(Keys(a[..]), MAX_SUPPORTED_CODE_SIZE) == Pow2(MAX_SUPPORTED_CODE_SIZE)
    ensures Minimal(w, Keys(a[..])) && LightTails(w, Keys(a[..]))
  {
    hide Leveling, KraftSum, Depth, Tree, Scan, Lengths, Pow2, HasSymbols, Repeat, Costing, Ascending, Sum, Minimal,
      LightTails, Merging;
    var avbl: nat, used: nat, dpth: nat := 1, 0, 0;
    var root, next := n - 2, n - 1;
    ghost var high, lens: seq<nat> := n - 2, [];
    ScanStart(m.parent, n);
    CostingStart(w, m.weight);
    while avbl > 0
      invariant used == 0
      invariant Leveling(m.parent, n, root, high, next, avbl, dpth, lens)
        && Costing(w, m.weight, lens, root, avbl, dpth)
      invariant Depths(a, depths, root, next, lens)
      invariant HasSymbols(a, syms)
      decreases root, avbl
    {
      ghost var root0 := root;
      root, used := CountLevel(a, root, dpth, depths);
      LevelingStep(m.parent, n, root0, high, next, avbl, dpth, lens, root);
      CostingStep(w, m, root0, high, next, avbl, dpth, lens, root);
      next, lens := FillLevel(a, next, avbl, used, dpth, depths, root, lens, syms);
      avbl := 2 * used;
      dpth := dpth + 1;
      used := 0;
      high := root0;
    }
    LevelingEnd(m.parent, n, root, high, next, dpth, lens);
    CostingEnd(w, m, lens, dpth);
    assert Keys(a[..]) == lens;
  }

  /** The whole algorithm: for two or more symbols the lengths satisfy the Kraft equality, rarer symbols (which come
      first) never get shorter codes, and no prefix code costs less. */
  method CalculateMinimumRedundancy(a: array<SymFreq>, n: nat, ghost syms: seq<nat>)
    requires n == a.Length <= 65536 && HasSymbols(a, syms)
    requires n >= 2 ==> Input(Keys(a[..]))
    modifies a
    ensures HasSymbols(a, syms)
    ensures n == 1 ==> a[0].key == 1
    ensures n >= 2 ==> Lengths(Keys(a[..]), MAX_SUPPORTED_CODE_SIZE + 1)
    ensures n >= 2 ==> KraftSum(Keys(a[..]), MAX_SUPPORTED_CODE_SIZE) == Pow2(MAX_SUPPORTED_CODE_SIZE)
    ensures n >= 2 ==> Minimal(old(Keys(a[..])), Keys(a[..])) && LightTails(old(Keys(a[..])), Keys(a[..]))
  {
    if n == 0 {
      return;
    } else if n == 1 {
      a[0] := a[0].(key := 1);
      return;
    }
    hide Input, Sum, Merging, MergeAt, Tree, Depth, HasSymbols, Lengths, KraftSum, Minimal, LightTails, Pow2;
    ghost var w := Keys(a[..]);
    ghost var m := MergePhase(a, n, syms);
    ghost var depths := DepthPhase(a, n, m.parent, syms);
    LengthPhase(a, n, w, m, depths, syms);
  }
}
