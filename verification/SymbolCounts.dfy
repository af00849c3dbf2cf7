/** The counts of the symbols of a table, and the list of those that occur: in symbol order, and sorted. */
module SymbolCounts {
  import opened Bits
  import opened Sums
  import opened HuffmanTree
  import opened HuffmanOptimal
  import opened MinRedundancy
  import RadixSort

  /** The symbols below n that occur, with their counts. */
  function UsedSyms(counts: seq<nat>, n: nat): (u: seq<SymFreq>)
    requires n <= |counts|
    ensures |u| <= n
  {
    if n == 0 then []
    else UsedSyms(counts, n - 1) + (if counts[n - 1] > 0 then [SymFreq(counts[n - 1], n - 1)] else [])
  }

  function CountSum(counts: seq<nat>, n: nat): nat
    requires n <= |counts|
  {
    if n == 0 then 0 else CountSum(counts, n - 1) + counts[n - 1]
  }

  function KeyOf(x: SymFreq): nat {
    x.key
  }

  ghost predicate DistinctSyms(s: seq<SymFreq>) {
    forall i, j :: 0 <= i < |s| && 0 <= j < |s| && s[i].sym == s[j].sym ==> i == j
  }

  lemma {:induction false} UsedSymsSum(counts: seq<nat>, n: nat)
    requires n <= |counts|
    ensures SumOf(UsedSyms(counts, n), KeyOf) == CountSum(counts, n)
  {
    if n > 0 {
      UsedSymsSum(counts, n - 1);
      UsedSumStep(counts, n, KeyOf);
    }
  }

  lemma UsedSumStep(counts: seq<nat>, n: nat, f: SymFreq -> nat)
    requires 0 < n <= |counts|
    ensures SumOf(UsedSyms(counts, n), f)
         == SumOf(UsedSyms(counts, n - 1), f) + (if counts[n - 1] > 0 then f(SymFreq(counts[n - 1], n - 1)) else 0)
  {
    if counts[n - 1] > 0 {
      SumPush(UsedSyms(counts, n - 1), SymFreq(counts[n - 1], n - 1), f);
    } else {
      assert UsedSyms(counts, n) == UsedSyms(counts, n - 1);
    }
  }

  lemma {:induction false} UsedSymsMembers(counts: seq<nat>, n: nat)
    requires n <= |counts|
    ensures var u := UsedSyms(counts, n);
      && (forall i :: 0 <= i < |u| ==> u[i].sym < n && u[i].key == counts[u[i].sym] > 0)
      && (forall i, j :: 0 <= i < j < |u| ==> u[i].sym < u[j].sym)
  {
    if n > 0 {
      UsedSymsMembers(counts, n - 1);
      if counts[n - 1] == 0 {
        assert UsedSyms(counts, n) == UsedSyms(counts, n - 1);
      }
    }
  }

  /** Where a used symbol appears in the list. */
  lemma {:induction false} UsedSymsFind(counts: seq<nat>, n: nat, s: nat) returns (i: nat)
    requires s < n <= |counts| && counts[s] > 0
    ensures i < |UsedSyms(counts, n)| && UsedSyms(counts, n)[i].sym == s
  {
    if s == n - 1 {
      i := |UsedSyms(counts, n - 1)|;
    } else {
      i := UsedSymsFind(counts, n - 1, s);
    }
  }

  /** A permutation of distinct symbols has distinct symbols. */
  lemma {:induction false} DistinctPermutation(s: seq<SymFreq>, t: seq<SymFreq>)
    requires multiset(s) == multiset(t) && DistinctSyms(t)
    ensures DistinctSyms(s)
  {
    hide Without;
    if s != [] {
      var r, x := s[..|s| - 1], s[|s| - 1];
      MultisetIndex(s, t, |s| - 1);
      var i :| 0 <= i < |t| && t[i] == x;
      MultisetRemove(s, t, i);
      DistinctWithout(t, i);
      DistinctPermutation(r, Without(t, i));
      forall k | 0 <= k < |r|
        ensures r[k].sym != x.sym
      {
        MultisetIndex(r, Without(t, i), k);
      }
    }
  }

  lemma DistinctWithout(t: seq<SymFreq>, i: nat)
    requires i < |t| && DistinctSyms(t)
    ensures DistinctSyms(Without(t, i)) && forall x :: x in Without(t, i) ==> x.sym != t[i].sym
  {
    var u := Without(t, i);
    forall m | 0 <= m < |u|
      ensures u[m] == t[if m < i then m else m + 1]
    {
    }
  }

  lemma {:induction false} KeySumIsSum(s: seq<SymFreq>)
    ensures Sum(Keys(s), 0, |s|) == SumOf(s, KeyOf)
  {
    if s != [] {
      var r := s[..|s| - 1];
      KeySumIsSum(r);
      SumPrefix(Keys(r), Keys(s), 0, |r|);
    }
  }

  /** What the sorted list is to the rest of the function. */
  ghost predicate SortedSyms(s: seq<SymFreq>, counts: seq<nat>) {
    && DistinctSyms(s)
    && (forall i :: 0 <= i < |s| ==> s[i].sym < |counts| && counts[s[i].sym] > 0)
    && (forall k :: 0 <= k < |counts| && counts[k] > 0 ==> exists i :: 0 <= i < |s| && s[i].sym == k)
  }

  lemma SortedMembers(s: seq<SymFreq>, counts: seq<nat>)
    requires multiset(s) == multiset(UsedSyms(counts, |counts|))
    ensures forall i :: 0 <= i < |s| ==> s[i].sym < |counts| && s[i].key == counts[s[i].sym] > 0
  {
    var u := UsedSyms(counts, |counts|);
    UsedSymsMembers(counts, |counts|);
    hide UsedSyms;
    forall i | 0 <= i < |s|
      ensures s[i].sym < |counts| && s[i].key == counts[s[i].sym] > 0
    {
      MultisetIndex(s, u, i);
    }
  }

  lemma SortedTotal(s: seq<SymFreq>, counts: seq<nat>)
    requires multiset(s) == multiset(UsedSyms(counts, |counts|))
    ensures Sum(Keys(s), 0, |s|) == CountSum(counts, |counts|)
  {
    UsedSymsSum(counts, |counts|);
    SumPermutation(s, UsedSyms(counts, |counts|), KeyOf);
    KeySumIsSum(s);
  }

  lemma SortedInput(s: seq<SymFreq>, counts: seq<nat>)
    requires multiset(s) == multiset(UsedSyms(counts, |counts|)) && RadixSort.SortedKeys(s)
    requires CountSum(counts, |counts|) < 65536 && |s| >= 2
    ensures Input(Keys(s))
  {
    hide Sum, UsedSyms, CountSum;
    SortedMembers(s, counts);
    SortedTotal(s, counts);
  }

  lemma SortedIsSortedSyms(s: seq<SymFreq>, counts: seq<nat>)
    requires multiset(s) == multiset(UsedSyms(counts, |counts|))
    ensures SortedSyms(s, counts)
  {
    hide UsedSyms;
    UsedDistinct(counts);
    DistinctPermutation(s, UsedSyms(counts, |counts|));
    SortedMembers(s, counts);
    forall k | 0 <= k < |counts| && counts[k] > 0
      ensures exists i :: 0 <= i < |s| && s[i].sym == k
    {
      var i := SortedFind(s, counts, k);
    }
  }

  lemma UsedDistinct(counts: seq<nat>)
    ensures DistinctSyms(UsedSyms(counts, |counts|))
  {
    UsedSymsMembers(counts, |counts|);
    hide UsedSyms;
  }

  lemma SortedFind(s: seq<SymFreq>, counts: seq<nat>, k: nat) returns (i: nat)
    requires multiset(s) == multiset(UsedSyms(counts, |counts|)) && k < |counts| && counts[k] > 0
    ensures i < |s| && s[i].sym == k
  {
    hide UsedSyms;
    var u := UsedSyms(counts, |counts|);
    var m := UsedSymsFind(counts, |counts|, k);
    MultisetIndex(u, s, m);
    i :| 0 <= i < |s| && s[i] == u[m];
  }

  lemma {:induction false} UsedSymsGrow(counts: seq<nat>, i: nat, n: nat)
    requires i < n <= |counts|
    ensures |UsedSyms(counts, i)| + (if counts[i] > 0 then 1 else 0) <= |UsedSyms(counts, n)|
  {
    if i < n - 1 {
      UsedSymsGrow(counts, i, n - 1);
    }
  }

  lemma {:induction false} CountMember(counts: seq<nat>, n: nat, i: nat)
    requires i < n <= |counts|
    ensures counts[i] <= CountSum(counts, n)
  {
    if i < n - 1 {
      CountMember(counts, n - 1, i);
    }
  }

  // ----- what a table costs -----

  /** The bits that the first n symbols take: every one as often as it occurs. */
  function TableCost(counts: seq<nat>, sizes: seq<nat>, n: nat): nat
    requires n <= |counts| && n <= |sizes|
  {
    if n == 0 then 0 else TableCost(counts, sizes, n - 1) + counts[n - 1] * sizes[n - 1]
  }

  lemma {:induction false} TableCostUpdate(counts: seq<nat>, sizes: seq<nat>, p: nat, v: nat, n: nat)
    requires n <= |counts| && n <= |sizes| && p < |sizes| && p < |counts| && sizes[p] == 0
    ensures TableCost(counts, sizes[p := v], n) == TableCost(counts, sizes, n) + (if p < n then counts[p] * v else 0)
  {
    if n > 0 {
      TableCostUpdate(counts, sizes, p, v, n - 1);
    }
  }

  lemma {:induction false} TableCostNone(counts: seq<nat>, sizes: seq<nat>, n: nat)
    requires n <= |counts| && n <= |sizes| && forall k :: 0 <= k < n ==> sizes[k] == 0
    ensures TableCost(counts, sizes, n) == 0
  {
    if n > 0 {
      TableCostNone(counts, sizes, n - 1);
    }
  }

  /** The Kraft sum over the symbols that occur. */
  function UsedKraft(counts: seq<nat>, m: seq<nat>, top: nat, n: nat): nat
    requires n <= |counts| && n <= |m|
  {
    if n == 0 then 0 else UsedKraft(counts, m, top, n - 1) + (if counts[n - 1] > 0 then Share(m[n - 1], top) else 0)
  }

  /** The lengths of a prefix code for the symbols that occur. */
  ghost predicate PrefixLengths(counts: seq<nat>, m: seq<nat>, top: nat) {
    && |m| == |counts| && (forall s :: 0 <= s < |m| && counts[s] > 0 ==> m[s] <= top)
    && UsedKraft(counts, m, top, |counts|) <= Pow2(top)
  }

  function At(m: seq<nat>, s: nat): nat {
    if s < |m| then m[s] else 0
  }

  function CostAt(m: seq<nat>): SymFreq -> nat {
    (x: SymFreq) => x.key * At(m, x.sym)
  }

  function ShareAt(m: seq<nat>, top: nat): SymFreq -> nat {
    (x: SymFreq) => Share(At(m, x.sym), top)
  }

  lemma {:induction false} UsedCosts(counts: seq<nat>, m: seq<nat>, top: nat, n: nat)
    requires n <= |counts| && n <= |m|
    ensures SumOf(UsedSyms(counts, n), CostAt(m)) == TableCost(counts, m, n)
    ensures SumOf(UsedSyms(counts, n), ShareAt(m, top)) == UsedKraft(counts, m, top, n)
  {
    if n > 0 {
      UsedCosts(counts, m, top, n - 1);
      UsedSumStep(counts, n, CostAt(m));
      UsedSumStep(counts, n, ShareAt(m, top));
    }
  }

  /** The symbols of a list with the lengths that m gives them. */
  function Leaves(s: seq<SymFreq>, m: seq<nat>): (q: seq<Leaf>)
    ensures |q| == |s|
  {
    seq(|s|, i requires 0 <= i < |s| => Leaf(s[i].key, At(m, s[i].sym)))
  }

  lemma {:induction false} LeavesSums(s: seq<SymFreq>, m: seq<nat>, top: nat)
    ensures Cost(Leaves(s, m)) == SumOf(s, CostAt(m)) && SumOf(Leaves(s, m), Unit(top)) == SumOf(s, ShareAt(m, top))
  {
    if s != [] {
      var r, q := s[..|s| - 1], Leaves(s, m);
      LeavesSums(r, m, top);
      assert q[..|q| - 1] == Leaves(r, m);
      assert LeafCost(q[|q| - 1]) == CostAt(m)(s[|s| - 1]);
      assert Unit(top)(q[|q| - 1]) == ShareAt(m, top)(s[|s| - 1]);
    }
  }

  /** A prefix code for a table is one for its sorted list, and costs the same. */
  lemma LeavesCode(s: seq<SymFreq>, counts: seq<nat>, m: seq<nat>, top: nat)
    requires multiset(s) == multiset(UsedSyms(counts, |counts|)) && PrefixLengths(counts, m, top)
    ensures Code(Leaves(s, m), top) && Cost(Leaves(s, m)) == TableCost(counts, m, |counts|)
    ensures Weights(Leaves(s, m)) == Keys(s)
  {
    SortedMembers(s, counts);
    LeavesSums(s, m, top);
    UsedCosts(counts, m, top, |counts|);
    SumPermutation(s, UsedSyms(counts, |counts|), CostAt(m));
    SumPermutation(s, UsedSyms(counts, |counts|), ShareAt(m, top));
    hide SumOf, UsedSyms, TableCost, UsedKraft;
    assert forall i :: 0 <= i < |s| ==> Leaves(s, m)[i].len == m[s[i].sym];
  }

  /** Within one and a half bits a symbol of every prefix code for these counts. */
  ghost predicate NearOptimal(counts: seq<nat>, sizes: seq<nat>) {
    && |sizes| == |counts|
    && forall m, top :: PrefixLengths(counts, m, top) ==>
         2 * TableCost(counts, sizes, |counts|) <= 2 * TableCost(counts, m, |counts|) + 3 * CountSum(counts, |counts|)
  }
}
