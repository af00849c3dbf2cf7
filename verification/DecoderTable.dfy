/** tinfl's two-level decoding tables: 1024 direct entries and an overflow tree of negative links.

    The ghost map `nodes` names the tree nodes by the bit strings that lead to them. */
module DecoderTable {
  import opened Bits
  import opened Canonical
  import opened Decoding
  import EncoderTable

  const FAST_SIZE := 1024

  /** The negative number by which tables refer to tree node m. */
  function Link(m: nat): int { -(2 * m + 1) }

  /** The tree slot of a node's child. */
  function Slot(m: nat, bit: bool): nat { 2 * m + (if bit then 1 else 0) }

  /** A node's bit string without and with only its last bit. */
  function Parent(q: seq<bool>): (p: seq<bool>)
    requires q != []
    ensures |p| == |q| - 1
  {
    q[..|q| - 1]
  }

  function LastBit(q: seq<bool>): bool
    requires q != []
  {
    q[|q| - 1]
  }

  /** The bit string p + [c] is a node, or the code of one of the first k symbols. */
  ghost predicate Extends(z: seq<nat>, k: nat, nodes: map<seq<bool>, nat>, p: seq<bool>, c: bool) {
    p + [c] in nodes || exists s: nat :: s < k && Long(z, s) && CodeWord(z, s) == p + [c]
  }

  /** Some short code among the first k symbols starts the 10-bit index i, or a node has it. */
  ghost predicate Taken(z: seq<nat>, k: nat, nodes: map<seq<bool>, nat>, i: nat) {
    ToBits(i, FAST_BITS) in nodes || exists s: nat :: s < k && Short(z, s) && CodeWord(z, s) <= ToBits(i, FAST_BITS)
  }

  // ----- the table invariant -----

  ghost predicate Nodes(z: seq<nat>, nodes: map<seq<bool>, nat>) {
    && (forall p :: p in nodes ==> FAST_BITS <= |p| < MAX_CODE_SIZE && nodes[p] < |nodes| && Inner(z, p))
    && (forall p, q :: p in nodes && q in nodes && nodes[p] == nodes[q] ==> p == q)
    && (forall q {:trigger Parent(q)} :: q in nodes && |q| > FAST_BITS ==> Parent(q) in nodes)
  }

  ghost predicate Links(nodes: map<seq<bool>, nat>, lookUp: seq<int>, tree: seq<int>) {
    && |lookUp| == FAST_SIZE && 2 * |nodes| <= |tree|
    && (forall q :: q in nodes && |q| == FAST_BITS ==>
          FromBits(q) < FAST_SIZE && lookUp[FromBits(q)] == Link(nodes[q]))
    && (forall q {:trigger Parent(q)} :: q in nodes && |q| > FAST_BITS ==>
          Parent(q) in nodes
          && Slot(nodes[Parent(q)], LastBit(q)) < |tree|
          && tree[Slot(nodes[Parent(q)], LastBit(q))] == Link(nodes[q]))
    && (forall i :: 2 * |nodes| <= i < |tree| ==> tree[i] == 0)
  }

  /** Symbol s is where its code leads. */
  ghost predicate ShortPlaced(z: seq<nat>, s: nat, lookUp: seq<int>) {
    && |lookUp| == FAST_SIZE && Short(z, s)
    && forall i :: 0 <= i < FAST_SIZE && CodeWord(z, s) <= ToBits(i, FAST_BITS) ==> lookUp[i] == 512 * z[s] + s
  }

  ghost predicate LongPlaced(z: seq<nat>, s: nat, nodes: map<seq<bool>, nat>, tree: seq<int>) {
    && Long(z, s)
    && (forall j :: FAST_BITS <= j < z[s] ==> CodeWord(z, s)[..j] in nodes)
    && var w := CodeWord(z, s);
       Parent(w) in nodes && Slot(nodes[Parent(w)], LastBit(w)) < |tree|
       && tree[Slot(nodes[Parent(w)], LastBit(w))] == s
  }

  ghost predicate Placed(z: seq<nat>, k: nat, nodes: map<seq<bool>, nat>, lookUp: seq<int>, tree: seq<int>) {
    && (forall s :: 0 <= s < k && Short(z, s) ==> ShortPlaced(z, s, lookUp))
    && (forall s :: 0 <= s < k && Long(z, s) ==> LongPlaced(z, s, nodes, tree))
  }

  /** Nothing else is in the table. */
  ghost predicate OnlyPlaced(z: seq<nat>, k: nat, nodes: map<seq<bool>, nat>, lookUp: seq<int>, tree: seq<int>) {
    && |lookUp| == FAST_SIZE && 2 * |nodes| <= |tree|
    && (forall i :: 0 <= i < FAST_SIZE && lookUp[i] != 0 ==> Taken(z, k, nodes, i))
    && (forall p, c :: p in nodes && nodes[p] < |nodes| && tree[Slot(nodes[p], c)] != 0 ==> Extends(z, k, nodes, p, c))
  }

  /** The table after the first k symbols. */
  ghost predicate Built(z: seq<nat>, k: nat, nodes: map<seq<bool>, nat>, lookUp: seq<int>, tree: seq<int>) {
    && k <= |z| && Fits(z)
    && Nodes(z, nodes) && Links(nodes, lookUp, tree)
    && Placed(z, k, nodes, lookUp, tree) && OnlyPlaced(z, k, nodes, lookUp, tree)
  }

  // ----- the size of the tree -----

  /** Strings of one length with values in a range: no more than the range. */
  lemma {:induction false} BoundByRange(strings: set<seq<bool>>, d: nat, lo: nat, hi: nat)
    requires lo <= hi
    requires forall p :: p in strings ==> |p| == d && lo <= MsbValue(p) < hi
    ensures |strings| <= hi - lo
    decreases hi - lo
  {
    if strings != {} {
      var p :| p in strings;
      var top := MsbBits(hi - 1, d);
      var rest := strings - {top};
      forall q | q in rest
        ensures MsbValue(q) < hi - 1
      {
        MsbValueBound(q);
      }
      BoundByRange(rest, d, lo, hi - 1);
    }
  }

  /** How many inner nodes a code has at depth d: strings that are left over there. */
  function InnerAt(z: seq<nat>, d: nat): int {
    Pow2(d) - First(z, d) - Count(z, d)
  }

  lemma PrefixValue(z: seq<nat>, p: seq<bool>, s: nat)
    requires Fits(z) && p != [] && Long(z, s) && |p| < z[s] && p <= CodeWord(z, s)
    ensures First(z, |p|) + Count(z, |p|) <= MsbValue(p) < Pow2(|p|)
  {
    hide First, Count, MsbValue, Code;
    MsbValueBound(p);
    CodeRange(z, s);
    assert CodeWord(z, s)[..|p|] == p;
    if MsbValue(p) < First(z, |p|) + Count(z, |p|) {
      ExtensionBelow(z, CodeWord(z, s), |p|);
    }
  }

  lemma InnerValue(z: seq<nat>, p: seq<bool>)
    requires Fits(z) && p != [] && Inner(z, p)
    ensures First(z, |p|) + Count(z, |p|) <= MsbValue(p) < Pow2(|p|)
  {
    var s: nat :| Long(z, s) && |p| < z[s] && p <= CodeWord(z, s);
    PrefixValue(z, p, s);
  }

  ghost function AtDepth(nodes: map<seq<bool>, nat>, d: nat): set<seq<bool>> {
    set p | p in nodes && |p| == d
  }

  lemma DepthSize(z: seq<nat>, nodes: map<seq<bool>, nat>, d: nat)
    requires Fits(z) && Nodes(z, nodes) && FAST_BITS <= d < MAX_CODE_SIZE
    ensures |AtDepth(nodes, d)| <= InnerAt(z, d)
  {
    forall p | p in AtDepth(nodes, d)
      ensures First(z, d) + Count(z, d) <= MsbValue(p) < Pow2(d)
    {
      InnerValue(z, p);
    }
    BoundByRange(AtDepth(nodes, d), d, First(z, d) + Count(z, d), Pow2(d));
  }

  ghost function Below(nodes: map<seq<bool>, nat>, d: nat): set<seq<bool>> {
    set p | p in nodes && |p| < d
  }

  /** Room for inner nodes at depths 10..d-1. */
  function InnerBelow(z: seq<nat>, d: nat): int {
    if d <= FAST_BITS then 0 else InnerBelow(z, d - 1) + InnerAt(z, d - 1)
  }

  lemma BelowStep(nodes: map<seq<bool>, nat>, d: nat)
    ensures |Below(nodes, d + 1)| <= |Below(nodes, d)| + |AtDepth(nodes, d)|
  {
    var a, b := Below(nodes, d), AtDepth(nodes, d);
    assert Below(nodes, d + 1) == a + b;
  }

  lemma BelowNone(z: seq<nat>, nodes: map<seq<bool>, nat>)
    requires Nodes(z, nodes)
    ensures Below(nodes, FAST_BITS) == {}
  {
  }

  lemma {:induction false} BelowSize(z: seq<nat>, nodes: map<seq<bool>, nat>, d: nat)
    requires Fits(z) && Nodes(z, nodes) && FAST_BITS <= d <= MAX_CODE_SIZE
    ensures |Below(nodes, d)| <= InnerBelow(z, d)
  {
    hide Fits, Nodes, InnerAt, Below, AtDepth;
    if d == FAST_BITS {
      BelowNone(z, nodes);
    } else {
      BelowSize(z, nodes, d - 1);
      DepthSize(z, nodes, d - 1);
      BelowStep(nodes, d - 1);
    }
  }

  function LongCount(z: seq<nat>, d: nat): nat {
    if d <= FAST_BITS then 0 else LongCount(z, d - 1) + Count(z, d)
  }

  /** Each inner node has two children, so the room telescopes. */
  lemma {:induction false} InnerTelescopes(z: seq<nat>, d: nat)
    requires d >= FAST_BITS
    ensures InnerBelow(z, d) + InnerAt(z, FAST_BITS) - InnerAt(z, d) == LongCount(z, d)
  {
    if d > FAST_BITS {
      InnerTelescopes(z, d - 1);
      assert InnerAt(z, d) == 2 * InnerAt(z, d - 1) - Count(z, d);
    }
  }

  function CountUpTo(z: seq<nat>, n: nat, d: nat): nat
    requires n <= |z|
  {
    if n == 0 then 0 else CountUpTo(z, n - 1, d) + (if FAST_BITS < z[n - 1] <= d then 1 else 0)
  }

  lemma {:induction false} CountUpToStep(z: seq<nat>, n: nat, d: nat)
    requires n <= |z| && d > FAST_BITS
    ensures CountUpTo(z, n, d) == CountUpTo(z, n, d - 1) + CountTo(z, n, d)
    ensures CountUpTo(z, n, FAST_BITS) == 0 && CountUpTo(z, n, d) <= n
  {
    if n > 0 {
      CountUpToStep(z, n - 1, d);
    }
  }

  lemma {:induction false} LongCountBound(z: seq<nat>, d: nat)
    requires d > FAST_BITS
    ensures LongCount(z, d) == CountUpTo(z, |z|, d) <= |z|
  {
    CountUpToStep(z, |z|, d);
    if d > FAST_BITS + 1 {
      LongCountBound(z, d - 1);
    }
  }

  /** A complete code has no more tree nodes than symbols, whatever part of it has been entered. */
  lemma TreeSize(z: seq<nat>, nodes: map<seq<bool>, nat>)
    requires Complete(z) && Nodes(z, nodes)
    ensures |nodes| <= |z|
  {
    hide Complete, Nodes, Below, InnerBelow, InnerAt, LongCount, CountUpTo, Fits;
    CompleteFits(z);
    InnerAtLeast(z, FAST_BITS);
    AllBelow(z, nodes);
    BelowSize(z, nodes, MAX_CODE_SIZE);
    InnerTelescopes(z, MAX_CODE_SIZE);
    LongCountBound(z, MAX_CODE_SIZE);
    FullDepth(z);
  }

  lemma InnerAtLeast(z: seq<nat>, d: nat)
    requires Fits(z) && 1 <= d <= MAX_CODE_SIZE
    ensures InnerAt(z, d) >= 0
  {
  }

  lemma AllBelow(z: seq<nat>, nodes: map<seq<bool>, nat>)
    requires Nodes(z, nodes)
    ensures |Below(nodes, MAX_CODE_SIZE)| == |nodes|
  {
    hide Inner, Parent;
    assert Below(nodes, MAX_CODE_SIZE) == nodes.Keys;
  }

  lemma FullDepth(z: seq<nat>)
    requires Complete(z)
    ensures InnerAt(z, MAX_CODE_SIZE) == 0
  {
    Pow2Values();
    assert First(z, MAX_CODE_SIZE + 1) == 2 * (First(z, MAX_CODE_SIZE) + Count(z, MAX_CODE_SIZE));
  }

  lemma SinglePrefix(z: seq<nat>, p: seq<bool>, q: seq<bool>)
    requires Inner(z, p) && Inner(z, q) && |p| == |q| && Used(z, |z|) <= 1
    ensures p == q
  {
    hide Code, MsbBits;
    var s: nat :| Long(z, s) && |p| < z[s] && p <= CodeWord(z, s);
    var t: nat :| Long(z, t) && |q| < z[t] && q <= CodeWord(z, t);
    if s < t {
      UsedUnique(z, |z|, s, t);
    } else if t < s {
      UsedUnique(z, |z|, t, s);
    }
    assert p == CodeWord(z, s)[..|p|];
  }

  lemma SingleDepth(z: seq<nat>, nodes: map<seq<bool>, nat>, d: nat)
    requires Nodes(z, nodes) && Used(z, |z|) <= 1
    ensures |AtDepth(nodes, d)| <= 1
  {
    hide Inner, Used;
    if p :| p in AtDepth(nodes, d) {
      forall q | q in AtDepth(nodes, d)
        ensures q == p
      {
        SinglePrefix(z, p, q);
      }
      assert AtDepth(nodes, d) == {p};
    }
  }

  lemma {:induction false} SingleBelow(z: seq<nat>, nodes: map<seq<bool>, nat>, d: nat)
    requires Nodes(z, nodes) && Used(z, |z|) <= 1 && d >= FAST_BITS
    ensures |Below(nodes, d)| <= d - FAST_BITS
  {
    hide Nodes, Below, AtDepth, Used;
    if d == FAST_BITS {
      BelowNone(z, nodes);
    } else {
      SingleBelow(z, nodes, d - 1);
      SingleDepth(z, nodes, d - 1);
      BelowStep(nodes, d - 1);
    }
  }

  /** The tree never outgrows two slots for each symbol the table can have. */
  lemma TreeFits(z: seq<nat>, nodes: map<seq<bool>, nat>, maxSymbols: nat)
    requires Acceptable(z) && Nodes(z, nodes) && |z| <= maxSymbols && maxSymbols >= MAX_CODE_SIZE
    ensures |nodes| <= maxSymbols
  {
    if Used(z, |z|) <= 1 {
      assert Below(nodes, MAX_CODE_SIZE) == nodes.Keys;
      SingleBelow(z, nodes, MAX_CODE_SIZE);
    } else {
      TreeSize(z, nodes);
    }
  }

  // ----- entering one symbol -----

  lemma {:induction false} LowUnique(i: nat, c: nat, n: nat)
    requires Low(i, n) == Low(c, n) && c <= i < c + Pow2(n)
    ensures i == c
  {
    if n > 0 {
      LowUnique(i / 2, c / 2, n - 1);
    }
  }

  lemma {:induction false} LowStep(c: nat, n: nat)
    ensures Low(c + Pow2(n), n) == Low(c, n)
  {
    if n > 0 {
      LowStep(c / 2, n - 1);
      assert (c + Pow2(n)) / 2 == c / 2 + Pow2(n - 1);
    }
  }

  lemma {:induction false} ToBitsLow(i: nat, n: nat, v: nat)
    requires v < Pow2(n)
    ensures (Low(i, n) == v) <==> (ToBits(i, n) == ToBits(v, n))
  {
    FromToBits(i, n);
    FromToBits(v, n);
    LowSmall(v, n);
    ShrLow(i, n);
    LowBits(i, n);
  }

  /** The indices that a short code owns are those with its reversed code in their low bits. */
  lemma ShortIndices(z: seq<nat>, s: nat, rev: nat, i: nat)
    requires Short(z, s) && rev < Pow2(z[s]) && ToBits(rev, z[s]) == CodeWord(z, s)
    ensures (CodeWord(z, s) <= ToBits(i, FAST_BITS)) <==> (Low(i, z[s]) == rev)
  {
    var n := z[s];
    ToBitsSplit(i, n, FAST_BITS - n);
    ToBitsLow(i, n, rev);
    assert ToBits(i, FAST_BITS)[..n] == ToBits(i, n);
  }

  /** The direct entries for a short code: every index whose low bits are the reversed code. */
  method FillShort(lookUp: array<int>, size: nat, rev0: nat, k: int)
    requires lookUp.Length == FAST_SIZE && rev0 < Pow2(size)
    modifies lookUp
    ensures forall i :: 0 <= i < FAST_SIZE ==> lookUp[i] == if Low(i, size) == rev0 then k else old(lookUp[i])
  {
    var rev := rev0;
    LowSmall(rev, size);
    forall i: nat | i < rev
      ensures Low(i, size) != rev0
    {
      LowDiffers(i, rev0, size);
    }
    hide Low, Pow2;
    while rev < FAST_SIZE
      invariant Low(rev, size) == rev0
      invariant forall i :: 0 <= i < FAST_SIZE && i < rev ==>
          lookUp[i] == if Low(i, size) == rev0 then k else old(lookUp[i])
      invariant forall i :: 0 <= i < FAST_SIZE && rev <= i ==> lookUp[i] == old(lookUp[i])
    {
      lookUp[rev] := k;
      ghost var next := rev + Pow2(size);
      LowStep(rev, size);
      forall i: nat | rev < i < next
        ensures Low(i, size) != rev0
      {
        if Low(i, size) == rev0 {
          LowUnique(i, rev, size);
        }
      }
      rev := rev + Pow2(size);
    }
  }

  lemma LowDiffers(i: nat, v: nat, n: nat)
    requires i < v < Pow2(n)
    ensures Low(i, n) != v
  {
    LowSmall(i, n);
  }

  // ----- what prefix freedom excludes -----

  /** No code word starts or is an inner node. */
  lemma InnerNoCode(z: seq<nat>, p: seq<bool>, s: nat)
    requires Fits(z) && Inner(z, p) && HasCode(z, s)
    ensures !(CodeWord(z, s) <= p)
  {
    var t: nat :| Long(z, t) && |p| < z[t] && p <= CodeWord(z, t);
    hide Code, MsbBits, Fits;
    if CodeWord(z, s) <= p {
      assert Starts(z, s, CodeWord(z, t));
      OneStarts(z, s, t, CodeWord(z, t));
    }
  }

  // ----- a short code -----

  ghost predicate FilledShort(z: seq<nat>, k: nat, lookUp: seq<int>, after: seq<int>) {
    && Short(z, k) && |lookUp| == |after| == FAST_SIZE
    && forall i :: 0 <= i < FAST_SIZE ==>
         after[i] == if CodeWord(z, k) <= ToBits(i, FAST_BITS) then 512 * z[k] + k else lookUp[i]
  }

  lemma AddShortLinks(z: seq<nat>, k: nat, nodes: map<seq<bool>, nat>, lookUp: seq<int>, tree: seq<int>,
    after: seq<int>)
    requires Fits(z) && Nodes(z, nodes) && Links(nodes, lookUp, tree) && FilledShort(z, k, lookUp, after)
    ensures Links(nodes, after, tree)
  {
    hide Fits, Inner, CodeWord;
    forall q | q in nodes && |q| == FAST_BITS
      ensures FromBits(q) < FAST_SIZE && after[FromBits(q)] == Link(nodes[q])
    {
      ToFromBits(q);
      InnerNoCode(z, q, k);
    }
  }

  lemma AddShortPlaced(z: seq<nat>, k: nat, nodes: map<seq<bool>, nat>, lookUp: seq<int>, tree: seq<int>,
    after: seq<int>)
    requires Fits(z) && Placed(z, k, nodes, lookUp, tree) && FilledShort(z, k, lookUp, after)
    ensures Placed(z, k + 1, nodes, after, tree)
  {
    hide Fits, CodeWord, LongPlaced;
    forall s: nat | s < k + 1 && Short(z, s)
      ensures ShortPlaced(z, s, after)
    {
      if s < k {
        assert ShortPlaced(z, s, lookUp);
        forall i | 0 <= i < FAST_SIZE && CodeWord(z, s) <= ToBits(i, FAST_BITS)
          ensures after[i] == 512 * z[s] + s
        {
          if CodeWord(z, k) <= ToBits(i, FAST_BITS) {
            OneStarts(z, s, k, ToBits(i, FAST_BITS));
          }
        }
      }
    }
  }

  lemma AddShortOnly(z: seq<nat>, k: nat, nodes: map<seq<bool>, nat>, lookUp: seq<int>, tree: seq<int>, after: seq<int>)
    requires OnlyPlaced(z, k, nodes, lookUp, tree) && FilledShort(z, k, lookUp, after)
    ensures OnlyPlaced(z, k + 1, nodes, after, tree)
  {
    hide CodeWord;
    forall p, c | p in nodes && nodes[p] < |nodes| && tree[Slot(nodes[p], c)] != 0
      ensures Extends(z, k + 1, nodes, p, c)
    {
      assert Extends(z, k, nodes, p, c);
    }
    forall i | 0 <= i < FAST_SIZE && after[i] != 0
      ensures Taken(z, k + 1, nodes, i)
    {
      if !(CodeWord(z, k) <= ToBits(i, FAST_BITS)) {
        assert Taken(z, k, nodes, i);
      }
    }
  }

  lemma AddShort(z: seq<nat>, k: nat, nodes: map<seq<bool>, nat>, lookUp: seq<int>, tree: seq<int>, after: seq<int>)
    requires Built(z, k, nodes, lookUp, tree) && FilledShort(z, k, lookUp, after)
    ensures Built(z, k + 1, nodes, after, tree)
  {
    hide Nodes, Links, Placed, OnlyPlaced, Fits, CodeWord;
    AddShortLinks(z, k, nodes, lookUp, tree, after);
    AddShortPlaced(z, k, nodes, lookUp, tree, after);
    AddShortOnly(z, k, nodes, lookUp, tree, after);
  }

  lemma Skip(z: seq<nat>, k: nat, nodes: map<seq<bool>, nat>, lookUp: seq<int>, tree: seq<int>)
    requires Built(z, k, nodes, lookUp, tree) && k < |z| && z[k] == 0
    ensures Built(z, k + 1, nodes, lookUp, tree)
  {
    hide CodeWord, Fits, Nodes, Links, ShortPlaced, LongPlaced;
    forall p, c | p in nodes && nodes[p] < |nodes| && tree[Slot(nodes[p], c)] != 0
      ensures Extends(z, k + 1, nodes, p, c)
    {
      assert Extends(z, k, nodes, p, c);
    }
    forall i | 0 <= i < FAST_SIZE && lookUp[i] != 0
      ensures Taken(z, k + 1, nodes, i)
    {
      assert Taken(z, k, nodes, i);
    }
  }

  // ----- a new node -----

  lemma AddNodeNodes(z: seq<nat>, nodes: map<seq<bool>, nat>, q: seq<bool>)
    requires Nodes(z, nodes) && q !in nodes && Inner(z, q) && FAST_BITS <= |q| < MAX_CODE_SIZE
    requires |q| > FAST_BITS ==> Parent(q) in nodes
    ensures Nodes(z, nodes[q := |nodes|]) && |nodes[q := |nodes|]| == |nodes| + 1
  {
    hide Inner;
    var after := nodes[q := |nodes|];
    assert after.Keys == nodes.Keys + {q};
    assert |after| == |after.Keys| && |nodes| == |nodes.Keys|;
  }

  lemma AddRootLinks(z: seq<nat>, nodes: map<seq<bool>, nat>, lookUp: seq<int>, tree: seq<int>, b: seq<bool>)
    requires Nodes(z, nodes) && Links(nodes, lookUp, tree) && b !in nodes && |b| == FAST_BITS
    requires 2 * (|nodes| + 1) <= |tree| && FromBits(b) < FAST_SIZE
    requires |nodes[b := |nodes|]| == |nodes| + 1
    ensures Links(nodes[b := |nodes|], lookUp[FromBits(b) := Link(|nodes|)], tree)
  {
    hide Inner, Nodes, FromBits, Pow2, Slot, LastBit, Link;
    var after := nodes[b := |nodes|];
    forall q | q in after && |q| == FAST_BITS
      ensures FromBits(q) < FAST_SIZE && lookUp[FromBits(b) := Link(|nodes|)][FromBits(q)] == Link(after[q])
    {
      ToFromBits(q);
      ToFromBits(b);
    }
  }

  /** What is placed stays placed when nodes are only added and its own entries are left alone. */
  lemma PlacedKept(z: seq<nat>, k: nat, nodes: map<seq<bool>, nat>, lookUp: seq<int>, tree: seq<int>,
                   nodes': map<seq<bool>, nat>, lookUp': seq<int>, tree': seq<int>)
    requires Placed(z, k, nodes, lookUp, tree) && |lookUp'| == |lookUp| && |tree'| == |tree|
    requires forall p :: p in nodes ==> p in nodes' && nodes'[p] == nodes[p]
    requires forall i :: 0 <= i < |lookUp| && lookUp[i] > 0 ==> lookUp'[i] == lookUp[i]
    requires forall s: nat :: s < k && Long(z, s) && Parent(CodeWord(z, s)) in nodes ==>
               var i := Slot(nodes[Parent(CodeWord(z, s))], LastBit(CodeWord(z, s))); i < |tree| ==> tree'[i] == tree[i]
    ensures Placed(z, k, nodes', lookUp', tree')
  {
    hide CodeWord;
    forall s: nat | s < k && Short(z, s)
      ensures ShortPlaced(z, s, lookUp')
    {
      assert ShortPlaced(z, s, lookUp);
    }
    forall s: nat | s < k && Long(z, s)
      ensures LongPlaced(z, s, nodes', tree')
    {
      assert LongPlaced(z, s, nodes, tree);
    }
  }

  lemma TakenKept(z: seq<nat>, k: nat, nodes: map<seq<bool>, nat>, nodes': map<seq<bool>, nat>, i: nat)
    requires Taken(z, k, nodes, i) && forall p :: p in nodes ==> p in nodes'
    ensures Taken(z, k, nodes', i)
  {
    hide CodeWord;
  }

  lemma ExtendsKept(z: seq<nat>, k: nat, nodes: map<seq<bool>, nat>, nodes': map<seq<bool>, nat>, p: seq<bool>, c: bool)
    requires Extends(z, k, nodes, p, c) && forall p :: p in nodes ==> p in nodes'
    ensures Extends(z, k, nodes', p, c)
  {
    hide CodeWord;
  }

  lemma AddRootOnly(z: seq<nat>, k: nat, nodes: map<seq<bool>, nat>, lookUp: seq<int>, tree: seq<int>, b: seq<bool>)
    requires OnlyPlaced(z, k, nodes, lookUp, tree) && Links(nodes, lookUp, tree) && b !in nodes && |b| == FAST_BITS
    requires FromBits(b) < FAST_SIZE && ToBits(FromBits(b), FAST_BITS) == b && 2 * (|nodes| + 1) <= |tree|
    requires |nodes[b := |nodes|]| == |nodes| + 1 && forall p :: p in nodes ==> nodes[p] < |nodes|
    ensures OnlyPlaced(z, k, nodes[b := |nodes|], lookUp[FromBits(b) := Link(|nodes|)], tree)
  {
    hide CodeWord, Taken, Extends, FromBits, ToBits;
    var after, look := nodes[b := |nodes|], lookUp[FromBits(b) := Link(|nodes|)];
    forall i | 0 <= i < FAST_SIZE && look[i] != 0
      ensures Taken(z, k, after, i)
    {
      if i == FromBits(b) {
        TakenByNode(z, k, after, i);
      } else {
        TakenKept(z, k, nodes, after, i);
      }
    }
    forall p, c | p in after && after[p] < |after| && tree[Slot(after[p], c)] != 0
      ensures Extends(z, k, after, p, c)
    {
      ExtendsKept(z, k, nodes, after, p, c);
    }
  }

  lemma TakenByNode(z: seq<nat>, k: nat, nodes: map<seq<bool>, nat>, i: nat)
    requires ToBits(i, FAST_BITS) in nodes
    ensures Taken(z, k, nodes, i)
  {
  }

  /** `pLookUp[...] = tree_next`: a first long code with these ten bits opens a tree. */
  lemma AddRoot(z: seq<nat>, k: nat, nodes: map<seq<bool>, nat>, lookUp: seq<int>, tree: seq<int>, b: seq<bool>)
    requires Built(z, k, nodes, lookUp, tree) && |b| == FAST_BITS && Inner(z, b)
    requires FromBits(b) < FAST_SIZE && lookUp[FromBits(b)] == 0 && 2 * (|nodes| + 1) <= |tree|
    ensures b !in nodes
    ensures Built(z, k, nodes[b := |nodes|], lookUp[FromBits(b) := Link(|nodes|)], tree)
  {
    hide CodeWord, Fits, Inner, OnlyPlaced, Placed, FromBits, ToBits, Pow2;
    ToFromBits(b);
    AddNodeNodes(z, nodes, b);
    AddRootLinks(z, nodes, lookUp, tree, b);
    AddRootOnly(z, k, nodes, lookUp, tree, b);
    PlacedKept(z, k, nodes, lookUp, tree, nodes[b := |nodes|], lookUp[FromBits(b) := Link(|nodes|)], tree);
  }

  lemma SlotUnique(m: nat, c: bool, n: nat, d: bool)
    requires Slot(m, c) == Slot(n, d)
    ensures m == n && c == d
  {
  }

  /** Distinct strings have distinct slots. */
  lemma SameSlot(z: seq<nat>, nodes: map<seq<bool>, nat>, v: seq<bool>, w: seq<bool>)
    requires Nodes(z, nodes) && v != [] && w != [] && Parent(v) in nodes && Parent(w) in nodes
    requires Slot(nodes[Parent(v)], LastBit(v)) == Slot(nodes[Parent(w)], LastBit(w))
    ensures v == w
  {
    hide Inner;
    SlotUnique(nodes[Parent(v)], LastBit(v), nodes[Parent(w)], LastBit(w));
    assert v == Parent(v) + [LastBit(v)] && w == Parent(w) + [LastBit(w)];
  }

  lemma AddChildLinks(z: seq<nat>, nodes: map<seq<bool>, nat>, lookUp: seq<int>, tree: seq<int>, q: seq<bool>)
    requires Nodes(z, nodes) && Links(nodes, lookUp, tree) && q !in nodes && |q| > FAST_BITS && Parent(q) in nodes
    requires 2 * (|nodes| + 1) <= |tree| && |nodes[q := |nodes|]| == |nodes| + 1
    ensures Links(nodes[q := |nodes|], lookUp, tree[Slot(nodes[Parent(q)], LastBit(q)) := Link(|nodes|)])
  {
    hide Inner, FromBits;
    var after := nodes[q := |nodes|];
    var slot := Slot(nodes[Parent(q)], LastBit(q));
    var tree' := tree[slot := Link(|nodes|)];
    forall r {:trigger Parent(r)} | r in after && |r| > FAST_BITS
      ensures Parent(r) in after && Slot(after[Parent(r)], LastBit(r)) < |tree|
      ensures tree'[Slot(after[Parent(r)], LastBit(r))] == Link(after[r])
    {
      if r != q {
        assert r in nodes && Parent(r) in nodes;
        assert Parent(r) != q;
        if Slot(nodes[Parent(r)], LastBit(r)) == slot {
          SameSlot(z, nodes, r, q);
        }
      }
    }
  }

  lemma OtherChild(z: seq<nat>, nodes: map<seq<bool>, nat>, p: seq<bool>, c: bool, q: seq<bool>)
    requires Nodes(z, nodes) && p in nodes && q != [] && Parent(q) in nodes
    requires p != Parent(q) || c != LastBit(q)
    ensures Slot(nodes[p], c) != Slot(nodes[Parent(q)], LastBit(q))
  {
    hide Inner;
  }

  lemma AddChildOnly(z: seq<nat>, k: nat, nodes: map<seq<bool>, nat>, lookUp: seq<int>, tree: seq<int>, q: seq<bool>)
    requires Nodes(z, nodes) && OnlyPlaced(z, k, nodes, lookUp, tree) && Links(nodes, lookUp, tree)
    requires q !in nodes && |q| > FAST_BITS && Parent(q) in nodes
    requires 2 * (|nodes| + 1) <= |tree| && |nodes[q := |nodes|]| == |nodes| + 1
    ensures OnlyPlaced(z, k, nodes[q := |nodes|], lookUp, tree[Slot(nodes[Parent(q)], LastBit(q)) := Link(|nodes|)])
  {
    hide CodeWord, Taken, Extends, FromBits, ToBits, Inner;
    var after := nodes[q := |nodes|];
    var slot := Slot(nodes[Parent(q)], LastBit(q));
    var tree' := tree[slot := Link(|nodes|)];
    assert forall c :: tree[Slot(|nodes|, c)] == 0;
    forall i | 0 <= i < FAST_SIZE && lookUp[i] != 0
      ensures Taken(z, k, after, i)
    {
      TakenKept(z, k, nodes, after, i);
    }
    forall p, c | p in after && after[p] < |after| && tree'[Slot(after[p], c)] != 0
      ensures Extends(z, k, after, p, c)
    {
      if p == Parent(q) && c == LastBit(q) {
        assert p + [c] == q;
        ExtendsByNode(z, k, after, p, c);
      } else if p != q {
        OtherChild(z, nodes, p, c, q);
        ExtendsKept(z, k, nodes, after, p, c);
      }
    }
  }

  lemma ExtendsByNode(z: seq<nat>, k: nat, nodes: map<seq<bool>, nat>, p: seq<bool>, c: bool)
    requires p + [c] in nodes
    ensures Extends(z, k, nodes, p, c)
  {
  }

  /** A slot that leads to an inner node or to another symbol's code is not the slot of symbol s. */
  lemma OtherSlot(z: seq<nat>, nodes: map<seq<bool>, nat>, s: nat, q: seq<bool>)
    requires Fits(z) && Nodes(z, nodes) && Long(z, s) && q != [] && Parent(q) in nodes
      && Parent(CodeWord(z, s)) in nodes
    requires CodeWord(z, s) != q
    ensures Slot(nodes[Parent(CodeWord(z, s))], LastBit(CodeWord(z, s))) != Slot(nodes[Parent(q)], LastBit(q))
  {
    hide Fits, Inner, Code, MsbBits;
    if Slot(nodes[Parent(CodeWord(z, s))], LastBit(CodeWord(z, s))) == Slot(nodes[Parent(q)], LastBit(q)) {
      SameSlot(z, nodes, CodeWord(z, s), q);
    }
  }

  lemma InnerNotCode(z: seq<nat>, q: seq<bool>, s: nat)
    requires Fits(z) && Inner(z, q) && Long(z, s)
    ensures CodeWord(z, s) != q
  {
    InnerNoCode(z, q, s);
  }

  /** `pTree[...] = tree_next`: a first code this way opens a child node. */
  lemma AddChild(z: seq<nat>, k: nat, nodes: map<seq<bool>, nat>, lookUp: seq<int>, tree: seq<int>, q: seq<bool>)
    requires Built(z, k, nodes, lookUp, tree) && FAST_BITS < |q| < MAX_CODE_SIZE && Inner(z, q) && Parent(q) in nodes
    requires 2 * (|nodes| + 1) <= |tree|
    requires Slot(nodes[Parent(q)], LastBit(q)) < |tree| && tree[Slot(nodes[Parent(q)], LastBit(q))] == 0
    ensures q !in nodes
    ensures Built(z, k, nodes[q := |nodes|], lookUp, tree[Slot(nodes[Parent(q)], LastBit(q)) := Link(|nodes|)])
  {
    hide CodeWord, Fits, Inner, OnlyPlaced, Placed, FromBits, ToBits;
    AddNodeNodes(z, nodes, q);
    AddChildLinks(z, nodes, lookUp, tree, q);
    AddChildOnly(z, k, nodes, lookUp, tree, q);
    forall s: nat | s < k && Long(z, s) && Parent(CodeWord(z, s)) in nodes
      ensures Slot(nodes[Parent(CodeWord(z, s))], LastBit(CodeWord(z, s))) != Slot(nodes[Parent(q)], LastBit(q))
    {
      InnerNotCode(z, q, s);
      OtherSlot(z, nodes, s, q);
    }
    PlacedKept(z, k, nodes, lookUp, tree, nodes[q := |nodes|], lookUp,
               tree[Slot(nodes[Parent(q)], LastBit(q)) := Link(|nodes|)]);
  }

  // ----- the leaf of a long code -----

  lemma SetLeafLinks(z: seq<nat>, k: nat, nodes: map<seq<bool>, nat>, lookUp: seq<int>, tree: seq<int>)
    requires Fits(z) && Nodes(z, nodes) && Links(nodes, lookUp, tree) && Long(z, k) && Parent(CodeWord(z, k)) in nodes
    ensures Slot(nodes[Parent(CodeWord(z, k))], LastBit(CodeWord(z, k))) < |tree|
    ensures Links(nodes, lookUp, tree[Slot(nodes[Parent(CodeWord(z, k))], LastBit(CodeWord(z, k))) := k])
  {
    hide Inner, FromBits, Fits, Code, MsbBits;
    var w := CodeWord(z, k);
    var tree' := tree[Slot(nodes[Parent(w)], LastBit(w)) := k];
    forall r {:trigger Parent(r)} | r in nodes && |r| > FAST_BITS
      ensures Parent(r) in nodes && Slot(nodes[Parent(r)], LastBit(r)) < |tree|
      ensures tree'[Slot(nodes[Parent(r)], LastBit(r))] == Link(nodes[r])
    {
      InnerNotCode(z, r, k);
      OtherSlot(z, nodes, k, r);
    }
  }

  lemma SetLeafOnly(z: seq<nat>, k: nat, nodes: map<seq<bool>, nat>, lookUp: seq<int>, tree: seq<int>)
    requires Fits(z) && Nodes(z, nodes) && OnlyPlaced(z, k, nodes, lookUp, tree) && Long(z, k)
    requires Parent(CodeWord(z, k)) in nodes && Slot(nodes[Parent(CodeWord(z, k))], LastBit(CodeWord(z, k))) < |tree|
    ensures OnlyPlaced(z, k + 1, nodes, lookUp, tree[Slot(nodes[Parent(CodeWord(z, k))], LastBit(CodeWord(z, k))) := k])
  {
    hide FromBits, ToBits, Inner, Fits, Code, MsbBits;
    var w := CodeWord(z, k);
    var tree' := tree[Slot(nodes[Parent(w)], LastBit(w)) := k];
    forall i | 0 <= i < FAST_SIZE && lookUp[i] != 0
      ensures Taken(z, k + 1, nodes, i)
    {
      assert Taken(z, k, nodes, i);
    }
    forall p, c | p in nodes && nodes[p] < |nodes| && tree'[Slot(nodes[p], c)] != 0
      ensures Extends(z, k + 1, nodes, p, c)
    {
      if p == Parent(w) && c == LastBit(w) {
        assert p + [c] == w;
      } else {
        OtherChild(z, nodes, p, c, w);
        assert Extends(z, k, nodes, p, c);
      }
    }
  }

  lemma SetLeafPlaced(z: seq<nat>, k: nat, nodes: map<seq<bool>, nat>, lookUp: seq<int>, tree: seq<int>)
    requires Fits(z) && Nodes(z, nodes) && Placed(z, k, nodes, lookUp, tree) && Long(z, k)
    requires forall j :: FAST_BITS <= j < z[k] ==> CodeWord(z, k)[..j] in nodes
    requires Parent(CodeWord(z, k)) in nodes && Slot(nodes[Parent(CodeWord(z, k))], LastBit(CodeWord(z, k))) < |tree|
    ensures Placed(z, k + 1, nodes, lookUp, tree[Slot(nodes[Parent(CodeWord(z, k))], LastBit(CodeWord(z, k))) := k])
  {
    var w := CodeWord(z, k);
    var tree' := tree[Slot(nodes[Parent(w)], LastBit(w)) := k];
    hide Inner, Fits, Nodes, Placed, CodeWord;
    forall s: nat | s < k && Long(z, s) && Parent(CodeWord(z, s)) in nodes
      ensures Slot(nodes[Parent(CodeWord(z, s))], LastBit(CodeWord(z, s))) != Slot(nodes[Parent(w)], LastBit(w))
    {
      if CodeWord(z, s) == w {
        PrefixFree(z, s, k);
      }
      OtherSlot(z, nodes, s, w);
    }
    PlacedKept(z, k, nodes, lookUp, tree, nodes, lookUp, tree');
    PlacedNext(z, k, nodes, lookUp, tree');
  }

  lemma PlacedNext(z: seq<nat>, k: nat, nodes: map<seq<bool>, nat>, lookUp: seq<int>, tree: seq<int>)
    requires Placed(z, k, nodes, lookUp, tree) && LongPlaced(z, k, nodes, tree)
    ensures Placed(z, k + 1, nodes, lookUp, tree)
  {
    hide ShortPlaced;
  }

  /** `pTree[...] = sym_index`: the last bit of the code leads to the symbol. */
  lemma SetLeaf(z: seq<nat>, k: nat, nodes: map<seq<bool>, nat>, lookUp: seq<int>, tree: seq<int>)
    requires Built(z, k, nodes, lookUp, tree) && Long(z, k)
    requires forall j :: FAST_BITS <= j < z[k] ==> CodeWord(z, k)[..j] in nodes
    ensures Parent(CodeWord(z, k)) in nodes && Slot(nodes[Parent(CodeWord(z, k))], LastBit(CodeWord(z, k))) < |tree|
    ensures Built(z, k + 1, nodes, lookUp, tree[Slot(nodes[Parent(CodeWord(z, k))], LastBit(CodeWord(z, k))) := k])
  {
    hide Inner, Fits, Nodes, Placed, OnlyPlaced, Links, Code, MsbBits;
    assert Parent(CodeWord(z, k)) == CodeWord(z, k)[..z[k] - 1];
    SetLeafLinks(z, k, nodes, lookUp, tree);
    SetLeafOnly(z, k, nodes, lookUp, tree);
    SetLeafPlaced(z, k, nodes, lookUp, tree);
  }

  // ----- finding the way along a long code while entering it -----

  lemma PrefixInner(z: seq<nat>, k: nat, d: nat)
    requires Long(z, k) && d < z[k]
    ensures Inner(z, CodeWord(z, k)[..d])
  {
    hide CodeWord;
    assert CodeWord(z, k)[..d] <= CodeWord(z, k);
  }

  /** A direct entry that is in use for the first ten bits of a long code is a link. */
  lemma RootLink(z: seq<nat>, k: nat, nodes: map<seq<bool>, nat>, lookUp: seq<int>, tree: seq<int>, b: seq<bool>)
    requires Built(z, k, nodes, lookUp, tree) && |b| == FAST_BITS && Inner(z, b) && FromBits(b) < FAST_SIZE
    requires lookUp[FromBits(b)] != 0
    ensures b in nodes && lookUp[FromBits(b)] == Link(nodes[b])
  {
    hide Fits, Nodes, Placed, Inner, CodeWord, FromBits, ToBits, Pow2;
    ToFromBits(b);
    assert Taken(z, k, nodes, FromBits(b));
    if b !in nodes {
      var s: nat :| s < k && Short(z, s) && CodeWord(z, s) <= b;
      InnerNoCode(z, b, s);
    }
  }

  /** A tree entry that is in use on the way to a longer code is a link. */
  lemma ChildLink(z: seq<nat>, k: nat, nodes: map<seq<bool>, nat>, lookUp: seq<int>, tree: seq<int>, q: seq<bool>)
    requires Built(z, k, nodes, lookUp, tree) && |q| > FAST_BITS && Inner(z, q) && Parent(q) in nodes
    ensures Slot(nodes[Parent(q)], LastBit(q)) < 2 * |nodes| <= |tree|
    ensures tree[Slot(nodes[Parent(q)], LastBit(q))] != 0 ==>
              q in nodes && tree[Slot(nodes[Parent(q)], LastBit(q))] == Link(nodes[q])
  {
    hide Fits, Placed, Inner, CodeWord, FromBits, ToBits, Pow2;
    if tree[Slot(nodes[Parent(q)], LastBit(q))] != 0 {
      assert Extends(z, k, nodes, Parent(q), LastBit(q));
      assert Parent(q) + [LastBit(q)] == q;
      if q !in nodes {
        var s: nat :| s < k && Long(z, s) && CodeWord(z, s) == q;
        InnerNotCode(z, q, s);
      }
    }
  }

  /** Every proper prefix of the code of at least ten bits, up to d bits, is a node. */
  ghost predicate Path(z: seq<nat>, k: nat, nodes: map<seq<bool>, nat>, d: nat) {
    Long(z, k) && FAST_BITS <= d < z[k] && forall j :: FAST_BITS <= j <= d ==> CodeWord(z, k)[..j] in nodes
  }

  lemma PathStep(z: seq<nat>, k: nat, nodes: map<seq<bool>, nat>, nodes': map<seq<bool>, nat>, d: nat)
    requires Path(z, k, nodes, d) && d + 1 < z[k] && forall p :: p in nodes ==> p in nodes'
    requires CodeWord(z, k)[..d + 1] in nodes'
    ensures Path(z, k, nodes', d + 1)
  {
    hide CodeWord;
    forall j | FAST_BITS <= j <= d + 1
      ensures CodeWord(z, k)[..j] in nodes'
    {
      if j <= d {
        assert CodeWord(z, k)[..j] in nodes;
      }
    }
  }

  lemma PathParent(z: seq<nat>, k: nat, d: nat)
    requires Long(z, k) && d + 1 <= z[k]
    ensures Parent(CodeWord(z, k)[..d + 1]) == CodeWord(z, k)[..d]
    ensures LastBit(CodeWord(z, k)[..d + 1]) == CodeWord(z, k)[d]
    ensures CodeWord(z, k)[..z[k]] == CodeWord(z, k)
  {
    hide CodeWord;
  }

  /** What the three methods below share: a code with room in the tree for its whole path. */
  ghost predicate Entering(z: seq<nat>, k: nat, rev: nat, maxSymbols: nat) {
    && Acceptable(z) && Long(z, k) && z[k] <= MAX_CODE_SIZE && |z| <= maxSymbols && maxSymbols >= MAX_CODE_SIZE
    && rev < Pow2(z[k]) && ToBits(rev, z[k]) == CodeWord(z, k)
  }

  /** There is always room for one more node. */
  lemma Room(z: seq<nat>, nodes: map<seq<bool>, nat>, q: seq<bool>, maxSymbols: nat)
    requires Nodes(z, nodes) && q !in nodes && Inner(z, q) && FAST_BITS <= |q| < MAX_CODE_SIZE
    requires |q| > FAST_BITS ==> Parent(q) in nodes
    requires Acceptable(z) && |z| <= maxSymbols && maxSymbols >= MAX_CODE_SIZE
    ensures |nodes| + 1 <= maxSymbols
    ensures |nodes[q := |nodes|]| == |nodes| + 1
    ensures Link(|nodes[q := |nodes|]|) == Link(|nodes|) - 2 && Link(|nodes|) != 0
  {
    AddNodeNodes(z, nodes, q);
    TreeFits(z, nodes[q := |nodes|], maxSymbols);
  }

  lemma RootRoom(z: seq<nat>, k: nat, nodes: map<seq<bool>, nat>, lookUp: seq<int>, tree: seq<int>, b: seq<bool>,
    maxSymbols: nat)
    requires Built(z, k, nodes, lookUp, tree) && |b| == FAST_BITS && Inner(z, b)
    requires Acceptable(z) && |z| <= maxSymbols && maxSymbols >= MAX_CODE_SIZE && |tree| == 2 * maxSymbols
    ensures FromBits(b) < FAST_SIZE == |lookUp|
    ensures lookUp[FromBits(b)] == 0 ==>
      2 * (|nodes| + 1) <= |tree| && |nodes[b := |nodes|]| == |nodes| + 1
      && Link(|nodes[b := |nodes|]|) == Link(|nodes|) - 2 && Link(|nodes|) != 0
  {
    hide Fits, Inner, Placed, OnlyPlaced, CodeWord, Acceptable, FromBits;
    ToFromBits(b);
    Pow2Values();
    if lookUp[FromBits(b)] == 0 {
      Room(z, nodes, b, maxSymbols);
    }
  }

  /** The first ten bits of a long code, and the direct entry for them. */
  lemma RootPlace(z: seq<nat>, k: nat, rev: nat, maxSymbols: nat)
    requires Entering(z, k, rev, maxSymbols)
    ensures k < |z| && |CodeWord(z, k)| == z[k] > FAST_BITS && Acceptable(z) && Long(z, k)
    ensures |z| <= maxSymbols && maxSymbols >= MAX_CODE_SIZE
    ensures Inner(z, CodeWord(z, k)[..FAST_BITS]) && Low(rev, FAST_BITS) == FromBits(CodeWord(z, k)[..FAST_BITS])
  {
    PrefixInner(z, k, FAST_BITS);
    ShiftMask(rev, z[k], FAST_BITS);
  }

  /** The direct entry of a long code. */
  method EnterRoot(lookUp: array<int>, tree: array<int>, rev: nat, treeNext0: int, maxSymbols: nat,
                   ghost z: seq<nat>, ghost k: nat, ghost nodes0: map<seq<bool>, nat>)
    returns (treeCur: int, treeNext: int, ghost nodes: map<seq<bool>, nat>)
    requires lookUp != tree && tree.Length == 2 * maxSymbols && Entering(z, k, rev, maxSymbols)
    requires Built(z, k, nodes0, lookUp[..], tree[..]) && treeNext0 == Link(|nodes0|)
    modifies lookUp
    ensures Built(z, k, nodes, lookUp[..], tree[..]) && treeNext == Link(|nodes|)
    ensures Path(z, k, nodes, FAST_BITS) && treeCur == Link(nodes[CodeWord(z, k)[..FAST_BITS]])
  {
    ghost var b, look, t := CodeWord(z, k)[..FAST_BITS], lookUp[..], tree[..];
    nodes := nodes0;
    hide Fits, Inner, Nodes, Links, Placed, OnlyPlaced, CodeWord, Acceptable, Pow2, ToBits, FromBits, Low, Shr, Slot,
      Link, Entering, Built, Path;
    RootPlace(z, k, rev, maxSymbols);
    RootRoom(z, k, nodes0, look, t, b, maxSymbols);
    treeNext := treeNext0;
    var i := Low(rev, FAST_BITS);
    treeCur := lookUp[i];
    if treeCur == 0 {
      lookUp[i] := treeNext;
      treeCur := treeNext;
      treeNext := treeNext - 2;
      AddRoot(z, k, nodes0, look, t, b);
      nodes := nodes0[b := |nodes0|];
      assert lookUp[..] == look[i := Link(|nodes0|)];
    } else {
      RootLink(z, k, nodes0, look, t, b);
    }
    PathStart(z, k, nodes);
  }

  lemma PathStart(z: seq<nat>, k: nat, nodes: map<seq<bool>, nat>)
    requires Long(z, k) && CodeWord(z, k)[..FAST_BITS] in nodes
    ensures Path(z, k, nodes, FAST_BITS)
  {
  }

  lemma ChildRoom(z: seq<nat>, k: nat, nodes: map<seq<bool>, nat>, lookUp: seq<int>, tree: seq<int>, q: seq<bool>,
    maxSymbols: nat)
    requires Built(z, k, nodes, lookUp, tree) && FAST_BITS < |q| < MAX_CODE_SIZE && Inner(z, q) && Parent(q) in nodes
    requires Acceptable(z) && |z| <= maxSymbols && maxSymbols >= MAX_CODE_SIZE && |tree| == 2 * maxSymbols
    ensures Slot(nodes[Parent(q)], LastBit(q)) < 2 * |nodes| <= |tree|
    ensures Slot(nodes[Parent(q)], LastBit(q)) == -Link(nodes[Parent(q)]) - 1 + (if LastBit(q) then 1 else 0)
    ensures tree[Slot(nodes[Parent(q)], LastBit(q))] != 0 ==>
              q in nodes && tree[Slot(nodes[Parent(q)], LastBit(q))] == Link(nodes[q])
    ensures tree[Slot(nodes[Parent(q)], LastBit(q))] == 0 ==>
      2 * (|nodes| + 1) <= |tree| && |nodes[q := |nodes|]| == |nodes| + 1
      && Link(|nodes[q := |nodes|]|) == Link(|nodes|) - 2 && Link(|nodes|) != 0
  {
    hide Fits, Inner, Placed, OnlyPlaced, CodeWord, Acceptable, FromBits;
    ChildLink(z, k, nodes, lookUp, tree, q);
    if tree[Slot(nodes[Parent(q)], LastBit(q))] == 0 {
      assert q !in nodes;
      Room(z, nodes, q, maxSymbols);
    }
  }

  /** Nodes keep their numbers as the tree grows. */
  ghost predicate Grows(nodes: map<seq<bool>, nat>, nodes': map<seq<bool>, nat>) {
    forall p :: p in nodes ==> p in nodes' && nodes'[p] == nodes[p]
  }

  /** One bit further along the path to an inner node q: follow the link, or make it. */
  method EnterChild(lookUp: array<int>, tree: array<int>, bit: nat, treeCur0: int, treeNext0: int, maxSymbols: nat,
                    ghost z: seq<nat>, ghost k: nat, ghost nodes0: map<seq<bool>, nat>, ghost q: seq<bool>)
    returns (treeCur: int, treeNext: int, ghost nodes: map<seq<bool>, nat>)
    requires lookUp != tree && tree.Length == 2 * maxSymbols
    requires Acceptable(z) && |z| <= maxSymbols && maxSymbols >= MAX_CODE_SIZE
    requires Built(z, k, nodes0, lookUp[..], tree[..]) && treeNext0 == Link(|nodes0|)
    requires FAST_BITS < |q| < MAX_CODE_SIZE && Inner(z, q)
    requires Parent(q) in nodes0 && treeCur0 == Link(nodes0[Parent(q)]) && bit == if LastBit(q) then 1 else 0
    modifies tree
    ensures Built(z, k, nodes, lookUp[..], tree[..]) && treeNext == Link(|nodes|)
    ensures q in nodes && treeCur == Link(nodes[q]) && Grows(nodes0, nodes)
  {
    hide Built, Inner, Acceptable, Slot, Link;
    ghost var t := tree[..];
    ChildRoom(z, k, nodes0, lookUp[..], t, q, maxSymbols);
    nodes, treeNext := nodes0, treeNext0;
    treeCur := treeCur0 - bit;
    ghost var slot := Slot(nodes0[Parent(q)], LastBit(q));
    if tree[-treeCur - 1] == 0 {
      AddChild(z, k, nodes0, lookUp[..], t, q);
      tree[-treeCur - 1] := treeNext;
      treeCur := treeNext;
      treeNext := treeNext - 2;
      nodes := nodes0[q := |nodes0|];
      assert tree[..] == t[slot := Link(|nodes0|)];
    } else {
      treeCur := tree[-treeCur - 1];
    }
  }

  lemma LeafSlot(z: seq<nat>, k: nat, nodes: map<seq<bool>, nat>, lookUp: seq<int>, tree: seq<int>)
    requires Long(z, k) && Built(z, k, nodes, lookUp, tree) && Path(z, k, nodes, z[k] - 1)
    ensures var w := CodeWord(z, k); var p := w[..z[k] - 1];
      && p in nodes && Slot(nodes[p], LastBit(w)) == -Link(nodes[p]) - 1 + (if w[z[k] - 1] then 1 else 0)
      && Slot(nodes[p], LastBit(w)) < |tree|
      && Built(z, k + 1, nodes, lookUp, tree[Slot(nodes[p], LastBit(w)) := k])
  {
    hide Built, CodeWord;
    SetLeaf(z, k, nodes, lookUp, tree);
    assert Parent(CodeWord(z, k)) == CodeWord(z, k)[..z[k] - 1];
  }

  /** Entering one code longer than ten bits. */
  method EnterLong(lookUp: array<int>, tree: array<int>, rev0: nat, codeSize: nat, symIndex: nat, treeNext0: int,
    maxSymbols: nat, ghost z: seq<nat>, ghost nodes0: map<seq<bool>, nat>)
    returns (treeNext: int, ghost nodes: map<seq<bool>, nat>)
    requires lookUp != tree && tree.Length == 2 * maxSymbols && Entering(z, symIndex, rev0, maxSymbols)
      && z[symIndex] == codeSize
    requires Built(z, symIndex, nodes0, lookUp[..], tree[..]) && treeNext0 == Link(|nodes0|)
    modifies lookUp, tree
    ensures Built(z, symIndex + 1, nodes, lookUp[..], tree[..]) && treeNext == Link(|nodes|)
  {
    var treeCur;
    hide Built, Fits, Inner, Nodes, Links, Placed, OnlyPlaced, CodeWord, Acceptable, Pow2, ToBits, FromBits, Low, Shr,
      Slot, Link;
    treeCur, treeNext, nodes := EnterRoot(lookUp, tree, rev0, treeNext0, maxSymbols, z, symIndex, nodes0);
    var rev := Shr(rev0, FAST_BITS - 1);
    var j := codeSize;
    while j > FAST_BITS + 1
      invariant FAST_BITS + 1 <= j <= codeSize
      invariant rev == Shr(rev0, FAST_BITS - 1 + codeSize - j)
      invariant Built(z, symIndex, nodes, lookUp[..], tree[..]) && treeNext == Link(|nodes|)
      invariant Path(z, symIndex, nodes, FAST_BITS + codeSize - j)
      invariant treeCur == Link(nodes[CodeWord(z, symIndex)[..FAST_BITS + codeSize - j]])
    {
      ghost var d := FAST_BITS + codeSize - j;
      ghost var was := nodes;
      NextChild(z, symIndex, rev0, nodes, d);
      rev := Shr(rev, 1);
      treeCur, treeNext, nodes := EnterChild(lookUp, tree, rev % 2, treeCur, treeNext, maxSymbols,
                                             z, symIndex, nodes, CodeWord(z, symIndex)[..d + 1]);
      PathStep(z, symIndex, was, nodes, d);
      j := j - 1;
    }
    NextBit(z, symIndex, rev0, codeSize - 1);
    LeafSlot(z, symIndex, nodes, lookUp[..], tree[..]);
    ghost var t := tree[..];
    rev := Shr(rev, 1);
    treeCur := treeCur - rev % 2;
    tree[-treeCur - 1] := symIndex;
    assert tree[..] == t[-treeCur - 1 := symIndex];
  }

  lemma NextChild(z: seq<nat>, k: nat, rev: nat, nodes: map<seq<bool>, nat>, d: nat)
    requires Path(z, k, nodes, d) && d + 1 < z[k] <= MAX_CODE_SIZE && ToBits(rev, z[k]) == CodeWord(z, k)
    ensures var q := CodeWord(z, k)[..d + 1];
      && Inner(z, q) && Parent(q) == CodeWord(z, k)[..d] && Parent(q) in nodes
      && Shr(Shr(rev, d - 1), 1) == Shr(rev, d) && Shr(rev, d) % 2 == if LastBit(q) then 1 else 0
  {
    NextBit(z, k, rev, d);
    PrefixInner(z, k, d + 1);
    PathParent(z, k, d);
  }

  lemma NextBit(z: seq<nat>, k: nat, rev: nat, d: nat)
    requires Long(z, k) && FAST_BITS <= d < z[k] && ToBits(rev, z[k]) == CodeWord(z, k)
    ensures Shr(Shr(rev, d - 1), 1) == Shr(rev, d)
    ensures Shr(rev, d) % 2 == if CodeWord(z, k)[d] then 1 else 0
  {
    ShrTwice(rev, d - 1, 1);
    BitAt(rev, z[k], d);
  }

  // ----- building a whole table -----

  lemma BuiltStart(z: seq<nat>, lookUp: seq<int>, tree: seq<int>)
    requires Fits(z) && |lookUp| == FAST_SIZE
    requires (forall i :: 0 <= i < |lookUp| ==> lookUp[i] == 0) && (forall i :: 0 <= i < |tree| ==> tree[i] == 0)
    ensures Built(z, 0, map[], lookUp, tree)
  {
    hide Fits, Inner, Taken, Extends, ShortPlaced, LongPlaced;
  }

  function UsedUpTo(z: seq<nat>, n: nat, d: nat): (u: nat)
    requires n <= |z|
  {
    if n == 0 then 0 else UsedUpTo(z, n - 1, d) + (if 0 < z[n - 1] <= d then 1 else 0)
  }

  lemma {:induction false} UsedUpToStep(z: seq<nat>, n: nat, d: nat)
    requires n <= |z| && d > 0
    ensures UsedUpTo(z, n, d) == UsedUpTo(z, n, d - 1) + CountTo(z, n, d)
    ensures UsedUpTo(z, n, 0) == 0
  {
    if n > 0 {
      UsedUpToStep(z, n - 1, d);
    }
  }

  lemma {:induction false} UsedUpToAll(z: seq<nat>, n: nat)
    requires n <= |z| && forall i :: 0 <= i < |z| ==> z[i] <= MAX_CODE_SIZE
    ensures UsedUpTo(z, n, MAX_CODE_SIZE) == Used(z, n)
  {
    if n > 0 {
      UsedUpToAll(z, n - 1);
    }
  }

  /** `total_syms`: how many symbols there are of each length. */
  method CountSyms(codeSize: array<nat>, n: nat) returns (totalSyms: array<nat>)
    requires n <= codeSize.Length && forall i :: 0 <= i < n ==> codeSize[i] <= MAX_CODE_SIZE
    ensures fresh(totalSyms) && totalSyms.Length == MAX_CODE_SIZE + 1
    ensures forall l :: 0 <= l <= MAX_CODE_SIZE ==> totalSyms[l] == Count(codeSize[..n], l)
  {
    totalSyms := new nat[MAX_CODE_SIZE + 1](_ => 0);
    ghost var z := codeSize[..n];
    var i := 0;
    while i < n
      invariant 0 <= i <= n
      invariant forall l :: 0 <= l <= MAX_CODE_SIZE ==> totalSyms[l] == CountTo(z, i, l)
    {
      assert codeSize[i] == z[i];
      totalSyms[codeSize[i]] := totalSyms[codeSize[i]] + 1;
      i := i + 1;
    }
  }

  lemma TotalsStep(z: seq<nat>, i: nat)
    requires i > 0
    ensures First(z, i + 1) == 2 * (First(z, i) + Count(z, i))
    ensures UsedUpTo(z, |z|, i) == UsedUpTo(z, |z|, i - 1) + Count(z, i)
    ensures UsedUpTo(z, |z|, 0) == 0 && First(z, 1) == 0
  {
    UsedUpToStep(z, |z|, i);
  }

  lemma TotalsTest(z: seq<nat>, total: nat, usedSyms: nat)
    requires forall i :: 0 <= i < |z| ==> z[i] <= MAX_CODE_SIZE
    requires total == First(z, MAX_CODE_SIZE + 1) && usedSyms == UsedUpTo(z, |z|, MAX_CODE_SIZE)
    ensures Acceptable(z) <==> !(total != 65536 && usedSyms > 1)
  {
    UsedUpToAll(z, |z|);
  }

  /** The next code of each length, and the test of the total; nothing but an acceptable table passes. */
  method FirstCodes(totalSyms: array<nat>, ghost z: seq<nat>) returns (nextCode: array<nat>, ok: bool)
    requires totalSyms.Length == MAX_CODE_SIZE + 1
    requires forall i :: 0 <= i < |z| ==> z[i] <= MAX_CODE_SIZE
    requires forall l :: 0 <= l <= MAX_CODE_SIZE ==> totalSyms[l] == Count(z, l)
    ensures fresh(nextCode) && nextCode.Length == MAX_CODE_SIZE + 2
    ensures forall l :: 1 <= l <= MAX_CODE_SIZE ==> nextCode[l] == First(z, l)
    ensures ok <==> Acceptable(z)
  {
    hide First, Count, UsedUpTo, Acceptable;
    nextCode := new nat[MAX_CODE_SIZE + 2](_ => 0);
    var usedSyms, total, i := 0, 0, 1;
    TotalsStep(z, 1);
    while i <= MAX_CODE_SIZE
      invariant 1 <= i <= MAX_CODE_SIZE + 1
      invariant usedSyms == UsedUpTo(z, |z|, i - 1) && total == First(z, i)
      invariant forall l :: 1 < l <= i ==> nextCode[l] == First(z, l)
      invariant nextCode[1] == 0
    {
      TotalsStep(z, i);
      usedSyms := usedSyms + totalSyms[i];
      total := 2 * (total + totalSyms[i]);
      nextCode[i + 1] := total;
      i := i + 1;
    }
    TotalsTest(z, total, usedSyms);
    ok := !(total != 65536 && usedSyms > 1);
  }

  // ----- decoding -----

  /** What the walk holds after d bits of b: a link while they lead to a node, and otherwise the symbol. */
  ghost predicate WalkState(z: seq<nat>, nodes: map<seq<bool>, nat>, b: seq<bool>, d: nat, temp: int) {
    && FAST_BITS < d <= |b|
    && (temp < 0 ==> b[..d] in nodes && |b[..d]| < MAX_CODE_SIZE && temp == Link(nodes[b[..d]]))
    && (temp >= 0 ==> NextSymbol(z, b) == Sym(temp, d))
  }

  /** The symbol that the bits give and its length, 0 for an empty entry. */
  ghost predicate Decodes(z: seq<nat>, b: seq<bool>, sym: nat, codeLen: nat) {
    if codeLen == 0 then sym == 0 && NextSymbol(z, b).NoEntry? else NextSymbol(z, b) == Sym(sym, codeLen)
  }

  /** What an entry v of the direct table says about the bits b. */
  ghost predicate Direct(z: seq<nat>, nodes: map<seq<bool>, nat>, b: seq<bool>, v: int) {
    && (v < 0 && |b| > FAST_BITS ==> b[..FAST_BITS] in nodes && v == Link(nodes[b[..FAST_BITS]]))
    && (v < 0 && |b| <= FAST_BITS ==> NextSymbol(z, b).NeedBits?)
    && (v >= 0 && 0 < v / 512 <= |b| ==> NextSymbol(z, b) == Sym(v % 512, v / 512))
    && (v >= 0 && !(0 < v / 512 <= |b|) ==>
          NextSymbol(z, b) == (if |b| < MAX_CODE_SIZE then NeedBits else NoEntry) && (|b| >= FAST_BITS ==> v == 0))
  }

  lemma DirectDone(z: seq<nat>, nodes: map<seq<bool>, nat>, b: seq<bool>, v: int)
    requires Direct(z, nodes, b, v) && v >= 0 && |b| == MAX_CODE_SIZE
    ensures Decodes(z, b, v % 512, v / 512)
  {
    hide NextSymbol;
  }

  lemma DirectLink(z: seq<nat>, nodes: map<seq<bool>, nat>, b: seq<bool>, v: int)
    requires Direct(z, nodes, b, v) && v < 0 && |b| > FAST_BITS
    ensures b[..FAST_BITS] in nodes && v == Link(nodes[b[..FAST_BITS]])
  {
  }

  lemma DirectTry(z: seq<nat>, nodes: map<seq<bool>, nat>, b: seq<bool>, v: int)
    requires Direct(z, nodes, b, v)
    ensures v >= 0 ==> (NextSymbol(z, b).Sym? <==> 0 < v / 512 <= |b|)
    ensures v < 0 && |b| <= FAST_BITS ==> !NextSymbol(z, b).Sym?
  {
    hide NextSymbol;
  }

  lemma WalkDone(z: seq<nat>, nodes: map<seq<bool>, nat>, b: seq<bool>, d: nat, temp: int)
    requires WalkState(z, nodes, b, d, temp) && temp >= 0
    ensures NextSymbol(z, b) == Sym(temp, d) && Decodes(z, b, temp, d)
  {
    hide NextSymbol;
  }

  lemma WalkNegative(z: seq<nat>, nodes: map<seq<bool>, nat>, b: seq<bool>, d: nat, temp: int)
    requires WalkState(z, nodes, b, d, temp) && temp < 0
    ensures b[..d] in nodes && d < MAX_CODE_SIZE && temp == Link(nodes[b[..d]])
  {
  }

  /** Whatever is on the way to a node is a node. */
  lemma {:induction false} NodePrefix(z: seq<nat>, nodes: map<seq<bool>, nat>, p: seq<bool>, d: nat)
    requires Nodes(z, nodes) && p in nodes && FAST_BITS <= d <= |p|
    ensures p[..d] in nodes
    decreases |p|
  {
    hide Inner;
    if d < |p| {
      NodePrefix(z, nodes, Parent(p), d);
      assert Parent(p)[..d] == p[..d];
    } else {
      assert p[..d] == p;
    }
  }

  lemma NodeNoCode(z: seq<nat>, nodes: map<seq<bool>, nat>, lookUp: seq<int>, tree: seq<int>, b: seq<bool>,
    p: seq<bool>)
    requires Built(z, |z|, nodes, lookUp, tree) && p in nodes && b <= p
    ensures forall s: nat :: !Starts(z, s, b)
  {
    hide Fits, Inner, Links, Placed, OnlyPlaced, CodeWord;
    forall s: nat
      ensures !Starts(z, s, b)
    {
      if HasCode(z, s) {
        InnerNoCode(z, p, s);
      }
    }
  }

  /** A long code that goes through q is q, or makes q a node. */
  lemma CodeThrough(z: seq<nat>, nodes: map<seq<bool>, nat>, lookUp: seq<int>, tree: seq<int>, s: nat, q: seq<bool>)
    requires Built(z, |z|, nodes, lookUp, tree) && HasCode(z, s) && |q| > FAST_BITS && q <= CodeWord(z, s)
    ensures q in nodes || CodeWord(z, s) == q
  {
    hide Fits, Nodes, Links, OnlyPlaced, Inner, CodeWord, ShortPlaced;
    assert LongPlaced(z, s, nodes, tree);
    assert CodeWord(z, s)[..|q|] == q;
  }

  /** The inner nodes of the code tree are all there. */
  lemma InnerIsNode(z: seq<nat>, nodes: map<seq<bool>, nat>, lookUp: seq<int>, tree: seq<int>, p: seq<bool>)
    requires Built(z, |z|, nodes, lookUp, tree) && |p| >= FAST_BITS && Inner(z, p)
    ensures p in nodes
  {
    hide Fits, Nodes, Links, OnlyPlaced, CodeWord, ShortPlaced;
    var s: nat :| Long(z, s) && |p| < z[s] && p <= CodeWord(z, s);
    assert LongPlaced(z, s, nodes, tree);
    assert CodeWord(z, s)[..|p|] == p;
  }

  lemma NodeIsInner(z: seq<nat>, nodes: map<seq<bool>, nat>, lookUp: seq<int>, tree: seq<int>, p: seq<bool>, d: nat)
    requires Built(z, |z|, nodes, lookUp, tree) && p in nodes && FAST_BITS <= d <= |p|
    ensures p[..d] in nodes && Inner(z, p[..d])
  {
    hide Fits, Links, OnlyPlaced, Placed, Inner;
    NodePrefix(z, nodes, p, d);
  }

  /** At a node the symbol is still open. */
  lemma NodeNeeds(z: seq<nat>, nodes: map<seq<bool>, nat>, lookUp: seq<int>, tree: seq<int>, b: seq<bool>)
    requires Built(z, |z|, nodes, lookUp, tree) && b in nodes && |b| > FAST_BITS
    ensures NextSymbol(z, b).NeedBits?
  {
    hide Built, Inner, Starts;
    NodeNoCode(z, nodes, lookUp, tree, b, b);
    NodeIsInner(z, nodes, lookUp, tree, b, FAST_BITS);
    var e := Exit(z, b, FAST_BITS + 1);
    if e <= |b| {
      NodeIsInner(z, nodes, lookUp, tree, b, e);
    }
  }

  /** The entry of a symbol's last bit. */
  lemma SymbolEntry(z: seq<nat>, nodes: map<seq<bool>, nat>, lookUp: seq<int>, tree: seq<int>, s: nat)
    requires Built(z, |z|, nodes, lookUp, tree) && Long(z, s)
    ensures var w := CodeWord(z, s);
      Parent(w) in nodes && Slot(nodes[Parent(w)], LastBit(w)) < |tree| && tree[Slot(nodes[Parent(w)], LastBit(w))] == s
  {
    hide Fits, Nodes, Links, OnlyPlaced, Inner, CodeWord, ShortPlaced;
    assert LongPlaced(z, s, nodes, tree);
  }

  lemma NodeEntry(z: seq<nat>, nodes: map<seq<bool>, nat>, lookUp: seq<int>, tree: seq<int>, q: seq<bool>)
    requires Built(z, |z|, nodes, lookUp, tree) && |q| > FAST_BITS && q in nodes
    ensures Parent(q) in nodes && Slot(nodes[Parent(q)], LastBit(q)) < |tree|
    ensures tree[Slot(nodes[Parent(q)], LastBit(q))] == Link(nodes[q]) && |q| < MAX_CODE_SIZE
  {
    hide Fits, Inner, Placed, OnlyPlaced;
  }

  lemma TreeEntry(z: seq<nat>, nodes: map<seq<bool>, nat>, lookUp: seq<int>, tree: seq<int>, p: seq<bool>, c: bool)
    requires Built(z, |z|, nodes, lookUp, tree) && p in nodes
    ensures Slot(nodes[p], c) < |tree|
    ensures tree[Slot(nodes[p], c)] != 0 ==> Extends(z, |z|, nodes, p, c)
  {
    hide Fits, Placed, Inner, Extends, Taken;
  }

  /** An entry that is neither a link nor a symbol's is empty. */
  lemma LeafValue(z: seq<nat>, nodes: map<seq<bool>, nat>, lookUp: seq<int>, tree: seq<int>, q: seq<bool>)
    requires Built(z, |z|, nodes, lookUp, tree) && |q| > FAST_BITS && q !in nodes && Parent(q) in nodes
    ensures Slot(nodes[Parent(q)], LastBit(q)) < |tree|
    ensures var v := tree[Slot(nodes[Parent(q)], LastBit(q))];
      v == 0 || (v > 0 && Long(z, v) && CodeWord(z, v) == q)
  {
    hide Built, CodeWord;
    TreeEntry(z, nodes, lookUp, tree, Parent(q), LastBit(q));
    assert Parent(q) + [LastBit(q)] == q;
    if tree[Slot(nodes[Parent(q)], LastBit(q))] != 0 {
      var s: nat :| s < |z| && Long(z, s) && CodeWord(z, s) == q;
      SymbolEntry(z, nodes, lookUp, tree, s);
    }
  }

  lemma StartsThrough(z: seq<nat>, nodes: map<seq<bool>, nat>, lookUp: seq<int>, tree: seq<int>, q: seq<bool>,
    b: seq<bool>, s: nat)
    requires Built(z, |z|, nodes, lookUp, tree) && |q| > FAST_BITS && q !in nodes && Parent(q) in nodes && q <= b
    requires Starts(z, s, b)
    ensures CodeWord(z, s) == q
  {
    hide Links, Placed, OnlyPlaced, Inner, CodeWord, Fits;
    var w := CodeWord(z, s);
    assert Starts(z, s, w);
    if |w| < |q| {
      assert w <= Parent(q);
      NodeNoCode(z, nodes, lookUp, tree, w, Parent(q));
    } else {
      assert q <= w;
      CodeThrough(z, nodes, lookUp, tree, s, q);
    }
  }

  lemma LeafEntry(z: seq<nat>, nodes: map<seq<bool>, nat>, lookUp: seq<int>, tree: seq<int>, q: seq<bool>, b: seq<bool>)
    requires Built(z, |z|, nodes, lookUp, tree) && |q| > FAST_BITS && q !in nodes && Parent(q) in nodes && q <= b
    ensures Slot(nodes[Parent(q)], LastBit(q)) < |tree|
    ensures var v := tree[Slot(nodes[Parent(q)], LastBit(q))];
      && v >= 0
      && (forall s: nat :: Starts(z, s, b) ==> v == s && z[s] == |q|)
      && ((forall s: nat :: !Starts(z, s, b)) ==> v == 0)
  {
    hide Built, CodeWord;
    LeafValue(z, nodes, lookUp, tree, q);
    var v := tree[Slot(nodes[Parent(q)], LastBit(q))];
    assert v > 0 ==> Starts(z, v, b);
    forall s: nat | Starts(z, s, b)
      ensures v == s && z[s] == |q|
    {
      StartsThrough(z, nodes, lookUp, tree, q, b, s);
      SymbolEntry(z, nodes, lookUp, tree, s);
    }
  }

  /** A string that is no node, below a node: its tree entry is the symbol. */
  lemma LeafNext(z: seq<nat>, nodes: map<seq<bool>, nat>, lookUp: seq<int>, tree: seq<int>, q: seq<bool>, b: seq<bool>)
    requires Built(z, |z|, nodes, lookUp, tree) && |q| > FAST_BITS && q !in nodes && Parent(q) in nodes && q <= b
    ensures Slot(nodes[Parent(q)], LastBit(q)) < |tree|
    ensures var v := tree[Slot(nodes[Parent(q)], LastBit(q))];
      v >= 0 && NextSymbol(z, b) == Sym(v, |q|)
  {
    hide Built, CodeWord, Starts, Inner, Fits;
    LeafEntry(z, nodes, lookUp, tree, q, b);
    BuiltFits(z, nodes, lookUp, tree);
    if s: nat :| Starts(z, s, b) {
      StartsNext(z, b, s);
    } else {
      var e := Exit(z, b, FAST_BITS + 1);
      assert b[..|q|] == q;
      if Inner(z, b[..|q|]) {
        InnerIsNode(z, nodes, lookUp, tree, q);
      }
      NodeIsInner(z, nodes, lookUp, tree, Parent(q), FAST_BITS);
      assert Parent(q)[..FAST_BITS] == b[..FAST_BITS];
      if e < |q| {
        assert Parent(q)[..e] == b[..e];
        NodeIsInner(z, nodes, lookUp, tree, Parent(q), e);
      }
    }
  }

  lemma BuiltFits(z: seq<nat>, nodes: map<seq<bool>, nat>, lookUp: seq<int>, tree: seq<int>)
    requires Built(z, |z|, nodes, lookUp, tree)
    ensures Fits(z)
  {
  }

  /** The tree entry one bit below a node. */
  lemma WalkEntry(z: seq<nat>, nodes: map<seq<bool>, nat>, lookUp: seq<int>, tree: seq<int>, b: seq<bool>, d: nat)
    requires Built(z, |z|, nodes, lookUp, tree) && FAST_BITS <= d < |b| && b[..d] in nodes
    ensures var slot := -Link(nodes[b[..d]]) - 1 + (if b[d] then 1 else 0);
      0 <= slot < |tree| && WalkState(z, nodes, b, d + 1, tree[slot])
  {
    hide Built, NextSymbol;
    var q := b[..d + 1];
    assert Parent(q) == b[..d] && LastBit(q) == b[d];
    if q in nodes {
      NodeEntry(z, nodes, lookUp, tree, q);
    } else {
      LeafNext(z, nodes, lookUp, tree, q, b);
    }
  }

  /** The first ten bits of the buffer, some of which may be padding beyond the n real ones. */
  lemma Padded(bitBuf: nat, n: nat)
    ensures var t, b := ToBits(Low(bitBuf, FAST_BITS), FAST_BITS), ToBits(bitBuf, n);
      && Low(bitBuf, FAST_BITS) < FAST_SIZE && FromBits(t) == Low(bitBuf, FAST_BITS)
      && (n >= FAST_BITS ==> b[..FAST_BITS] == t) && (n <= FAST_BITS ==> t[..n] == b)
  {
    LowBits(bitBuf, FAST_BITS);
    FromToBits(bitBuf, FAST_BITS);
    ShrLow(bitBuf, FAST_BITS);
    Pow2Values();
    if n >= FAST_BITS {
      ToBitsSplit(bitBuf, FAST_BITS, n - FAST_BITS);
    } else {
      ToBitsSplit(bitBuf, n, FAST_BITS - n);
    }
  }

  lemma ShortValue(z: seq<nat>, nodes: map<seq<bool>, nat>, lookUp: seq<int>, tree: seq<int>, i: nat, s: nat)
    requires Built(z, |z|, nodes, lookUp, tree) && i < FAST_SIZE && Short(z, s)
      && CodeWord(z, s) <= ToBits(i, FAST_BITS)
    ensures |lookUp| == FAST_SIZE && lookUp[i] == 512 * z[s] + s
  {
    hide Fits, Nodes, Links, OnlyPlaced, CodeWord, LongPlaced;
    assert ShortPlaced(z, s, lookUp);
  }

  lemma LinkValue(z: seq<nat>, nodes: map<seq<bool>, nat>, lookUp: seq<int>, tree: seq<int>, t: seq<bool>)
    requires Built(z, |z|, nodes, lookUp, tree) && t in nodes && |t| == FAST_BITS
    ensures FromBits(t) < FAST_SIZE == |lookUp| && lookUp[FromBits(t)] == Link(nodes[t])
  {
    hide Fits, Nodes, Placed, OnlyPlaced;
  }

  lemma DirectTaken(z: seq<nat>, nodes: map<seq<bool>, nat>, lookUp: seq<int>, tree: seq<int>, i: nat)
    requires Built(z, |z|, nodes, lookUp, tree) && i < FAST_SIZE
    ensures |lookUp| == FAST_SIZE && (lookUp[i] != 0 ==> Taken(z, |z|, nodes, i))
  {
    hide Fits, Nodes, Placed, Taken, Extends;
  }

  /** What the direct table holds for ten bits t. */
  lemma DirectValue(z: seq<nat>, nodes: map<seq<bool>, nat>, lookUp: seq<int>, tree: seq<int>, i: nat, t: seq<bool>)
    requires Built(z, |z|, nodes, lookUp, tree) && i < FAST_SIZE && t == ToBits(i, FAST_BITS) && FromBits(t) == i
      && |z| <= 512
    ensures |lookUp| == FAST_SIZE
    ensures lookUp[i] < 0 ==> t in nodes && lookUp[i] == Link(nodes[t])
    ensures lookUp[i] > 0 ==>
      Short(z, lookUp[i] % 512) && z[lookUp[i] % 512] == lookUp[i] / 512
      && CodeWord(z, lookUp[i] % 512) <= t
    ensures lookUp[i] >= 0 ==> t !in nodes
  {
    hide Built, CodeWord, ToBits, FromBits;
    DirectTaken(z, nodes, lookUp, tree, i);
    if t in nodes {
      LinkValue(z, nodes, lookUp, tree, t);
    } else if lookUp[i] != 0 {
      var s: nat :| s < |z| && Short(z, s) && CodeWord(z, s) <= t;
      ShortValue(z, nodes, lookUp, tree, i, s);
    }
  }

  lemma DirectEntry(z: seq<nat>, nodes: map<seq<bool>, nat>, lookUp: seq<int>, tree: seq<int>, bitBuf: nat, n: nat)
    requires Built(z, |z|, nodes, lookUp, tree) && |z| <= 512
    ensures Low(bitBuf, FAST_BITS) < FAST_SIZE == |lookUp|
    ensures Direct(z, nodes, ToBits(bitBuf, n), lookUp[Low(bitBuf, FAST_BITS)])
  {
    hide Built, CodeWord, ToBits, FromBits, Low;
    var i := Low(bitBuf, FAST_BITS);
    var t, b := ToBits(i, FAST_BITS), ToBits(bitBuf, n);
    Padded(bitBuf, n);
    DirectValue(z, nodes, lookUp, tree, i, t);
    var v := lookUp[i];
    if v < 0 {
      if n <= FAST_BITS {
        NodeNoCode(z, nodes, lookUp, tree, b, t);
      }
    } else if 0 < v / 512 <= n {
      BuiltFits(z, nodes, lookUp, tree);
      assert CodeWord(z, v % 512) <= b;
      StartsNext(z, b, v % 512);
    } else {
      NoStart(z, nodes, lookUp, tree, i, t, b);
      if n > FAST_BITS && Inner(z, t) {
        InnerIsNode(z, nodes, lookUp, tree, t);
      }
    }
  }

  /** No code word starts the bits when their entry is empty or stands for more bits than there are. */
  lemma NoStart(z: seq<nat>, nodes: map<seq<bool>, nat>, lookUp: seq<int>, tree: seq<int>, i: nat, t: seq<bool>,
    b: seq<bool>)
    requires Built(z, |z|, nodes, lookUp, tree) && i < FAST_SIZE == |lookUp| && t == ToBits(i, FAST_BITS) && |z| <= 512
    requires (|b| >= FAST_BITS ==> b[..FAST_BITS] == t && t !in nodes) && (|b| <= FAST_BITS ==> t[..|b|] == b)
    requires lookUp[i] >= 0 && !(0 < lookUp[i] / 512 <= |b|)
    ensures forall s: nat :: !Starts(z, s, b)
  {
    hide Built, CodeWord, ToBits;
    forall s: nat
      ensures !Starts(z, s, b)
    {
      if Starts(z, s, b) {
        if z[s] > FAST_BITS {
          LongRoot(z, nodes, lookUp, tree, s, b);
        } else {
          assert CodeWord(z, s) <= t;
          ShortValue(z, nodes, lookUp, tree, i, s);
        }
      }
    }
  }

  lemma LongRoot(z: seq<nat>, nodes: map<seq<bool>, nat>, lookUp: seq<int>, tree: seq<int>, s: nat, b: seq<bool>)
    requires Built(z, |z|, nodes, lookUp, tree) && Long(z, s) && Starts(z, s, b)
    ensures b[..FAST_BITS] in nodes
  {
    hide Fits, Nodes, Links, OnlyPlaced, Inner, CodeWord, ShortPlaced;
    assert LongPlaced(z, s, nodes, tree);
    assert b[..FAST_BITS] == CodeWord(z, s)[..FAST_BITS];
  }

  /** One decoding table of the decompressor: m_look_up[t], m_tree_t and m_code_size_t. */
  class Table {
    const lookUp: array<int>
    const tree: array<int>
    const codeSize: array<nat>
    ghost var sizes: seq<nat>
    ghost var nodes: map<seq<bool>, nat>

    constructor (maxSymbols: nat)
      ensures lookUp.Length == FAST_SIZE && tree.Length == 2 * maxSymbols && codeSize.Length == maxSymbols
      ensures fresh(lookUp) && fresh(tree) && fresh(codeSize) && lookUp != tree
    {
      lookUp := new int[FAST_SIZE](_ => 0);
      tree := new int[2 * maxSymbols](_ => 0);
      codeSize := new nat[maxSymbols](_ => 0);
      sizes, nodes := [], map[];
    }

    ghost predicate Valid() {
      && lookUp.Length == FAST_SIZE && tree.Length == 2 * codeSize.Length && lookUp != tree
      && MAX_CODE_SIZE <= codeSize.Length <= 512
    }

    /** The table decodes the canonical code with lengths `sizes`. */
    ghost predicate Ready()
      reads this, lookUp, tree
    {
      && Valid() && |sizes| <= codeSize.Length && Acceptable(sizes)
      && Built(sizes, |sizes|, nodes, lookUp[..], tree[..])
    }

    method Clear()
      requires Valid()
      modifies lookUp, tree
      ensures (forall i :: 0 <= i < lookUp.Length ==> lookUp[i] == 0)
        && (forall i :: 0 <= i < tree.Length ==> tree[i] == 0)
    {
      var i := 0;
      while i < lookUp.Length
        invariant 0 <= i <= lookUp.Length && forall k :: 0 <= k < i ==> lookUp[k] == 0
      {
        lookUp[i] := 0;
        i := i + 1;
      }
      i := 0;
      while i < tree.Length
        invariant 0 <= i <= tree.Length && forall k :: 0 <= k < i ==> tree[k] == 0
        invariant forall k :: 0 <= k < lookUp.Length ==> lookUp[k] == 0
      {
        tree[i] := 0;
        i := i + 1;
      }
    }

    /** The table build for one code: it succeeds exactly on acceptable lengths, never leaves the arrays,
        and then decodes what section 3.2.2 of RFC 1951 assigns. */
    method Build(n: nat) returns (ok: bool)
      requires Valid() && n <= codeSize.Length && forall i :: 0 <= i < n ==> codeSize[i] <= MAX_CODE_SIZE
      modifies this, lookUp, tree
      ensures ok <==> Acceptable(old(codeSize[..n]))
      ensures ok ==> Ready() && sizes == old(codeSize[..n])
    {
      hide Acceptable, Built, Fits, First, Count;
      ghost var z := codeSize[..n];
      var totalSyms := CountSyms(codeSize, n);
      Clear();
      var nextCode;
      nextCode, ok := FirstCodes(totalSyms, z);
      if !ok {
        return;
      }
      AcceptableFits(z);
      BuiltStart(z, lookUp[..], tree[..]);
      Enter(n, nextCode, z);
    }

    /** The loop over all symbols. */
    method Enter(n: nat, nextCode: array<nat>, ghost z: seq<nat>)
      requires Valid() && n <= codeSize.Length && z == codeSize[..n] && codeSize != nextCode && Acceptable(z)
      requires forall i :: 0 <= i < |z| ==> z[i] <= MAX_CODE_SIZE
      requires nextCode.Length == MAX_CODE_SIZE + 2
        && forall l :: 1 <= l <= MAX_CODE_SIZE ==> nextCode[l] == First(z, l)
      requires Built(z, 0, map[], lookUp[..], tree[..])
      modifies this, lookUp, tree, nextCode
      ensures Ready() && sizes == z
    {
      hide Built, Acceptable, First, Pow2, ToBits, MsbBits;
      var treeNext, symIndex := -1, 0;
      nodes := map[];
      while symIndex < n
        invariant 0 <= symIndex <= n && codeSize[..n] == z
        invariant Built(z, symIndex, nodes, lookUp[..], tree[..]) && treeNext == Link(|nodes|)
        invariant forall l :: 1 <= l <= MAX_CODE_SIZE ==> nextCode[l] == First(z, l) + CountTo(z, symIndex, l)
      {
        var size := codeSize[symIndex];
        assert size == z[symIndex];
        if size == 0 {
          Skip(z, symIndex, nodes, lookUp[..], tree[..]);
        } else {
          var curCode := nextCode[size];
          assert MsbBits(curCode, size) == CodeWord(z, symIndex);
          nextCode[size] := nextCode[size] + 1;
          var rev := EncoderTable.ReverseCode(curCode, size);
          treeNext := EnterOne(symIndex, size, rev, treeNext, z);
        }
        symIndex := symIndex + 1;
      }
      sizes := z;
    }

    method EnterOne(symIndex: nat, size: nat, rev: nat, treeNext0: int, ghost z: seq<nat>) returns (treeNext: int)
      requires Valid() && Acceptable(z) && symIndex < |z| <= codeSize.Length && 0 < z[symIndex] == size <= MAX_CODE_SIZE
      requires rev < Pow2(size) && ToBits(rev, size) == CodeWord(z, symIndex)
      requires Built(z, symIndex, nodes, lookUp[..], tree[..]) && treeNext0 == Link(|nodes|)
      modifies this`nodes, lookUp, tree
      ensures Built(z, symIndex + 1, nodes, lookUp[..], tree[..]) && treeNext == Link(|nodes|)
    {
      hide Built, Acceptable, CodeWord, Pow2, ToBits, FilledShort;
      treeNext := treeNext0;
      if size <= FAST_BITS {
        ghost var look := lookUp[..];
        FillShort(lookUp, size, rev, 512 * size + symIndex);
        FilledIsShort(z, symIndex, rev, look, lookUp[..]);
        AddShort(z, symIndex, nodes, look, tree[..], lookUp[..]);
      } else {
        treeNext, nodes := EnterLong(lookUp, tree, rev, size, symIndex, treeNext, codeSize.Length, z, nodes);
      }
    }

    /** `temp = pTree[~temp + ((bit_buf >> code_len++) & 1)]` */
    method WalkBit(bitBuf: nat, temp0: int, codeLen0: nat, ghost n: nat) returns (temp: int, codeLen: nat)
      requires Ready() && FAST_BITS <= codeLen0 < n
      requires ToBits(bitBuf, n)[..codeLen0] in nodes && temp0 == Link(nodes[ToBits(bitBuf, n)[..codeLen0]])
      ensures codeLen == codeLen0 + 1 && WalkState(sizes, nodes, ToBits(bitBuf, n), codeLen, temp)
    {
      hide Built, Acceptable, WalkState, ToBits;
      WalkEntry(sizes, nodes, lookUp[..], tree[..], ToBits(bitBuf, n), codeLen0);
      BitAt(bitBuf, n, codeLen0);
      temp := tree[-temp0 - 1 + Shr(bitBuf, codeLen0) % 2];
      codeLen := codeLen0 + 1;
    }

    /** The lookup of TINFL_HUFF_DECODE: a direct entry, or a walk down the overflow tree.  On 15 or more bits it
        returns the next symbol, with its length. */
    method Lookup(bitBuf: nat) returns (sym: nat, codeLen: nat)
      requires Ready()
      ensures Decodes(sizes, ToBits(bitBuf, MAX_CODE_SIZE), sym, codeLen)
    {
      ghost var b := ToBits(bitBuf, MAX_CODE_SIZE);
      hide Built, Acceptable, NextSymbol, Decodes, ToBits, Low, WalkState, Direct;
      DirectEntry(sizes, nodes, lookUp[..], tree[..], bitBuf, MAX_CODE_SIZE);
      var temp := lookUp[Low(bitBuf, FAST_BITS)];
      if temp >= 0 {
        DirectDone(sizes, nodes, b, temp);
        sym, codeLen := temp % 512, temp / 512;
        return;
      }
      DirectLink(sizes, nodes, b, temp);
      temp, codeLen := WalkBit(bitBuf, temp, FAST_BITS, MAX_CODE_SIZE);
      while temp < 0
        invariant FAST_BITS < codeLen <= MAX_CODE_SIZE
        invariant WalkState(sizes, nodes, b, codeLen, temp)
        decreases MAX_CODE_SIZE - codeLen
      {
        WalkNegative(sizes, nodes, b, codeLen, temp);
        temp, codeLen := WalkBit(bitBuf, temp, codeLen, MAX_CODE_SIZE);
      }
      WalkDone(sizes, nodes, b, codeLen, temp);
      sym := temp;
    }

    /** The attempt of TINFL_HUFF_BITBUF_FILL to decode with the bits at hand: it never succeeds while the code could
        still be longer, and never fails once a whole code is there. */
    method TryDecode(bitBuf: nat, numBits: nat) returns (done: bool)
      requires Ready() && numBits <= MAX_CODE_SIZE
      ensures done <==> NextSymbol(sizes, ToBits(bitBuf, numBits)).Sym?
    {
      ghost var b := ToBits(bitBuf, numBits);
      hide Built, Acceptable, NextSymbol, ToBits, Low, WalkState, Direct;
      DirectEntry(sizes, nodes, lookUp[..], tree[..], bitBuf, numBits);
      var temp := lookUp[Low(bitBuf, FAST_BITS)];
      DirectTry(sizes, nodes, b, temp);
      if temp >= 0 {
        var codeLen := temp / 512;
        return codeLen != 0 && numBits >= codeLen;
      } else if numBits > FAST_BITS {
        var codeLen;
        DirectLink(sizes, nodes, b, temp);
        temp, codeLen := WalkBit(bitBuf, temp, FAST_BITS, numBits);
        while temp < 0 && numBits >= codeLen + 1
          invariant FAST_BITS < codeLen <= numBits
          invariant WalkState(sizes, nodes, b, codeLen, temp)
          decreases numBits - codeLen
        {
          WalkNegative(sizes, nodes, b, codeLen, temp);
          temp, codeLen := WalkBit(bitBuf, temp, codeLen, numBits);
        }
        if temp >= 0 {
          WalkDone(sizes, nodes, b, codeLen, temp);
          return true;
        }
        WalkNegative(sizes, nodes, b, codeLen, temp);
        assert b[..codeLen] == b;
        NodeNeeds(sizes, nodes, lookUp[..], tree[..], b);
      }
      return false;
    }
  }

  lemma FilledIsShort(z: seq<nat>, k: nat, rev: nat, lookUp: seq<int>, after: seq<int>)
    requires Short(z, k) && |lookUp| == |after| == FAST_SIZE && rev < Pow2(z[k]) && ToBits(rev, z[k]) == CodeWord(z, k)
    requires forall i :: 0 <= i < FAST_SIZE ==> after[i] == if Low(i, z[k]) == rev then 512 * z[k] + k else lookUp[i]
    ensures FilledShort(z, k, lookUp, after)
  {
    forall i | 0 <= i < FAST_SIZE
      ensures after[i] == if CodeWord(z, k) <= ToBits(i, FAST_BITS) then 512 * z[k] + k else lookUp[i]
    {
      ShortIndices(z, k, rev, i);
    }
  }
}
