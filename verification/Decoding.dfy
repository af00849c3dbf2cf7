/** The next symbol of a stream, also where no code word starts the bits: what the decompressor's tables then give
    depends on their form, ten bits of direct lookup and a tree for the longer codes. */
module Decoding {
  import opened Bits
  import opened Canonical

  const FAST_BITS: nat := 10

  predicate Long(z: seq<nat>, s: nat) {
    s < |z| && z[s] > FAST_BITS
  }

  predicate Short(z: seq<nat>, s: nat) {
    s < |z| && 0 < z[s] <= FAST_BITS
  }

  /** p leads to an inner node of the code tree. */
  ghost predicate Inner(z: seq<nat>, p: seq<bool>) {
    exists s: nat :: Long(z, s) && |p| < z[s] && p <= CodeWord(z, s)
  }

  /** How many bits of b lead out of the tree, at least d; more than there are if they do not. */
  ghost function Exit(z: seq<nat>, b: seq<bool>, d: nat): (e: nat)
    requires d <= |b| + 1
    ensures d <= e <= |b| + 1
    ensures forall k :: d <= k < e ==> Inner(z, b[..k])
    ensures e <= |b| ==> !Inner(z, b[..e])
    decreases |b| + 1 - d
  {
    if d > |b| || !Inner(z, b[..d]) then d else Exit(z, b, d + 1)
  }

  /** A symbol and the number of bits it takes; or too few bits to tell; or a direct entry that was never filled in. */
  datatype Symbol = Sym(s: nat, len: nat) | NeedBits | NoEntry

  /** The symbol whose code word starts the bits.  Without one, bits that leave the tree give symbol 0 all the same, and
      bits without a direct entry are found out once there are 15. */
  ghost function NextSymbol(z: seq<nat>, b: seq<bool>): (r: Symbol)
    ensures r.Sym? ==> 0 < r.len <= |b| && (r.s == 0 || r.s < |z|)
    ensures r.NoEntry? ==> |b| >= MAX_CODE_SIZE
  {
    if s: nat :| Starts(z, s, b) then Sym(s, z[s])
    else if |b| > FAST_BITS && Inner(z, b[..FAST_BITS]) then
      var e := Exit(z, b, FAST_BITS + 1);
      if e <= |b| then Sym(0, e) else NeedBits
    else if |b| < MAX_CODE_SIZE then NeedBits
    else NoEntry
  }

  // ----- code words -----

  lemma StartsNext(z: seq<nat>, b: seq<bool>, s: nat)
    requires Fits(z) && Starts(z, s, b)
    ensures NextSymbol(z, b) == Sym(s, z[s])
  {
    hide CodeWord, Fits;
    var r := NextSymbol(z, b);
    forall t: nat | Starts(z, t, b)
      ensures t == s
    {
      OneStarts(z, s, t, b);
    }
  }

  lemma ReadCode(z: seq<nat>, s: nat, rest: seq<bool>)
    requires Fits(z) && HasCode(z, s)
    ensures NextSymbol(z, CodeWord(z, s) + rest) == Sym(s, z[s])
    ensures (CodeWord(z, s) + rest)[z[s]..] == rest
  {
    StartsNext(z, CodeWord(z, s) + rest, s);
  }

  lemma PrefixStarts(z: seq<nat>, s: nat, b: seq<bool>, more: seq<bool>)
    requires HasCode(z, s)
    ensures Starts(z, s, b) ==> Starts(z, s, b + more)
    ensures Starts(z, s, b + more) && z[s] <= |b| ==> Starts(z, s, b)
    ensures Starts(z, s, b + more) && z[s] > |b| ==> b <= CodeWord(z, s)
  {
    var w := CodeWord(z, s);
    hide CodeWord;
    if w <= b + more {
      assert (b + more)[..|w|] == w;
      if |w| <= |b| {
        assert b[..|w|] == w;
      } else {
        assert w[..|b|] == b;
      }
    }
    if w <= b {
      assert (b + more)[..|w|] == w;
    }
  }

  lemma CodeAtMost(z: seq<nat>, s: nat)
    requires Fits(z) && HasCode(z, s)
    ensures z[s] <= MAX_CODE_SIZE
  {
  }

  /** What is on the way to a code word is inside the tree. */
  lemma OnTheWay(z: seq<nat>, s: nat, b: seq<bool>, d: nat)
    requires Long(z, s) && b <= CodeWord(z, s) && d <= |b| && d < z[s]
    ensures Inner(z, b[..d])
  {
    var w := CodeWord(z, s);
    hide CodeWord;
    assert b[..d] == w[..d];
  }

  lemma InnerBelowLimit(z: seq<nat>, p: seq<bool>)
    requires Fits(z) && Inner(z, p)
    ensures |p| < MAX_CODE_SIZE
  {
    var s: nat :| Long(z, s) && |p| < z[s] && p <= CodeWord(z, s);
    CodeAtMost(z, s);
  }

  /** Where a string leaves the tree does not depend on what follows. */
  lemma {:induction false} ExitMore(z: seq<nat>, b: seq<bool>, more: seq<bool>, d: nat)
    requires d <= |b| + 1 && Exit(z, b, d) <= |b|
    ensures Exit(z, b + more, d) == Exit(z, b, d)
    decreases |b| + 1 - d
  {
    hide Inner;
    assert (b + more)[..d] == b[..d];
    if Inner(z, b[..d]) {
      ExitMore(z, b, more, d + 1);
    }
  }

  /** Bits that decide the symbol decide it whatever comes after them. */
  lemma Decided(z: seq<nat>, b: seq<bool>, more: seq<bool>)
    requires Fits(z) && !NextSymbol(z, b).NeedBits?
    ensures NextSymbol(z, b + more) == NextSymbol(z, b)
  {
    hide CodeWord, Fits, Inner, Exit;
    if t: nat :| Starts(z, t, b) {
      PrefixStarts(z, t, b, more);
      StartsNext(z, b, t);
      StartsNext(z, b + more, t);
    } else {
      NoneLater(z, b, more);
      if |b| > FAST_BITS && Inner(z, b[..FAST_BITS]) {
        ExitMore(z, b, more, FAST_BITS + 1);
      }
      assert (b + more)[..FAST_BITS] == b[..FAST_BITS];
    }
  }

  /** A symbol is decided by the bits it takes. */
  lemma DecidedBy(z: seq<nat>, b: seq<bool>, more: seq<bool>)
    requires Fits(z) && NextSymbol(z, b + more).Sym? && NextSymbol(z, b + more).len <= |b|
    ensures NextSymbol(z, b) == NextSymbol(z, b + more)
  {
    hide CodeWord, Fits, Inner, Exit;
    if t: nat :| Starts(z, t, b + more) {
      StartsNext(z, b + more, t);
      PrefixStarts(z, t, b, more);
      StartsNext(z, b, t);
    } else {
      forall t: nat
        ensures !Starts(z, t, b)
      {
        if HasCode(z, t) {
          PrefixStarts(z, t, b, more);
        }
      }
      assert (b + more)[..FAST_BITS] == b[..FAST_BITS];
      ExitLess(z, b, more, FAST_BITS + 1);
    }
  }

  lemma {:induction false} ExitLess(z: seq<nat>, b: seq<bool>, more: seq<bool>, d: nat)
    requires d <= |b| + 1 && Exit(z, b + more, d) <= |b|
    ensures Exit(z, b, d) == Exit(z, b + more, d)
    decreases |b| + 1 - d
  {
    hide Inner;
    assert (b + more)[..d] == b[..d];
    if Inner(z, b[..d]) {
      ExitLess(z, b, more, d + 1);
    }
  }

  lemma NoneLater(z: seq<nat>, b: seq<bool>, more: seq<bool>)
    requires Fits(z) && !NextSymbol(z, b).NeedBits? && forall t: nat :: !Starts(z, t, b)
    ensures forall t: nat :: !Starts(z, t, b + more)
  {
    hide CodeWord, Fits, Inner;
    forall t: nat
      ensures !Starts(z, t, b + more)
    {
      if Starts(z, t, b + more) {
        PrefixStarts(z, t, b, more);
        CodeAtMost(z, t);
        if |b| > FAST_BITS {
          OnTheWay(z, t, b, FAST_BITS);
          OnTheWay(z, t, b, Exit(z, b, FAST_BITS + 1));
        }
      }
    }
  }

  /** With 15 bits nothing is left open. */
  lemma EnoughBits(z: seq<nat>, b: seq<bool>)
    requires Fits(z) && |b| >= MAX_CODE_SIZE
    ensures !NextSymbol(z, b).NeedBits?
  {
    hide CodeWord, Fits, Inner;
    if (forall t: nat :: !Starts(z, t, b)) && Inner(z, b[..FAST_BITS]) && Exit(z, b, FAST_BITS + 1) > |b| {
      InnerBelowLimit(z, b[..MAX_CODE_SIZE]);
    }
  }

  // ----- which codes leave bit strings without a code word -----

  /** A complete code gives every long enough string the symbol whose code word starts it. */
  lemma CompleteNext(z: seq<nat>, b: seq<bool>)
    requires Complete(z)
    ensures var r := NextSymbol(z, b);
      !r.NoEntry? && (r.Sym? ==> Starts(z, r.s, b) && r.len == z[r.s])
  {
    hide CodeWord, Fits, Inner, Complete;
    CompleteFits(z);
    var pad := b + Zeros(MAX_CODE_SIZE);
    var s := CompleteDecodes(z, pad);
    StartsNext(z, pad, s);
    if !NextSymbol(z, b).NeedBits? {
      Decided(z, b, Zeros(MAX_CODE_SIZE));
      PrefixStarts(z, s, b, Zeros(MAX_CODE_SIZE));
    }
  }

  /** So only a code with at most one symbol can leave a direct entry empty. */
  lemma NoEntryFew(z: seq<nat>, b: seq<bool>)
    requires Acceptable(z) && (NextSymbol(z, b).NoEntry?
      || (NextSymbol(z, b).Sym? && !Starts(z, NextSymbol(z, b).s, b)))
    ensures Used(z, |z|) <= 1
  {
    hide NextSymbol, Starts, Used, First;
    if Used(z, |z|) > 1 {
      CompleteNext(z, b);
    }
  }
}
