/** The hash chains of the compressor: every position is entered under the hash of its three bytes, and leads to the
    last position before it with the same hash. */
module HashChains {
  import opened Bits

  const LZ_DICT_SIZE: nat := 32768
  const HASH_SIZE: nat := 32768

  // ----- the hash -----

  /** The hash of three bytes. */
  function Hash3(a: Byte, b: Byte, c: Byte): (h: nat)
    ensures h < HASH_SIZE
  {
    var x := Xor(Xor(Shl(a, 10), Shl(b, 5)), c);
    Pow2Values();
    ShrLow(x, 15);
    Low(x, 15)
  }

  lemma XorHalves(x: nat, y: nat)
    ensures Xor(x, y) == (if x % 2 != y % 2 then 1 else 0) + 2 * Xor(x / 2, y / 2)
  {
  }

  lemma LowHalves(x: nat, n: nat)
    requires n > 0
    ensures Low(x, n) % 2 == x % 2 && Low(x, n) / 2 == Low(x / 2, n - 1)
  {
  }

  lemma LowZero(x: nat)
    ensures Low(x, 0) == 0 && Xor(0, 0) == 0
  {
  }

  lemma {:induction false} LowXor(x: nat, y: nat, n: nat)
    ensures Low(Xor(x, y), n) == Xor(Low(x, n), Low(y, n))
  {
    hide Low, Xor;
    if n == 0 {
      LowZero(x);
      LowZero(y);
      LowZero(Xor(x, y));
    } else {
      LowXor(x / 2, y / 2, n - 1);
      XorHalves(x, y);
      XorHalves(Low(x, n), Low(y, n));
      LowHalves(x, n);
      LowHalves(y, n);
      LowHalves(Xor(x, y), n);
    }
  }

  lemma {:induction false} ShlXor(x: nat, y: nat, n: nat)
    ensures Shl(Xor(x, y), n) == Xor(Shl(x, n), Shl(y, n))
  {
    hide Xor;
    if n > 0 {
      ShlXor(x, y, n - 1);
      XorHalves(Shl(x, n), Shl(y, n));
    }
  }

  lemma {:induction false} LowShl(x: nat, m: nat, n: nat)
    requires m <= n
    ensures Low(Shl(x, m), n) == Shl(Low(x, n - m), m)
  {
    if m > 0 {
      LowShl(x, m - 1, n - 1);
    }
  }

  lemma {:induction false} ShlShl(x: nat, m: nat, n: nat)
    ensures Shl(Shl(x, m), n) == Shl(x, m + n)
  {
    if n > 0 {
      ShlShl(x, m, n - 1);
    }
  }

  lemma {:induction false} LowLow(x: nat, m: nat, n: nat)
    requires n <= m
    ensures Low(Low(x, m), n) == Low(x, n)
  {
    if n > 0 {
      LowLow(x / 2, m - 1, n - 1);
    }
  }

  /** The first round of the rolling loop starts from the hash of two bytes. */
  lemma FirstHash(a: Byte, b: Byte, c: Byte)
    ensures Low(Xor(Shl(Xor(Shl(a, 5), b), 5), c), 15) == Hash3(a, b, c)
  {
    hide Xor, Shl, Low;
    ShlXor(Shl(a, 5), b, 5);
    ShlShl(a, 5, 5);
  }

  /** Every other round drops the oldest byte and takes in the next. */
  lemma RollHash(a: Byte, b: Byte, c: Byte, d: Byte)
    ensures Low(Xor(Shl(Hash3(a, b, c), 5), d), 15) == Hash3(b, c, d)
  {
    hide Xor, Shl, Low;
    var x := Xor(Xor(Shl(a, 10), Shl(b, 5)), c);
    LowXor(Shl(Low(x, 15), 5), d, 15);
    LowShl(Low(x, 15), 5, 15);
    LowLow(x, 15, 10);
    assert Low(Shl(Low(x, 15), 5), 15) == Shl(Low(x, 10), 5);
    LowXor(Xor(Shl(a, 10), Shl(b, 5)), c, 10);
    LowXor(Shl(a, 10), Shl(b, 5), 10);
    LowShl(a, 10, 10);
    NoneLow(a, 10);
    assert Low(x, 10) == Xor(Low(Shl(b, 5), 10), Low(c, 10));
    ShlXor(Low(Shl(b, 5), 10), Low(c, 10), 5);
    LowShl(Shl(b, 5), 5, 15);
    LowShl(c, 5, 15);
    ShlShl(b, 5, 5);
    LowXor(Xor(Shl(b, 10), Shl(c, 5)), d, 15);
    LowXor(Shl(b, 10), Shl(c, 5), 15);
  }

  lemma NoneLow(a: nat, n: nat)
    ensures Low(a, 0) == 0 && Shl(0, n) == 0 && forall y: nat :: Xor(0, y) == y
  {
    forall y: nat
      ensures Xor(0, y) == y
    {
      XorZero(y);
    }
    ShlIsMul(0, n);
  }

  lemma {:induction false} XorZero(y: nat)
    ensures Xor(0, y) == y
  {
    if y > 0 {
      XorZero(y / 2);
    }
  }

  // ----- the chains -----

  /** The hash of a position is that of the three bytes that start there. */
  function HashAt(input: seq<Byte>, a: nat): (h: nat)
    requires a + 2 < |input|
    ensures h < HASH_SIZE
  {
    Hash3(input[a], input[a + 1], input[a + 2])
  }

  /** The last position before n, but not before `base`, with hash h; -1 if there is none. */
  function Last(input: seq<Byte>, base: nat, n: nat, h: nat): (r: int)
    requires base < n ==> n + 1 < |input|
    ensures -1 <= r < n && (r >= 0 ==> base <= r)
    decreases n
  {
    if n <= base then -1 else if HashAt(input, n - 1) == h then n - 1 else Last(input, base, n - 1, h)
  }

  lemma {:induction false} LastIs(input: seq<Byte>, base: nat, n: nat, h: nat)
    requires base < n ==> n + 1 < |input|
    ensures var r := Last(input, base, n, h);
      (r >= 0 ==> HashAt(input, r) == h) && forall b :: base <= b < n && r < b ==> HashAt(input, b) != h
    decreases n
  {
    hide Hash3;
    if n > base && HashAt(input, n - 1) != h {
      LastIs(input, base, n - 1, h);
    }
  }

  /** How a position is stored: 16 bits of it, and 0 for none. */
  function Entry(r: int): nat {
    if r < 0 then 0 else r % 65536
  }

  /** The positions that have all three bytes are those from `base` to here. */
  function HashedEnd(input: seq<Byte>, base: nat): nat {
    Max(base, |input| - 2)
  }

  /** The link of position a. */
  ghost predicate LinkAt(next: seq<nat>, input: seq<Byte>, base: nat, a: nat) {
    && |next| == LZ_DICT_SIZE && base <= a < HashedEnd(input, base)
    && next[a % LZ_DICT_SIZE] == Entry(Last(input, base, a, HashAt(input, a)))
  }

  /** The start of the chain for hash h. */
  ghost predicate HeadAt(hash: seq<nat>, input: seq<Byte>, base: nat, h: nat) {
    && |hash| == HASH_SIZE && h < HASH_SIZE
    && hash[h] == Entry(Last(input, base, HashedEnd(input, base), h))
  }

  /** Every position that has not been overwritten leads to the one before it with the same hash. */
  ghost predicate Linked(next: seq<nat>, hash: seq<nat>, input: seq<Byte>, base: nat) {
    && |next| == LZ_DICT_SIZE && |hash| == HASH_SIZE
    && (forall a: nat :: base <= a < HashedEnd(input, base) && HashedEnd(input, base) - LZ_DICT_SIZE <= a ==>
          LinkAt(next, input, base, a))
    && (forall h: nat :: h < HASH_SIZE ==> HeadAt(hash, input, base, h))
  }

  lemma {:induction false} LastMore(input: seq<Byte>, c: Byte, base: nat, n: nat, h: nat)
    requires base < n ==> n + 1 < |input|
    ensures Last(input + [c], base, n, h) == Last(input, base, n, h)
    decreases n
  {
    hide Hash3;
    if n > base {
      LastMore(input, c, base, n - 1, h);
    }
  }

  /** With less than three bytes there is nothing to enter. */
  lemma NothingEntered(next: seq<nat>, hash: seq<nat>, input: seq<Byte>, base: nat, c: Byte)
    requires Linked(next, hash, input, base) && |input| - 1 <= base
    ensures Linked(next, hash, input + [c], base)
  {
    hide Hash3;
    forall h: nat | h < HASH_SIZE
      ensures HeadAt(hash, input + [c], base, h)
    {
      assert HeadAt(hash, input, base, h);
    }
  }

  /** What entering a position does. */
  ghost predicate Entered(next: seq<nat>, hash: seq<nat>, next2: seq<nat>, hash2: seq<nat>, h: nat, a: nat) {
    && |next| == |next2| == LZ_DICT_SIZE && |hash| == |hash2| == HASH_SIZE && h < HASH_SIZE
    && next2 == next[a % LZ_DICT_SIZE := hash[h]] && hash2 == hash[h := a % 65536]
  }

  /** With the next byte, the position two before it is entered. */
  lemma PositionEntered(next: seq<nat>, hash: seq<nat>, input: seq<Byte>, base: nat, c: Byte, next2: seq<nat>,
    hash2: seq<nat>)
    requires Linked(next, hash, input, base) && |input| >= base + 2
    requires Entered(next, hash, next2, hash2, HashAt(input + [c], |input| - 2), |input| - 2)
    ensures Linked(next2, hash2, input + [c], base)
  {
    hide Hash3;
    var more, p := input + [c], |input| - 2;
    var h := HashAt(more, p);
    assert HeadAt(hash, input, base, h);
    forall a: nat | base <= a < HashedEnd(more, base) && HashedEnd(more, base) - LZ_DICT_SIZE <= a
      ensures LinkAt(next2, more, base, a)
    {
      LastMore(input, c, base, a, HashAt(more, a));
      if a < p {
        assert LinkAt(next, input, base, a);
        OtherSlot(a, p);
      }
    }
    forall k: nat | k < HASH_SIZE
      ensures HeadAt(hash2, more, base, k)
    {
      assert HeadAt(hash, input, base, k);
      LastMore(input, c, base, p, k);
    }
  }

  lemma OtherSlot(a: nat, b: nat)
    requires a < b < a + LZ_DICT_SIZE
    ensures a % LZ_DICT_SIZE != b % LZ_DICT_SIZE
  {
  }

  /** Cleared tables are right when nothing has been entered. */
  lemma ClearedLinks(next: seq<nat>, hash: seq<nat>, input: seq<Byte>, base: nat)
    requires |next| == LZ_DICT_SIZE && |hash| == HASH_SIZE && |input| <= base + 2
    requires forall h :: 0 <= h < HASH_SIZE ==> hash[h] == 0
    ensures Linked(next, hash, input, base)
  {
  }
}
