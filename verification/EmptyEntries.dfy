/** Codes that leave table entries empty, and a stream that comes upon one. */
module EmptyEntries {
  import opened Bits
  import opened Canonical
  import opened Decoding
  import opened LzSymbols
  import opened InflateSpec

  /** Code lengths that use no symbol. */
  predicate NoCodes(z: seq<nat>) {
    forall i :: 0 <= i < |z| ==> z[i] == 0
  }

  lemma NothingStarts(z: seq<nat>, b: seq<bool>)
    requires NoCodes(z)
    ensures NextSymbol(z, b) == if |b| < MAX_CODE_SIZE then NeedBits else NoEntry
  {
  }

  lemma {:induction false} NoneUsed(z: seq<nat>, n: nat)
    requires NoCodes(z) && n <= |z|
    ensures Used(z, n) == 0
  {
    if n > 0 {
      NoneUsed(z, n - 1);
    }
  }

  /** A block without distance codes: with 15 bits behind it, every match in it is from distance 1. */
  lemma EmptyDistances(w: Window, lit: seq<nat>, dst: seq<nat>, len: nat, bits: seq<bool>, out: seq<Byte>)
    requires NoCodes(dst) && |bits| >= MAX_CODE_SIZE
    ensures DistCode(w, lit, dst, len, bits, out)
         == if CanCopy(w, out, 1) then Loosen(Symbols(w, lit, dst, bits, Copy(w, out, len, 1))) else Failed
  {
    hide NextSymbol, CanCopy, Copy, Symbols;
    NothingStarts(dst, bits);
    assert bits[..0] == [] && bits[0..] == bits;
  }

  /** With fewer the decompressor waits. */
  lemma EmptyDistancesWait(w: Window, lit: seq<nat>, dst: seq<nat>, len: nat, bits: seq<bool>, out: seq<Byte>)
    requires NoCodes(dst) && |bits| < MAX_CODE_SIZE
    ensures DistCode(w, lit, dst, len, bits, out) == Truncated
  {
    hide NextSymbol;
    NothingStarts(dst, bits);
  }

  /** A block without literal codes. */
  lemma EmptyLiterals(w: Window, lit: seq<nat>, dst: seq<nat>, bits: seq<bool>, out: seq<Byte>)
    requires NoCodes(lit) && |bits| >= MAX_CODE_SIZE
    ensures Symbols(w, lit, dst, bits, out) == BadCode(out, bits)
  {
    hide NextSymbol;
    NothingStarts(lit, bits);
  }

  /** A code length code without codes: all lengths that are still to come are 0. */
  lemma {:induction false} EmptyLengths(w: Window, counts: seq<nat>, z: seq<nat>, got: seq<nat>, bits: seq<bool>,
    out: seq<Byte>)
    requires |counts| == 3 && NoCodes(z) && NoCodes(got) && |got| <= counts[0] + counts[1] && |bits| >= MAX_CODE_SIZE
    ensures CodeLengths(w, counts, z, got, bits, out) == BadCode(out, bits)
    decreases counts[0] + counts[1] - |got|
  {
    hide NextSymbol, Acceptable, RepeatCount;
    if |got| < counts[0] + counts[1] {
      NothingStarts(z, bits);
      EmptyLengths(w, counts, z, got + [0], bits, out);
    } else {
      var lit, dst := got[..counts[0]], got[counts[0]..];
      EmptyAcceptable(lit);
      EmptyAcceptable(dst);
      EmptyLiterals(w, lit, dst, bits, out);
    }
  }

  lemma EmptyAcceptable(z: seq<nat>)
    requires NoCodes(z)
    ensures Acceptable(z)
  {
    NoneUsed(z, |z|);
  }

  // ----- complete codes -----

  /** The outcome owes nothing to an empty entry. */
  predicate Plain(r: Outcome) {
    !r.BadCode? && !r.EndedLoosely?
  }

  /** A block with complete codes never comes upon an empty entry, whatever its bits are. */
  lemma {:induction false} CompleteSymbols(w: Window, lit: seq<nat>, dst: seq<nat>, bits: seq<bool>, out: seq<Byte>)
    requires Complete(lit) && Complete(dst)
    ensures Plain(Symbols(w, lit, dst, bits, out))
    decreases |bits|, 0
  {
    hide NextSymbol, LengthExtra, LengthBase, LengthBits, Complete;
    CompleteNext(lit, bits);
    if NextSymbol(lit, bits).Sym? {
      var s, rest := NextSymbol(lit, bits).s, bits[NextSymbol(lit, bits).len..];
      if s < 256 {
        CompleteSymbols(w, lit, dst, rest, out + [s]);
      } else if s > 256 {
        CompleteLength(w, lit, dst, LengthExtra(s - 257), LengthBase(s - 257), rest, out);
      }
    }
  }

  lemma {:induction false} CompleteLength(w: Window, lit: seq<nat>, dst: seq<nat>, num: nat, base: nat,
    bits: seq<bool>, out: seq<Byte>)
    requires Complete(lit) && Complete(dst)
    ensures Plain(LengthBits(w, lit, dst, num, base, bits, out))
    decreases |bits|, 2
  {
    hide FromBits, NextSymbol, DistExtraBits, DistBase, DistBits, Complete;
    if |bits| >= num {
      var rest := bits[num..];
      CompleteNext(dst, rest);
      if NextSymbol(dst, rest).Sym? {
        var s := NextSymbol(dst, rest).s;
        CompleteDistance(w, lit, dst, base + FromBits(bits[..num]), DistExtraBits(s), DistBase(s),
          rest[NextSymbol(dst, rest).len..], out);
      }
    }
  }

  lemma {:induction false} CompleteDistance(w: Window, lit: seq<nat>, dst: seq<nat>, len: nat, num: nat, base: nat,
    bits: seq<bool>, out: seq<Byte>)
    requires Complete(lit) && Complete(dst)
    ensures Plain(DistBits(w, lit, dst, len, num, base, bits, out))
    decreases |bits|, 1
  {
    hide FromBits, Symbols, CanCopy, Copy, Complete;
    if |bits| >= num && CanCopy(w, out, base + FromBits(bits[..num])) {
      CompleteSymbols(w, lit, dst, bits[num..], Copy(w, out, len, base + FromBits(bits[..num])));
    }
  }

  // ----- such a stream -----

  lemma {:induction false} ZeroBytes(n: nat)
    ensures ByteBits(seq(n, _ => 0)) == Zeros(8 * n)
  {
    if n > 0 {
      ZeroBytes(n - 1);
      var zeros: seq<Byte> := seq(n, _ => 0);
      assert zeros[1..] == seq(n - 1, _ => 0);
      ZeroField(8);
      assert Zeros(8) + Zeros(8 * (n - 1)) == Zeros(8 * n);
    }
  }

  lemma {:induction false} ZeroField(n: nat)
    ensures ToBits(0, n) == Zeros(n) && FromBits(Zeros(n)) == 0
  {
    if n > 0 {
      ZeroField(n - 1);
      assert Zeros(n)[1..] == Zeros(n - 1);
    }
  }

  lemma ZeroSplit(n: nat, k: nat)
    requires k <= n
    ensures Zeros(n)[..k] == Zeros(k) && Zeros(n)[k..] == Zeros(n - k) && FromBits(Zeros(n)[..k]) == 0
  {
    ZeroField(k);
    assert Zeros(n)[..k] == Zeros(k) && Zeros(n)[k..] == Zeros(n - k);
  }

  lemma {:induction false} ZeroSizes(w: Window, counts: seq<nat>, got: seq<nat>, n: nat, out: seq<Byte>)
    requires |counts| == 3 && |got| <= counts[2] <= 19 && NoCodes(got) && n >= 3 * (counts[2] - |got|) + MAX_CODE_SIZE
    ensures DynamicSizes(w, counts, got, Zeros(n), out) == BadCode(out, Zeros(n - 3 * (counts[2] - |got|)))
    decreases counts[2] - |got|
  {
    hide Acceptable, Dezigzag, CodeLengths, FromBits;
    if |got| < counts[2] {
      ZeroSplit(n, 3);
      ZeroSizes(w, counts, got + [0], n - 3, out);
    } else {
      ZeroDezigzag(got, |got|);
      EmptyAcceptable(Dezigzag(got, |got|));
      EmptyLengths(w, counts, Dezigzag(got, |got|), [], Zeros(n), out);
    }
  }

  lemma {:induction false} ZeroDezigzag(got: seq<nat>, n: nat)
    requires n <= |got| && NoCodes(got)
    ensures NoCodes(Dezigzag(got, n))
  {
    if n > 0 {
      ZeroDezigzag(got, n - 1);
    }
  }

  lemma ZeroCount(w: Window, known: seq<nat>, n: nat, out: seq<Byte>)
    requires |known| < 3 && n >= 5
    ensures DynamicCounts(w, known, Zeros(n), out)
         == DynamicCounts(w, known + [HeaderMin(|known|)], Zeros(n - HeaderBits(|known|)), out)
  {
    hide DynamicSizes, FromBits;
    ZeroSplit(n, HeaderBits(|known|));
  }

  /** A final block with codes of its own, and nothing but zeros behind its type: no code has a symbol. */
  lemma ZeroBlock(w: Window, n: nat)
    requires n >= 6
    ensures var zeros: seq<Byte> := seq(n, _ => 0);
      Inflate(w, ByteBits([5] + zeros)) == BadCode([], Zeros(8 * n - 21))
  {
    hide DynamicCounts, FromBits;
    var zeros: seq<Byte> := seq(n, _ => 0);
    var bits := ByteBits([5] + zeros);
    ZeroBytes(n);
    assert ([5] + zeros)[1..] == zeros;
    FiveBits();
    assert bits == ToBits(5, 8) + Zeros(8 * n);
    assert bits[3..] == Zeros(8 * n + 5);
    assert bits[1..3] == [false, true];
    var k := 8 * n + 5;
    ZeroCount(w, [], k, []);
    ZeroCount(w, [257], k - 5, []);
    ZeroCount(w, [257, 1], k - 10, []);
    assert [] + [HeaderMin(0)] == [257] && [257] + [HeaderMin(1)] == [257, 1]
      && [257, 1] + [HeaderMin(2)] == [257, 1, 4];
    ZeroHeader(w, k - 14);
  }

  lemma ZeroHeader(w: Window, n: nat)
    requires n >= 27
    ensures DynamicCounts(w, [257, 1, 4], Zeros(n), []) == BadCode([], Zeros(n - 12))
  {
    ZeroSizes(w, [257, 1, 4], [], n, []);
  }

  lemma FiveBits()
    ensures ToBits(5, 8) == [true, false, true] + Zeros(5) && FromBits([false, true]) == 2
  {
    ZeroField(5);
    assert ToBits(5, 8) == [true] + ToBits(2, 7) && ToBits(2, 7) == [false] + ToBits(1, 6);
    assert ToBits(1, 6) == [true] + ToBits(0, 5);
    assert [false, true][1..] == [true] && [true][1..] == [];
  }
}
