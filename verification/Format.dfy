/** The format in numbers: which bits and bytes mean what, for each kind of block, as section 3.2 of RFC 1951 gives
    them.  Nothing here is stated by the functions that the compressor and the decompressor share. */
module Format {
  import opened Bits
  import opened Canonical
  import opened Decoding
  import opened LzSymbols
  import opened InflateSpec
  import opened BlockSpec
  import opened BlockStream
  import opened StaticCodes

  lemma FirstByte(v: Byte, rest: seq<Byte>)
    ensures ByteBits([v] + rest) == ToBits(v, 8) + ByteBits(rest)
  {
    assert ([v] + rest)[1..] == rest;
  }

  lemma {:induction false} ZeroWord(n: nat)
    ensures MsbBits(0, n) == Zeros(n)
  {
    if n > 0 {
      ZeroWord(n - 1);
    }
  }

  lemma ThreeZero()
    ensures ByteBits([3, 0]) == [true] + ToBits(1, 2) + (Zeros(7) + Zeros(6))
  {
    hide ByteBits, ToBits;
    FirstByte(3, [0]);
    FirstByte(0, []);
    assert [3] + [0] == [3, 0] && [0] + [] == [0];
    FirstOctets();
    NoBytes();
  }

  lemma FirstOctets()
    ensures ToBits(0, 8) == Zeros(8) && ToBits(1, 8) == [true, false, false] + Zeros(5)
    ensures ToBits(3, 8) == [true, true, false] + Zeros(5)
  {
  }

  lemma NoBytes()
    ensures ByteBits([]) == [] && ToBits(1, 2) == [true, false] && ToBits(0, 2) == [false, false]
      && ToBits(2, 2) == [false, true]
  {
  }

  /** The stream of no bytes at all: a final block with the fixed codes, and seven zeros for the end of the block. */
  lemma EmptyStream(w: Window)
    ensures Inflate(w, ByteBits([3, 0])) == Ended([], [])
  {
    hide Symbols, ByteBits, Blocks, StaticLit, StaticDist;
    ThreeZero();
    FixedEnd(w, Zeros(6), []);
    BlocksStep(w, true, 1, Zeros(7) + Zeros(6), []);
  }

  lemma Complement(n: nat)
    requires n < 65536
    ensures (65535 - n) % 256 == 255 - n % 256 && (65535 - n) / 256 == 255 - n / 256
  {
    DivUnique(65535 - n, 256, 255 - n / 256, 255 - n % 256);
  }

  /** The bits of the two words, as the bytes a, b, c and d. */
  ghost predicate Words(n: nat, a: Byte, b: Byte, c: Byte, d: Byte) {
    && n < 65536 && ToBits(n, 16) == ToBits(a, 8) + ToBits(b, 8)
    && ToBits(65535 - n, 16) == ToBits(c, 8) + ToBits(d, 8)
  }

  lemma AreWords(n: nat)
    requires n < 65536
    ensures Words(n, n % 256, n / 256, 255 - n % 256, 255 - n / 256)
  {
    hide ToBits;
    WordBits(n);
    Complement(n);
    WordBits(65535 - n);
  }

  lemma RawParts(data: seq<Byte>, a: Byte, b: Byte, c: Byte, d: Byte)
    requires Words(|data|, a, b, c, d)
    ensures PadBits(3) + RawBits(data)
         == Zeros(5) + (ToBits(a, 8) + ToBits(b, 8)) + (ToBits(c, 8) + ToBits(d, 8)) + ByteBits(data)
  {
    hide ToBits, ByteBits, Zeros, PadBits;
    FivePad();
    Regroup(Zeros(5), ToBits(|data|, 16), ToBits(65535 - |data|, 16), ByteBits(data));
  }

  lemma FivePad()
    ensures PadBits(3) == Zeros(5)
  {
  }

  lemma Regroup(p: seq<bool>, a: seq<bool>, b: seq<bool>, c: seq<bool>)
    ensures p + (a + b + c) == p + a + b + c
  {
  }

  lemma StoredAs(w: Window, data: seq<Byte>, a: Byte, b: Byte, c: Byte, d: Byte)
    requires Words(|data|, a, b, c, d)
    ensures Inflate(w, ByteBits([1, a, b, c, d] + data)) == Ended(data, [])
  {
    hide ByteBits, ToBits, Blocks, InflateSpec.Block, RawBits, PadBits;
    StoredBits(a, b, c, d, data);
    RawParts(data, a, b, c, d);
    var bits := PadBits(3) + RawBits(data);
    assert bits + [] == bits;
    RawRoundTrip(w, data, 3, [], []);
    BlocksStep(w, true, 0, bits, []);
    assert [] + data == data;
  }

  /** A stored block: after its type and the padding the length, low byte first, its complement, and the bytes. */
  lemma StoredStream(w: Window, data: seq<Byte>, lo: Byte, hi: Byte, c: Byte, d: Byte)
    requires |data| == lo + 256 * hi && lo + c == 255 && hi + d == 255
    ensures Inflate(w, ByteBits([1, lo, hi, c, d] + data)) == Ended(data, [])
  {
    hide *;
    DivUnique(|data|, 256, hi, lo);
    AreWords(|data|);
    StoredAs(w, data, lo, hi, c, d);
  }

  /** If the complement is wrong, the stream is refused. */
  lemma WrongComplement(w: Window, a: Byte, b: Byte, c: Byte, d: Byte, data: seq<Byte>)
    requires a + 256 * b + c + 256 * d != 65535
    ensures Inflate(w, ByteBits([1, a, b, c, d] + data)) == Failed
  {
    hide ByteBits, ToBits, StoredHeader, Align;
    StoredBits(a, b, c, d, data);
    var rest := ByteBits(data);
    var bits := Zeros(5) + (ToBits(a, 8) + ToBits(b, 8)) + (ToBits(c, 8) + ToBits(d, 8)) + rest;
    AfterPadding(ToBits(a, 8) + (ToBits(b, 8) + (ToBits(c, 8) + (ToBits(d, 8) + rest))));
    assert bits == Zeros(5) + (ToBits(a, 8) + (ToBits(b, 8) + (ToBits(c, 8) + (ToBits(d, 8) + rest))));
    FourBytes(a, b, c, d, rest, []);
    Refused(w, [true] + ToBits(0, 2) + bits, true, 0, bits);
  }

  lemma AfterPadding(bits: seq<bool>)
    requires |bits| % 8 == 0
    ensures Align(Zeros(5) + bits) == bits
  {
  }

  lemma FourBytes(a: Byte, b: Byte, c: Byte, d: Byte, rest: seq<bool>, out: seq<Byte>)
    requires Word(a, b) + Word(c, d) != 65535
    ensures StoredHeader([], ToBits(a, 8) + (ToBits(b, 8) + (ToBits(c, 8) + (ToBits(d, 8) + rest))), out) == Failed
  {
    hide ToBits, StoredBytes, StoredHeader;
    StoredByte([], a, ToBits(b, 8) + (ToBits(c, 8) + (ToBits(d, 8) + rest)), out);
    StoredByte([a], b, ToBits(c, 8) + (ToBits(d, 8) + rest), out);
    StoredByte([a, b], c, ToBits(d, 8) + rest, out);
    StoredByte([a, b, c], d, rest, out);
    assert [] + [a] == [a] && [a] + [b] == [a, b] && [a, b] + [c] == [a, b, c] && [a, b, c] + [d] == [a, b, c, d];
    Unequal(a, b, c, d, rest, out);
  }

  lemma Unequal(a: Byte, b: Byte, c: Byte, d: Byte, rest: seq<bool>, out: seq<Byte>)
    requires Word(a, b) + Word(c, d) != 65535
    ensures StoredHeader([a, b, c, d], rest, out) == Failed
  {
  }

  /** A block that is refused is the end of the stream. */
  lemma Refused(w: Window, bits: seq<bool>, final: bool, kind: nat, more: seq<bool>)
    requires kind < 4 && bits == [final] + ToBits(kind, 2) + more && InflateSpec.Block(w, kind, more, []) == Failed
    ensures Inflate(w, bits) == Failed
  {
    assert bits[1..3] == ToBits(kind, 2) && bits[3..] == more && bits[0] == final;
    FromToBits(kind, 2);
    Pow2Values();
    LowSmall(kind, 2);
    hide ToBits, FromBits, Low, InflateSpec.Block, Align;
  }

  /** The block type 3 is reserved. */
  lemma ReservedType(w: Window, final: bool, more: seq<bool>)
    ensures Inflate(w, [final, true, true] + more) == Failed
  {
    assert ToBits(3, 2) == [true, true];
    hide ToBits, Inflate;
    assert [final] + ToBits(3, 2) + more == [final, true, true] + more;
    Refused(w, [final, true, true] + more, final, 3, more);
  }

  lemma StoredBits(a: Byte, b: Byte, c: Byte, d: Byte, data: seq<Byte>)
    ensures ByteBits([1, a, b, c, d] + data)
         == [true] + ToBits(0, 2) + (Zeros(5) + (ToBits(a, 8) + ToBits(b, 8)) + (ToBits(c, 8) + ToBits(d, 8))
                                     + ByteBits(data))
  {
    hide ByteBits, ToBits;
    FirstByte(1, [a, b, c, d] + data);
    FirstByte(a, [b, c, d] + data);
    FirstByte(b, [c, d] + data);
    FirstByte(c, [d] + data);
    FirstByte(d, data);
    assert [1, a, b, c, d] + data == [1] + ([a, b, c, d] + data);
    assert [a, b, c, d] + data == [a] + ([b, c, d] + data);
    assert [b, c, d] + data == [b] + ([c, d] + data);
    assert [c, d] + data == [c] + ([d] + data);
    FirstOctets();
    NoBytes();
  }

  // ----- fixed codes -----

  /** The fixed code word of a literal or length symbol (section 3.2.6). */
  function FixedWord(s: nat): seq<bool> {
    if s <= 143 then MsbBits(48 + s, 8)
    else if s <= 255 then MsbBits(400 + s - 144, 9)
    else if s <= 279 then MsbBits(s - 256, 7)
    else MsbBits(192 + s - 280, 8)
  }

  lemma ReadFixed(s: nat, rest: seq<bool>)
    requires s < 288
    ensures NextSymbol(StaticLit(), FixedWord(s) + rest) == Sym(s, |FixedWord(s)|)
      && (FixedWord(s) + rest)[|FixedWord(s)|..] == rest
  {
    hide CodeWord, Fits, NextSymbol, Complete, Acceptable;
    StaticLitComplete();
    AcceptableFits(StaticLit());
    LitWord(s);
    ReadCode(StaticLit(), s, rest);
  }

  lemma ReadFixedDist(j: nat, rest: seq<bool>)
    requires j < 32
    ensures NextSymbol(StaticDist(), MsbBits(j, 5) + rest) == Sym(j, 5) && (MsbBits(j, 5) + rest)[5..] == rest
  {
    hide CodeWord, Fits, NextSymbol, Complete, Acceptable;
    StaticDistComplete();
    AcceptableFits(StaticDist());
    DistWord(j);
    ReadCode(StaticDist(), j, rest);
  }

  /** A byte in a block with the fixed codes. */
  lemma FixedLiteral(w: Window, b: Byte, rest: seq<bool>, out: seq<Byte>)
    ensures Symbols(w, StaticLit(), StaticDist(), FixedWord(b) + rest, out)
         == Symbols(w, StaticLit(), StaticDist(), rest, out + [b])
  {
    hide NextSymbol, FixedWord, StaticLit, StaticDist;
    ReadFixed(b, rest);
  }

  /** The end of such a block. */
  lemma FixedEnd(w: Window, rest: seq<bool>, out: seq<Byte>)
    ensures Symbols(w, StaticLit(), StaticDist(), Zeros(7) + rest, out) == Ended(out, rest)
  {
    hide NextSymbol, StaticLit, StaticDist;
    ZeroWord(7);
    ReadFixed(256, rest);
  }

  /** A match: the length symbol and its extra bits, then the distance symbol and its extra bits, all of the numbers of
      the tables of section 3.2.5. */
  lemma FixedMatch(w: Window, k: nat, e: nat, j: nat, f: nat, rest: seq<bool>, out: seq<Byte>)
    requires k < 29 && e < Pow2(LengthExtra(k)) && j < 30 && f < Pow2(DistExtraBits(j))
    ensures Symbols(w, StaticLit(), StaticDist(), FixedWord(257 + k) + (ToBits(e, LengthExtra(k))
                    + (MsbBits(j, 5) + (ToBits(f, DistExtraBits(j)) + rest))), out)
         == if CanCopy(w, out, DistBase(j) + f)
            then Symbols(w, StaticLit(), StaticDist(), rest, Copy(w, out, LengthBase(k) + e, DistBase(j) + f))
            else Failed
  {
    hide *;
    var d := ToBits(f, DistExtraBits(j)) + rest;
    var b := ToBits(e, LengthExtra(k)) + (MsbBits(j, 5) + d);
    ReadFixed(257 + k, b);
    AfterSymbol(w, k, FixedWord(257 + k) + b, b, out);
    LowSmall(e, LengthExtra(k));
    ReadBits(e, LengthExtra(k), MsbBits(j, 5) + d);
    AfterLength(w, LengthExtra(k), LengthBase(k), e, b, MsbBits(j, 5) + d, out);
    ReadFixedDist(j, d);
    AfterDist(w, LengthBase(k) + e, j, MsbBits(j, 5) + d, d, out);
    LowSmall(f, DistExtraBits(j));
    ReadBits(f, DistExtraBits(j), rest);
    AfterBits(w, LengthBase(k) + e, DistExtraBits(j), DistBase(j), f, d, rest, out);
  }

  lemma AfterSymbol(w: Window, k: nat, bits: seq<bool>, rest: seq<bool>, out: seq<Byte>)
    requires NextSymbol(StaticLit(), bits).Sym? && NextSymbol(StaticLit(), bits).s == 257 + k
    requires bits[NextSymbol(StaticLit(), bits).len..] == rest
    ensures Symbols(w, StaticLit(), StaticDist(), bits, out)
         == LengthBits(w, StaticLit(), StaticDist(), LengthExtra(k), LengthBase(k), rest, out)
  {
    hide NextSymbol, StaticLit, StaticDist, LengthBits, LengthExtra, LengthBase;
  }

  lemma AfterLength(w: Window, n: nat, base: nat, e: nat, bits: seq<bool>, rest: seq<bool>, out: seq<Byte>)
    requires |bits| >= n && FromBits(bits[..n]) == e && bits[n..] == rest
    ensures LengthBits(w, StaticLit(), StaticDist(), n, base, bits, out)
         == DistCode(w, StaticLit(), StaticDist(), base + e, rest, out)
  {
    hide StaticLit, StaticDist, DistCode, FromBits;
  }

  lemma AfterDist(w: Window, len: nat, j: nat, bits: seq<bool>, rest: seq<bool>, out: seq<Byte>)
    requires NextSymbol(StaticDist(), bits).Sym? && NextSymbol(StaticDist(), bits).s == j
    requires bits[NextSymbol(StaticDist(), bits).len..] == rest
    ensures DistCode(w, StaticLit(), StaticDist(), len, bits, out)
         == DistBits(w, StaticLit(), StaticDist(), len, DistExtraBits(j), DistBase(j), rest, out)
  {
    hide NextSymbol, StaticLit, StaticDist, DistBits, DistExtraBits, DistBase;
  }

  lemma AfterBits(w: Window, len: nat, n: nat, base: nat, f: nat, bits: seq<bool>, rest: seq<bool>, out: seq<Byte>)
    requires |bits| >= n && FromBits(bits[..n]) == f && bits[n..] == rest
    ensures DistBits(w, StaticLit(), StaticDist(), len, n, base, bits, out)
         == if CanCopy(w, out, base + f)
            then Symbols(w, StaticLit(), StaticDist(), rest, Copy(w, out, len, base + f)) else Failed
  {
    hide StaticLit, StaticDist, Symbols, FromBits, CanCopy, Copy;
  }

  // ----- dynamic codes -----

  /** The order in which the code length code lengths are sent (section 3.2.7). */
  lemma ZigzagOrder()
    ensures seq(19, (i: nat) => Zigzag(i)) == [16, 17, 18, 0, 8, 7, 9, 6, 10, 5, 11, 4, 12, 3, 13, 2, 14, 1, 15]
  {
  }

  /** The header of a block with its own codes: the type, and the three counts, of 5, 5 and 4 bits, of literal/length
      codes from 257, of distance codes from 1, and of code length codes from 4. */
  lemma DynamicFields(w: Window, final: bool, a: nat, b: nat, c: nat, rest: seq<bool>, out: seq<Byte>)
    requires a < 32 && b < 32 && c < 16
    ensures var r := DynamicSizes(w, [a + 257, b + 1, c + 4], [], rest, out);
      r.Ended? ==>
        Blocks(w, [final, false, true] + (ToBits(a, 5) + (ToBits(b, 5) + (ToBits(c, 4) + rest))), out)
        == if final then Ended(r.out, Align(r.rest)) else Blocks(w, r.rest, r.out)
  {
    hide DynamicSizes, ToBits, Blocks, DynamicCounts, Align;
    var more := ToBits(a, 5) + (ToBits(b, 5) + (ToBits(c, 4) + rest));
    ReadFields(w, a, b, c, rest, out);
    NoBytes();
    BlocksStep(w, final, 2, more, out);
    assert [final] + ToBits(2, 2) + more == [final, false, true] + more;
  }

  /** The three repeat codes: two bits and the length before, 3 to 6 times; three bits and 3 to 10 zeros; seven bits and
      11 to 138 zeros. */
  lemma DynamicRepeat(w: Window, counts: seq<nat>, z: seq<nat>, got: seq<nat>, v: nat, rest: seq<bool>, out: seq<Byte>)
    requires |counts| == 3
    ensures v < 4 && got != [] ==>
      RepeatCount(w, counts, z, got, 16, ToBits(v, 2) + rest, out)
      == CodeLengths(w, counts, z, got + Times(got[|got| - 1], v + 3), rest, out)
    ensures v < 8 ==>
      RepeatCount(w, counts, z, got, 17, ToBits(v, 3) + rest, out)
      == CodeLengths(w, counts, z, got + Times(0, v + 3), rest, out)
    ensures v < 128 ==>
      RepeatCount(w, counts, z, got, 18, ToBits(v, 7) + rest, out)
      == CodeLengths(w, counts, z, got + Times(0, v + 11), rest, out)
  {
    hide CodeLengths, ToBits, FromBits, Low, Pow2;
    Pow2Values();
    ReadBits(v, 2, rest);
    ReadBits(v, 3, rest);
    ReadBits(v, 7, rest);
    if v < 4 {
      LowSmall(v, 2);
    }
    if v < 8 {
      LowSmall(v, 3);
    }
    if v < 128 {
      LowSmall(v, 7);
    }
  }
}
