/** TDEFL_PUT_BITS: packing fields into the output buffer, least significant bit first. */
module BitWriter {
  import opened Bits

  /** TDEFL_OUT_BUF_SIZE for a code buffer of 64 KB, and the margin that is kept free behind it. */
  const OUT_BUF_SIZE: nat := 85196
  const OUT_BUF_END: nat := OUT_BUF_SIZE - 16

  /** What is in the buffer after `bits` have been put: all whole bytes that fit, with the rest still in the bit buffer.
      Bytes past the end are dropped. */
  ghost predicate Packed(bits: seq<bool>, buf: seq<Byte>, pos: nat, bitBuffer: nat, bitsIn: nat) {
    && |buf| == OUT_BUF_SIZE && bitsIn <= |bits| && (|bits| - bitsIn) % 8 == 0
    && pos == Min(OUT_BUF_END, (|bits| - bitsIn) / 8)
    && ByteBits(buf[..pos]) == bits[..8 * pos]
    && bitBuffer < Pow2(bitsIn) && ToBits(bitBuffer, bitsIn) == bits[|bits| - bitsIn..]
  }

  lemma PackedStart(buf: seq<Byte>, bitBuffer: nat, bitsIn: nat)
    requires |buf| == OUT_BUF_SIZE && bitBuffer < Pow2(bitsIn)
    ensures Packed(ToBits(bitBuffer, bitsIn), buf, 0, bitBuffer, bitsIn)
  {
  }

  lemma PackedBits(bits: seq<bool>, buf: seq<Byte>, pos: nat, bitBuffer: nat, bitsIn: nat)
    requires Packed(bits, buf, pos, bitBuffer, bitsIn)
    ensures bitBuffer < Pow2(bitsIn)
  {
  }

  lemma PackedPut(bits: seq<bool>, buf: seq<Byte>, pos: nat, bitBuffer: nat, bitsIn: nat, b: nat, l: nat)
    requires Packed(bits, buf, pos, bitBuffer, bitsIn) && b < Pow2(l)
    ensures Packed(bits + ToBits(b, l), buf, pos, Or(bitBuffer, Shl(b, bitsIn)), bitsIn + l)
  {
    hide *;
    PackedBits(bits, buf, pos, bitBuffer, bitsIn);
    AppendAbove(bitBuffer, bitsIn, b, l);
    PackedMore(bits, ToBits(b, l), buf, pos, bitBuffer, bitsIn, Or(bitBuffer, Shl(b, bitsIn)));
  }

  lemma PackedMore(bits: seq<bool>, more: seq<bool>, buf: seq<Byte>, pos: nat, bitBuffer: nat, bitsIn: nat, after: nat)
    requires Packed(bits, buf, pos, bitBuffer, bitsIn)
    requires after < Pow2(bitsIn + |more|) && ToBits(after, bitsIn + |more|) == ToBits(bitBuffer, bitsIn) + more
    ensures Packed(bits + more, buf, pos, after, bitsIn + |more|)
  {
    hide ToBits, Pow2, ByteBits;
    var n := |bits| - bitsIn;
    assert |bits + more| - (bitsIn + |more|) == n && 8 * pos <= n;
    assert (bits + more)[..8 * pos] == bits[..8 * pos];
    assert (bits + more)[n..] == bits[n..] + more;
  }

  /** `(mz_uint8)v` */
  function ToByte(v: nat): Byte {
    v % 256
  }

  lemma LowByte(v: nat)
    ensures ToByte(v) == Low(v, 8)
  {
    ShrLow(v, 8);
    ShlIsMul(Shr(v, 8), 8);
    Pow2Values();
  }

  /** One round of the byte loop. */
  lemma PackedByte(bits: seq<bool>, buf: seq<Byte>, pos: nat, bitBuffer: nat, bitsIn: nat)
    requires Packed(bits, buf, pos, bitBuffer, bitsIn) && bitsIn >= 8
    ensures pos >= OUT_BUF_END ==> Packed(bits, buf, pos, Shr(bitBuffer, 8), bitsIn - 8)
    ensures pos < OUT_BUF_END ==> Packed(bits, buf[pos := ToByte(bitBuffer)], pos + 1, Shr(bitBuffer, 8), bitsIn - 8)
  {
    ShiftMask(bitBuffer, bitsIn, 8);
    LowByte(bitBuffer);
    hide ToBits, FromBits, Shr, Low, Pow2, ByteBits, ToByte;
    var tail := bits[|bits| - bitsIn..];
    assert tail[8..] == bits[|bits| - (bitsIn - 8)..];
    if pos < OUT_BUF_END {
      assert |bits| - bitsIn == 8 * pos;
      assert tail[..8] == bits[8 * pos..8 * pos + 8];
      StoreByte(bits, buf, pos, ToByte(bitBuffer));
    }
  }

  lemma StoreByte(bits: seq<bool>, buf: seq<Byte>, pos: nat, c: Byte)
    requires 8 * pos + 8 <= |bits| && pos < |buf| && ByteBits(buf[..pos]) == bits[..8 * pos]
    requires c == FromBits(bits[8 * pos..8 * pos + 8])
    ensures ByteBits(buf[pos := c][..pos + 1]) == bits[..8 * (pos + 1)]
  {
    hide ByteBits, ToBits, FromBits, Pow2;
    ToFromBits(bits[8 * pos..8 * pos + 8]);
    OneByte(c);
    ByteBitsConcat(buf[..pos], [c]);
    assert buf[pos := c][..pos + 1] == buf[..pos] + [c];
    assert bits[..8 * (pos + 1)] == bits[..8 * pos] + bits[8 * pos..8 * pos + 8];
  }

  /** Going back to an earlier point: what was put since is forgotten, and the bytes before it are still there. */
  lemma PackedBack(bits: seq<bool>, buf: seq<Byte>, pos: nat, bitBuffer: nat, bitsIn: nat,
                   was: seq<bool>, wasBuf: seq<Byte>, wasPos: nat, wasBuffer: nat, wasIn: nat)
    requires Packed(bits, buf, pos, bitBuffer, bitsIn) && Packed(was, wasBuf, wasPos, wasBuffer, wasIn)
    requires was <= bits && |bits| - bitsIn >= |was| - wasIn
    ensures Packed(was, buf, wasPos, wasBuffer, wasIn)
  {
    assert wasPos <= pos;
    assert buf[..pos] == buf[..wasPos] + buf[wasPos..pos];
    ByteBitsConcat(buf[..wasPos], buf[wasPos..pos]);
    assert ByteBits(buf[..wasPos]) == ByteBits(buf[..pos])[..8 * wasPos];
    assert bits[..8 * pos][..8 * wasPos] == was[..8 * wasPos];
  }

  class Writer {
    const buf: array<Byte>    // m_output_buf
    var pos: nat              // m_pOutput_buf
    var bitBuffer: nat        // m_bit_buffer
    var bitsIn: nat           // m_bits_in
    ghost var bits: seq<bool> // everything put since Start, after the bits left over then

    constructor ()
      ensures Valid() && fresh(buf) && pos == 0 && bits == [] && bitsIn == 0
    {
      buf := new Byte[OUT_BUF_SIZE](_ => 0);
      pos, bitBuffer, bitsIn, bits := 0, 0, 0, [];
    }

    ghost predicate Valid()
      reads this, buf
    {
      && buf.Length == OUT_BUF_SIZE && bitsIn < 8
      && Packed(bits, buf[..], pos, bitBuffer, bitsIn)
    }

    /** The next flush writes from the start of the buffer; bits that do not fill a byte stay pending. */
    method Start()
      requires Valid()
      modifies this
      ensures Valid() && pos == 0 && bitsIn == old(bitsIn) && bits == old(bits[|bits| - bitsIn..])
    {
      hide ToBits;
      pos, bits := 0, bits[|bits| - bitsIn..];
      PackedStart(buf[..], bitBuffer, bitsIn);
    }

    method Put(b: nat, l: nat)
      requires Valid() && l <= 16 && b < Pow2(l)
      modifies this, buf
      ensures Valid() && bits == old(bits) + ToBits(b, l)
    {
      hide Packed, ToBits, Or, Shl;
      PackedPut(bits, buf[..], pos, bitBuffer, bitsIn, b, l);
      bitBuffer, bits := Or(bitBuffer, Shl(b, bitsIn)), bits + ToBits(b, l);
      bitsIn := bitsIn + l;
      while bitsIn >= 8
        invariant Packed(bits, buf[..], pos, bitBuffer, bitsIn) && bits == old(bits) + ToBits(b, l)
        decreases bitsIn
      {
        ghost var c := buf[..];
        PackedByte(bits, c, pos, bitBuffer, bitsIn);
        if pos < OUT_BUF_END {
          buf[pos] := ToByte(bitBuffer);
          assert buf[..] == c[pos := ToByte(bitBuffer)];
          pos := pos + 1;
        }
        bitBuffer := Shr(bitBuffer, 8);
        bitsIn := bitsIn - 8;
      }
    }

    /** `if (d->m_bits_in) TDEFL_PUT_BITS(0, 8 - d->m_bits_in)` */
    method Pad()
      requires Valid()
      modifies this, buf
      ensures Valid() && bits == old(bits) + PadBits(|old(bits)|) && bitsIn == 0
    {
      hide ToBits, Pow2, Packed, PadBits;
      PadLength();
      if bitsIn != 0 {
        ZeroBits(8 - bitsIn);
        Put(0, 8 - bitsIn);
      }
      AtBoundary();
    }

    lemma AtBoundary()
      requires Valid() && |bits| % 8 == 0
      ensures bitsIn == 0
    {
    }

    lemma PadLength()
      requires Valid()
      ensures PadBits(|bits|) == Zeros((8 - bitsIn) % 8)
    {
      assert |bits| % 8 == bitsIn;
    }

    /** Restores the saved output pointer, bit buffer and bit count. */
    method Back(wasPos: nat, wasBuffer: nat, wasIn: nat, ghost was: seq<bool>, ghost wasBuf: seq<Byte>)
      requires Valid() && wasIn < 8 && Packed(was, wasBuf, wasPos, wasBuffer, wasIn) && was <= bits
      modifies this
      ensures Valid() && bits == was && pos == wasPos && bitsIn == wasIn
    {
      PackedBack(bits, buf[..], pos, bitBuffer, bitsIn, was, wasBuf, wasPos, wasBuffer, wasIn);
      hide ToBits, ByteBits;
      pos, bitBuffer, bitsIn, bits := wasPos, wasBuffer, wasIn, was;
    }
  }

  lemma {:induction false} ZeroBits(n: nat)
    ensures ToBits(0, n) == Zeros(n) && 0 < Pow2(n)
  {
    if n > 0 {
      ZeroBits(n - 1);
    }
  }
}
