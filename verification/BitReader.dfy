/** The input side of tinfl_decompress: the bit buffer, the input bytes of one call, and the macros that read from them.

    The bits still to be read are the low m_num_bits of m_bit_buf followed by the unread bytes.  However far the macros
    read ahead, only consuming a field changes that bit string. */
module BitReader {
  import opened Bits
  import opened Canonical
  import opened Decoding
  import opened InflateSpec
  import opened DecoderTable

  /** The unread bits are the last part of what the call started with. */
  ghost predicate Tail(start: seq<bool>, input: seq<Byte>, cur: nat, bitBuf: nat, numBits: nat) {
    && cur <= |input| && bitBuf < Pow2(numBits)
    && (var all, rest := start + ByteBits(input), ToBits(bitBuf, numBits) + ByteBits(input[cur..]);
        |rest| <= |all| && all[|all| - |rest|..] == rest)
  }

  /** An input byte goes above the bits in the buffer. */
  lemma TailRead(start: seq<bool>, input: seq<Byte>, cur: nat, bitBuf: nat, numBits: nat)
    requires Tail(start, input, cur, bitBuf, numBits) && cur < |input|
    ensures ToBits(Or(bitBuf, Shl(input[cur], numBits)), numBits + 8) + ByteBits(input[cur + 1..])
         == ToBits(bitBuf, numBits) + ByteBits(input[cur..])
    ensures Tail(start, input, cur + 1, Or(bitBuf, Shl(input[cur], numBits)), numBits + 8)
  {
    var c: nat := input[cur];
    Pow2Values();
    AppendAbove(bitBuf, numBits, c, 8);
    assert input[cur..][1..] == input[cur + 1..];
    hide ToBits, Or, Shl, Pow2;
  }

  /** Consuming n bits. */
  lemma TailDrop(start: seq<bool>, input: seq<Byte>, cur: nat, bitBuf: nat, numBits: nat, n: nat)
    requires Tail(start, input, cur, bitBuf, numBits) && n <= numBits
    ensures var rest := ToBits(bitBuf, numBits) + ByteBits(input[cur..]);
      && ToBits(Shr(bitBuf, n), numBits - n) + ByteBits(input[cur..]) == rest[n..]
      && FromBits(rest[..n]) == Low(bitBuf, n)
    ensures Tail(start, input, cur, Shr(bitBuf, n), numBits - n)
  {
    ShiftMask(bitBuf, numBits, n);
    hide ToBits, Shr, Low, Pow2, ByteBits, FromBits;
    var rest := ToBits(bitBuf, numBits) + ByteBits(input[cur..]);
    assert rest[..n] == ToBits(bitBuf, numBits)[..n];
    assert rest[n..] == ToBits(bitBuf, numBits)[n..] + ByteBits(input[cur..]);
  }

  /** Putting the last byte back: its bits are the upper eight of the buffer. */
  lemma TailBack(start: seq<bool>, input: seq<Byte>, cur: nat, bitBuf: nat, numBits: nat)
    requires Tail(start, input, cur, bitBuf, numBits) && cur > 0 && numBits >= 8
    ensures Low(bitBuf, numBits - 8) < Pow2(numBits - 8)
    ensures ToBits(Low(bitBuf, numBits - 8), numBits - 8) + ByteBits(input[cur - 1..])
         == ToBits(bitBuf, numBits) + ByteBits(input[cur..])
    ensures Tail(start, input, cur - 1, Low(bitBuf, numBits - 8), numBits - 8)
  {
    LowBits(bitBuf, numBits - 8);
    ShrLow(bitBuf, numBits - 8);
    ToBitsSplit(bitBuf, numBits - 8, 8);
    assert input == input[..cur - 1] + input[cur - 1..];
    ByteBitsConcat(input[..cur - 1], input[cur - 1..]);
    hide ToBits, Shr, Low, Pow2, ByteBits;
    BackSame(start, ByteBits(input[..cur - 1]), ByteBits(input[cur - 1..]), ByteBits(input[cur..]),
             ToBits(bitBuf, numBits), ToBits(bitBuf, numBits - 8));
  }

  lemma BackSame(start: seq<bool>, head: seq<bool>, more: seq<bool>, after: seq<bool>, held: seq<bool>, kept: seq<bool>)
    requires |held| + |after| <= |start + (head + more)| && |held| == |kept| + 8 && |more| == |after| + 8
    requires kept == held[..|kept|]
    requires (start + (head + more))[|start + (head + more)| - |held + after|..] == held + after
    ensures kept + more == held + after
  {
    var all := start + (head + more);
    var tail := all[|all| - |held + after|..];
    assert tail[|kept|..] == all[|all| - |more|..] == more;
    assert tail == tail[..|kept|] + tail[|kept|..];
    assert tail[..|kept|] == held[..|kept|];
  }

  // ----- decoding with some of the bits at hand -----

  /** The bits at hand leave the symbol open. */
  ghost predicate Undecided(z: seq<nat>, b: seq<bool>) {
    NextSymbol(z, b).NeedBits?
  }

  /** The symbol that the lookup of 15 buffer bits gives is the next symbol of the stream. */
  lemma LookedUp(z: seq<nat>, b: seq<bool>, c: seq<bool>, more: seq<bool>, sym: nat, codeLen: nat)
    requires Fits(z) && Decodes(z, c, sym, codeLen) && |c| == MAX_CODE_SIZE && (b <= c || c <= b) && !Undecided(z, b)
    ensures Decodes(z, b, sym, codeLen) && Decodes(z, b + more, sym, codeLen) && codeLen <= |b|
  {
    hide NextSymbol, Fits;
    Decided(z, b, more);
    if b <= c {
      assert c == b + c[|b|..];
      Decided(z, b, c[|b|..]);
    } else {
      assert b == c + b[|c|..];
      Decided(z, c, b[|c|..]);
    }
  }

  lemma PaddedPrefix(bitBuf: nat, m: nat, n: nat)
    requires m <= n
    ensures ToBits(bitBuf, m) <= ToBits(bitBuf, n)
  {
    ToBitsSplit(bitBuf, m, n - m);
  }

  class Reader {
    var input: seq<Byte>      // pIn_buf_next up to pIn_buf_end
    var cur: nat              // pIn_buf_cur
    var bitBuf: nat           // m_bit_buf, 64 bits wide
    var numBits: nat          // m_num_bits
    ghost var start: seq<bool>
    ghost var carried: nat    // m_num_bits when the call began

    constructor ()
      ensures Valid() && Rest() == [] && numBits == 0 && input == [] && cur == 0
    {
      input, cur, bitBuf, numBits, start, carried := [], 0, 0, 0, [], 0;
    }

    ghost predicate Valid()
      reads this
    {
      && cur <= |input| && numBits < 64 && Tail(start, input, cur, bitBuf, numBits)
      && numBits <= Max(7, carried) + 8 * cur
    }

    /** The bits still to be read. */
    ghost function Rest(): (b: seq<bool>)
      requires cur <= |input|
      reads this
      ensures |b| == numBits + 8 * (|input| - cur)
    {
      ToBits(bitBuf, numBits) + ByteBits(input[cur..])
    }

    /** No more whole bytes are in the bit buffer than were read in this call, so all of them can be put back. */
    predicate Lean()
      reads this
    {
      numBits <= 7 + 8 * cur
    }

    /** The next call brings more input. */
    method Attach(more: seq<Byte>)
      requires Valid() && cur == |input|
      modifies this
      ensures Valid() && Rest() == old(Rest()) + ByteBits(more) && input == more && cur == 0
      ensures numBits == old(numBits) == carried && Held() == old(Held())
    {
      input, cur, start, carried := more, 0, ToBits(bitBuf, numBits), numBits;
      assert input[cur..] == more;
    }

    /** The end of a call: the unread bytes go back to the caller, the bit buffer stays. */
    method Detach()
      requires Valid()
      modifies this`input, this`cur, this`start, this`carried
      ensures Valid() && input == [] && cur == 0 && Rest() == Held() == old(Held())
      ensures old(Rest()) == Held() + old(ByteBits(input[cur..]))
    {
      input, cur, start, carried := [], 0, ToBits(bitBuf, numBits), numBits;
      assert input[cur..] == [];
    }

    /** TINFL_GET_BYTE into the bit buffer. */
    method NeedByte() returns (ok: bool)
      requires Valid() && numBits < 56
      modifies this`cur, this`bitBuf, this`numBits
      ensures Valid() && Rest() == old(Rest())
      ensures ok ==> numBits == old(numBits) + 8 && cur == old(cur) + 1
      ensures !ok ==> cur == |input| && cur == old(cur) && numBits == old(numBits) && bitBuf == old(bitBuf)
    {
      hide Tail, ToBits, ByteBits, Or, Shl;
      if cur >= |input| {
        return false;
      }
      TailRead(start, input, cur, bitBuf, numBits);
      bitBuf, numBits, cur := Or(bitBuf, Shl(input[cur], numBits)), numBits + 8, cur + 1;
      ok := true;
    }

    /** `bit_buf >>= n, num_bits -= n` */
    method Drop(n: nat) returns (v: nat)
      requires Valid() && n <= numBits
      modifies this`bitBuf, this`numBits
      ensures Valid() && Rest() == old(Rest())[n..] && v == FromBits(old(Rest())[..n]) && numBits == old(numBits) - n
    {
      hide Tail, ToBits, ByteBits, Shr, Low, FromBits;
      TailDrop(start, input, cur, bitBuf, numBits, n);
      v := Low(bitBuf, n);
      bitBuf, numBits := Shr(bitBuf, n), numBits - n;
    }

    /** TINFL_GET_BITS: a field of n bits, or all input is used up and the bits stay where they are. */
    method GetBits(n: nat) returns (ok: bool, v: nat)
      requires Valid() && n <= 13
      modifies this`cur, this`bitBuf, this`numBits
      ensures Valid()
      ensures ok ==> n <= |old(Rest())| && v == FromBits(old(Rest())[..n]) && Rest() == old(Rest())[n..]
      ensures ok && old(Lean() || numBits < n) ==> Lean()
      ensures !ok ==> Rest() == old(Rest()) && |Rest()| < n && cur == |input| && numBits < n
    {
      hide Tail, ToBits, ByteBits, FromBits;
      while numBits < n
        invariant old(cur) <= cur <= |input| && Valid() && Rest() == old(Rest())
        invariant (cur == old(cur) && numBits == old(numBits)) || numBits < n + 8
        decreases n - numBits
      {
        ok := NeedByte();
        if !ok {
          return false, 0;
        }
      }
      v := Drop(n);
      ok := true;
    }

    /** The valid part of the bit buffer. */
    ghost function Held(): (b: seq<bool>)
      reads this
      ensures |b| == numBits
    {
      ToBits(bitBuf, numBits)
    }

    /** TINFL_HUFF_BITBUF_FILL: one byte at a time, and no byte more than the next code needs.  A resumed fill starts
        with the byte it was waiting for. */
    method Fill(t: Table, resumed: bool) returns (ok: bool)
      requires Valid() && t.Ready() && numBits < MAX_CODE_SIZE && (resumed ==> Undecided(t.sizes, Held()))
      modifies this`cur, this`bitBuf, this`numBits
      ensures Valid() && Rest() == old(Rest())
      ensures old(cur) <= cur && numBits == old(numBits) + 8 * (cur - old(cur))
      ensures !ok ==> cur == |input| && numBits < MAX_CODE_SIZE && Undecided(t.sizes, Held())
      ensures ok ==> !Undecided(t.sizes, Held())
    {
      hide Tail, ToBits, ByteBits, Rest, NextSymbol, Table.Ready;
      ok := !resumed;
      while true
        invariant Valid() && cur <= |input| && Rest() == old(Rest()) && numBits < MAX_CODE_SIZE
        invariant old(cur) <= cur && numBits == old(numBits) + 8 * (cur - old(cur))
        invariant !ok ==> Undecided(t.sizes, Held())
        decreases MAX_CODE_SIZE - numBits
      {
        if ok {
          ok := t.TryDecode(bitBuf, numBits);
          if ok {
            return;
          }
        }
        ok := NeedByte();
        if numBits >= MAX_CODE_SIZE {
          Enough(t);
        }
        if !ok || numBits >= MAX_CODE_SIZE {
          return;
        }
      }
    }

    /** Brings in the bytes for the next code: one at a time near the end of the input, otherwise two at once. */
    method Refill(t: Table, resumed: bool) returns (ok: bool)
      requires Valid() && t.Ready()
      requires resumed ==> numBits < MAX_CODE_SIZE && Undecided(t.sizes, Held())
      modifies this`cur, this`bitBuf, this`numBits
      ensures Valid() && Rest() == old(Rest())
      ensures old(cur) <= cur && numBits == old(numBits) + 8 * (cur - old(cur))
      ensures !ok ==> cur == |input| && numBits < MAX_CODE_SIZE && Undecided(t.sizes, Held())
      ensures ok ==> !Undecided(t.sizes, Held())
    {
      hide Tail, ToBits, ByteBits, Rest, NextSymbol, Table.Ready;
      ok := true;
      if numBits < MAX_CODE_SIZE {
        if resumed || |input| - cur < 2 {
          ok := Fill(t, resumed);
          return;
        }
        ok := NeedByte();
        ok := NeedByte();
      }
      Enough(t);
    }

    lemma Enough(t: Table)
      requires t.Ready() && numBits >= MAX_CODE_SIZE
      ensures !Undecided(t.sizes, Held())
    {
      hide NextSymbol, ToBits;
      ReadyFits(t);
      EnoughBits(t.sizes, Held());
    }

    /** Looks a symbol up and drops its code, with enough bits in the buffer to decide it.  `held` is what the buffer
        held when `from` bytes had been read. */
    method DecodeNow(t: Table, ghost held: seq<bool>, ghost from: nat, ghost future: seq<bool>)
      returns (sym: nat, codeLen: nat)
      requires Valid() && t.Ready()
      requires !Undecided(t.sizes, Held())
      requires held <= Held() && from <= cur && numBits == |held| + 8 * (cur - from)
      modifies this`bitBuf, this`numBits
      ensures Valid() && codeLen <= MAX_CODE_SIZE && codeLen == old(numBits) - numBits
      ensures Decodes(t.sizes, old(Held()), sym, codeLen)
      ensures Decoded(t.sizes, old(Rest()), future, sym, Rest(),
        |held| <= 7 + 8 * from || Undecided(t.sizes, held) ==> Lean())
    {
      hide Tail, ToBits, ByteBits, Undecided, Table.Ready, Decodes, Decoded;
      ghost var b, c, rest := Held(), ToBits(bitBuf, MAX_CODE_SIZE), Rest();
      sym, codeLen := t.Lookup(bitBuf);
      OneIsPrefix(bitBuf, numBits);
      ReadyFits(t);
      LookedUp(t.sizes, b, c, [], sym, codeLen);
      AtMost(t.sizes, c, sym, codeLen);
      ghost var v := Drop(codeLen);
      DecodedFrom(t, b, c, held, rest, future, sym, codeLen, cur - from, from, Lean());
    }

    /** TINFL_HUFF_DECODE.  Unless the input runs out, what it returns is the next symbol of the stream whatever bits
        may follow, and it consumes exactly the symbol's bits, none where the table has no entry. */
    method HuffDecode(t: Table, resumed: bool, ghost future: seq<bool>) returns (ok: bool, sym: nat)
      requires Valid() && t.Ready()
      requires resumed ==> numBits < MAX_CODE_SIZE && Undecided(t.sizes, Held())
      modifies this`cur, this`bitBuf, this`numBits
      ensures Valid()
      ensures ok ==> Decoded(t.sizes, old(Rest()), future, sym, Rest(),
        old(Lean() || Undecided(t.sizes, Held())) ==> Lean())
      ensures !ok ==>
        Rest() == old(Rest()) == Held() && cur == |input| && numBits < MAX_CODE_SIZE
        && Undecided(t.sizes, Held())
    {
      hide Tail, ToBits, Undecided, Table.Ready, Decoded;
      ghost var held, before, from := Held(), Rest(), cur;
      ok := Refill(t, resumed);
      if !ok {
        return false, 0;
      }
      hide ByteBits;
      HeldGrows(held, before, Held(), Rest());
      var codeLen;
      sym, codeLen := DecodeNow(t, held, from, future);
    }

    /** Four bytes at once, for the fast path: `bit_buf |= MZ_READ_LE32(pIn_buf_cur) << num_bits`. */
    method LoadFour()
      requires Valid() && cur + 4 <= |input| && numBits < 30
      modifies this`cur, this`bitBuf, this`numBits
      ensures Valid() && Rest() == old(Rest()) && cur == old(cur) + 4 && numBits == old(numBits) + 32
    {
      hide Tail, Rest, ToBits, ByteBits;
      var ok := NeedByte();
      ok := NeedByte();
      ok := NeedByte();
      ok := NeedByte();
    }

    /** TINFL_GET_BYTE, used only when the bit buffer is empty. */
    method GetByte() returns (ok: bool, c: Byte)
      requires Valid() && numBits == 0
      modifies this`cur
      ensures Valid() && numBits == 0
      ensures ok ==>
        8 <= |old(Rest())| && c == FromBits(old(Rest())[..8]) && Rest() == old(Rest())[8..]
        && cur == old(cur) + 1
      ensures !ok ==> Rest() == old(Rest()) && |Rest()| < 8 && cur == |input|
    {
      hide Tail, FromBits;
      if cur >= |input| {
        return false, 0;
      }
      c := input[cur];
      TailBytes(start, input, cur, bitBuf, 1);
      BytesSplit(input[cur..], 1);
      assert input[cur..][..1] == [c] && input[cur..][1..] == input[cur + 1..];
      OneByte(c);
      assert Rest() == ByteBits([c]) + ByteBits(input[cur + 1..]) && Rest()[..8] == ByteBits([c]);
      cur := cur + 1;
      ok := true;
    }

    /** n whole bytes at once, past an empty bit buffer. */
    method TakeBytes(n: nat)
      requires Valid() && numBits == 0 && cur + n <= |input|
      modifies this`cur
      ensures Valid() && numBits == 0 && cur == old(cur) + n
      ensures old(Rest()) == ByteBits(input[old(cur)..cur]) + Rest()
    {
      hide Tail;
      TailBytes(start, input, cur, bitBuf, n);
      BytesSplit(input[cur..], n);
      assert input[cur..][..n] == input[cur..cur + n] && input[cur..][n..] == input[cur + n..];
      cur := cur + n;
    }

    /** At common_exit: whole bytes in the bit buffer go back to the input, as far as they came from it in this call. */
    method PutBack()
      requires Valid()
      modifies this`cur, this`bitBuf, this`numBits
      ensures Valid() && Rest() == old(Rest()) && cur <= old(cur) && input == old(input)
      ensures old(Lean()) ==> numBits == old(numBits) % 8
      ensures old(cur) - cur == (old(numBits) - numBits) / 8 && numBits <= Max(7, carried)
    {
      hide Tail, ToBits, ByteBits, Low;
      LowAll(bitBuf, numBits, start, input, cur);
      ghost var rest := Rest();
      while cur > 0 && numBits >= 8
        invariant cur <= old(cur) && numBits == old(numBits) - 8 * (old(cur) - cur) && bitBuf == old(bitBuf)
        invariant Tail(start, input, cur, Low(bitBuf, numBits), numBits)
        invariant ToBits(Low(bitBuf, numBits), numBits) + ByteBits(input[cur..]) == rest
      {
        TailBack(start, input, cur, Low(bitBuf, numBits), numBits);
        LowLow(bitBuf, numBits, numBits - 8);
        cur, numBits := cur - 1, numBits - 8;
      }
      bitBuf := Low(bitBuf, numBits);
    }
  }

  lemma LowAll(v: nat, n: nat, start: seq<bool>, input: seq<Byte>, cur: nat)
    requires Tail(start, input, cur, v, n)
    ensures Low(v, n) == v
  {
    LowSmall(v, n);
  }

  lemma {:induction false} LowLow(v: nat, m: nat, n: nat)
    requires n <= m
    ensures Low(Low(v, m), n) == Low(v, n)
  {
    if n > 0 {
      LowLow(v / 2, m - 1, n - 1);
    }
  }

  lemma BytesSplit(bytes: seq<Byte>, n: nat)
    requires n <= |bytes|
    ensures ByteBits(bytes) == ByteBits(bytes[..n]) + ByteBits(bytes[n..])
  {
    assert bytes == bytes[..n] + bytes[n..];
    ByteBitsConcat(bytes[..n], bytes[n..]);
  }

  lemma TailBytes(start: seq<bool>, input: seq<Byte>, cur: nat, bitBuf: nat, n: nat)
    requires Tail(start, input, cur, bitBuf, 0) && cur + n <= |input|
    ensures Tail(start, input, cur + n, bitBuf, 0)
  {
    BytesSplit(input[cur..], n);
    hide ByteBits;
    assert input[cur..][n..] == input[cur + n..];
  }

  lemma OneIsPrefix(bitBuf: nat, n: nat)
    ensures var b, c := ToBits(bitBuf, n), ToBits(bitBuf, MAX_CODE_SIZE);
      b <= c || c <= b
  {
    PaddedPrefix(bitBuf, Min(n, MAX_CODE_SIZE), Max(n, MAX_CODE_SIZE));
  }

  /** The effect of decoding a symbol. */
  ghost predicate Decoded(z: seq<nat>, before: seq<bool>, future: seq<bool>, sym: nat, after: seq<bool>, lean: bool) {
    && |after| <= |before| && after == before[|before| - |after|..]
    && (sym == 0 || (sym < |z| && |after| < |before|))
    && match NextSymbol(z, before + future)
       case Sym(s, n) => sym == s && |before| - |after| == n && lean
       case NoEntry => sym == 0 && after == before
       case NeedBits => false
  }

  lemma HeldGrows(held: seq<bool>, rest: seq<bool>, now: seq<bool>, restNow: seq<bool>)
    requires held <= rest && now <= restNow && rest == restNow && |held| <= |now|
    ensures held <= now
  {
    assert held == rest[..|held|] && now == rest[..|now|];
  }

  lemma AtMost(z: seq<nat>, c: seq<bool>, sym: nat, codeLen: nat)
    requires Decodes(z, c, sym, codeLen) && |c| == MAX_CODE_SIZE
    ensures codeLen <= MAX_CODE_SIZE
  {
    hide NextSymbol;
  }

  lemma DecodedFrom(t: Table, b: seq<bool>, c: seq<bool>, held: seq<bool>, rest: seq<bool>, future: seq<bool>, sym: nat,
                    codeLen: nat, read: nat, from: nat, lean: bool)
    requires t.Ready() && Decodes(t.sizes, c, sym, codeLen) && |c| == MAX_CODE_SIZE && (b <= c || c <= b)
    requires !Undecided(t.sizes, b)
    requires held <= b <= rest && codeLen <= |b| && |b| == |held| + 8 * read
    requires lean == (|b| - codeLen <= 7 + 8 * (from + read))
    ensures Decoded(t.sizes, rest, future, sym, rest[codeLen..],
      |held| <= 7 + 8 * from || Undecided(t.sizes, held) ==> lean)
  {
    hide Built, Acceptable, Fits, Table.Ready, NextSymbol;
    var z := t.sizes;
    ReadyFits(t);
    var more := rest[|b|..] + future;
    assert rest == b + rest[|b|..];
    assert rest + future == b + more;
    LookedUp(z, b, c, more, sym, codeLen);
    if codeLen > 0 && codeLen <= |held| {
      assert b == held + b[|held|..];
      DecidedBy(z, held, b[|held|..]);
    }
  }

  lemma ReadyFits(t: Table)
    requires t.Ready()
    ensures Fits(t.sizes)
  {
    hide Built, Acceptable, Fits;
    AcceptableFits(t.sizes);
  }
}
