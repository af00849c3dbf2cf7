/** Bit strings and the machine arithmetic used to build and read them.

    DEFLATE packs every field starting at the least significant bit of a byte
    (section 3.1.1 of RFC 1951).  A bit string is a sequence of booleans in stream order;
    machine words are natural numbers, with the shifts and masks of the C code written out. */
module Bits {

  type Byte = b: int | 0 <= b < 256

  function Pow2(n: nat): (p: nat)
    ensures p >= 1
  {
    if n == 0 then 1 else 2 * Pow2(n - 1)
  }

  /** v >> n */
  function Shr(v: nat, n: nat): nat {
    if n == 0 then v else Shr(v / 2, n - 1)
  }

  /** v << n, before any truncation to a word size */
  function Shl(v: nat, n: nat): (w: nat)
    ensures v <= w
  {
    if n == 0 then v else 2 * Shl(v, n - 1)
  }

  /** v & ((1 << n) - 1) */
  function Low(v: nat, n: nat): nat {
    if n == 0 then 0 else v % 2 + 2 * Low(v / 2, n - 1)
  }

  /** Bitwise inclusive or of two machine words. */
  function Or(x: nat, y: nat): nat {
    if x == 0 && y == 0 then 0
    else (if x % 2 == 1 || y % 2 == 1 then 1 else 0) + 2 * Or(x / 2, y / 2)
  }

  /** Bitwise exclusive or of two machine words. */
  function Xor(x: nat, y: nat): nat {
    if x == 0 && y == 0 then 0
    else (if x % 2 != y % 2 then 1 else 0) + 2 * Xor(x / 2, y / 2)
  }

  /** The low n bits of v, least significant first. */
  function ToBits(v: nat, n: nat): (b: seq<bool>)
    ensures |b| == n
  {
    if n == 0 then [] else [v % 2 == 1] + ToBits(v / 2, n - 1)
  }

  /** The number whose bits, least significant first, are b. */
  function FromBits(b: seq<bool>): nat {
    if b == [] then 0 else (if b[0] then 1 else 0) + 2 * FromBits(b[1..])
  }

  /** The bit string carried by a sequence of bytes. */
  function ByteBits(bytes: seq<Byte>): (b: seq<bool>)
    ensures |b| == 8 * |bytes|
  {
    if bytes == [] then [] else ToBits(bytes[0], 8) + ByteBits(bytes[1..])
  }

  function Zeros(n: nat): (b: seq<bool>)
    ensures |b| == n
  {
    seq(n, _ => false)
  }

  /** The bits up to the next byte boundary. */
  function PadBits(at: nat): (b: seq<bool>)
    ensures |b| < 8 && (at + |b|) % 8 == 0
  {
    Zeros((8 - at % 8) % 8)
  }

  function Min(x: int, y: int): int { if x <= y then x else y }

  function Max(x: int, y: int): int { if x >= y then x else y }

  // ----- nonlinear arithmetic -----

  lemma MulAssoc(a: int, b: int, c: int)
    ensures a * (b * c) == (a * b) * c
  {
  }

  lemma MulDistributes(a: int, b: int, c: int)
    ensures (a + b) * c == a * c + b * c
  {
  }

  lemma MulMonotonic(a: int, b: int, c: int)
    requires a <= b && 0 <= c
    ensures a * c <= b * c
  {
  }

  lemma DivUnique(v: int, d: int, q: int, r: int)
    requires d > 0 && 0 <= r < d && v == q * d + r
    ensures v / d == q && v % d == r
  {
    var k := v / d;
    MulDistributes(q, -k, d);
    if q > k {
      MulMonotonic(1, q - k, d);
    } else if q < k {
      MulMonotonic(q - k, -1, d);
    }
  }

  // ----- powers of two -----

  lemma {:induction false} Pow2Add(m: nat, n: nat)
    ensures Pow2(m + n) == Pow2(m) * Pow2(n)
  {
    if m > 0 {
      Pow2Add(m - 1, n);
    }
  }

  lemma {:induction false} Pow2Monotonic(m: nat, n: nat)
    requires m <= n
    ensures Pow2(m) <= Pow2(n)
  {
    if m < n {
      Pow2Monotonic(m, n - 1);
    }
  }

  lemma Pow2Values()
    ensures Pow2(1) == 2 && Pow2(2) == 4 && Pow2(3) == 8 && Pow2(4) == 16 && Pow2(5) == 32
    ensures Pow2(6) == 64 && Pow2(7) == 128 && Pow2(8) == 256 && Pow2(9) == 512 && Pow2(10) == 1024
    ensures Pow2(13) == 8192 && Pow2(15) == 32768 && Pow2(16) == 65536 && Pow2(32) == 0x1_0000_0000
  {
    assert Pow2(4) == 16;
    assert Pow2(8) == 256;
    assert Pow2(12) == 4096;
    assert Pow2(16) == 65536;
    assert Pow2(20) == 0x10_0000;
    assert Pow2(24) == 0x100_0000;
    assert Pow2(28) == 0x1000_0000;
  }

  lemma {:induction false} ShlIsMul(v: nat, n: nat)
    ensures Shl(v, n) == v * Pow2(n)
  {
    if n > 0 {
      ShlIsMul(v, n - 1);
    }
  }

  lemma {:induction false} ShrLow(v: nat, n: nat)
    ensures Low(v, n) < Pow2(n)
    ensures v == Low(v, n) + Shl(Shr(v, n), n)
  {
    if n > 0 {
      ShrLow(v / 2, n - 1);
    }
  }

  lemma {:induction false} LowSmall(v: nat, n: nat)
    requires v < Pow2(n)
    ensures Low(v, n) == v && Shr(v, n) == 0
  {
    if n > 0 {
      LowSmall(v / 2, n - 1);
    }
  }

  lemma {:induction false} ShrBelow(v: nat, m: nat, n: nat)
    requires n <= m && v < Pow2(m)
    ensures Shr(v, n) < Pow2(m - n)
  {
    if n > 0 {
      ShrBelow(v / 2, m - 1, n - 1);
    }
  }

  lemma {:induction false} ShlBelow(v: nat, m: nat, n: nat)
    requires v < Pow2(m)
    ensures Shl(v, n) <= Pow2(m + n) - Pow2(n)
  {
    if n > 0 {
      ShlBelow(v, m, n - 1);
    }
  }

  // ----- numbers as bit strings -----

  lemma {:induction false} FromToBits(v: nat, n: nat)
    ensures FromBits(ToBits(v, n)) == Low(v, n)
  {
    if n > 0 {
      FromToBits(v / 2, n - 1);
      assert ToBits(v, n)[1..] == ToBits(v / 2, n - 1);
    }
  }

  lemma {:induction false} ToFromBits(b: seq<bool>)
    ensures FromBits(b) < Pow2(|b|)
    ensures ToBits(FromBits(b), |b|) == b
  {
    if b != [] {
      ToFromBits(b[1..]);
      assert FromBits(b) / 2 == FromBits(b[1..]);
      assert b == [b[0]] + b[1..];
    }
  }

  lemma {:induction false} ToBitsSplit(v: nat, m: nat, n: nat)
    ensures ToBits(v, m + n) == ToBits(v, m) + ToBits(Shr(v, m), n)
  {
    if m > 0 {
      ToBitsSplit(v / 2, m - 1, n);
    }
  }

  /** A later field goes above an earlier one. */
  lemma {:induction false} ToBitsConcat(v: nat, m: nat, w: nat, n: nat)
    requires v < Pow2(m)
    ensures ToBits(v + Shl(w, m), m + n) == ToBits(v, m) + ToBits(w, n)
  {
    if m > 0 {
      ToBitsConcat(v / 2, m - 1, w, n);
      assert (v + Shl(w, m)) / 2 == v / 2 + Shl(w, m - 1);
    }
  }

  /** What shifting out and masking off the low n bits of an m-bit word does to its bit string. */
  lemma ShiftMask(v: nat, m: nat, n: nat)
    requires n <= m && v < Pow2(m)
    ensures Shr(v, n) < Pow2(m - n)
    ensures ToBits(Shr(v, n), m - n) == ToBits(v, m)[n..]
    ensures Low(v, n) == FromBits(ToBits(v, m)[..n])
  {
    ToBitsSplit(v, n, m - n);
    ShrBelow(v, m, n);
    FromToBits(v, n);
  }

  lemma {:induction false} BitAt(v: nat, n: nat, d: nat)
    requires d < n
    ensures ToBits(v, n)[d] == (Shr(v, d) % 2 == 1)
  {
    if d > 0 {
      BitAt(v / 2, n - 1, d - 1);
    }
  }

  lemma {:induction false} ShrTwice(v: nat, m: nat, n: nat)
    ensures Shr(Shr(v, m), n) == Shr(v, m + n)
  {
    if m > 0 {
      ShrTwice(v / 2, m - 1, n);
    }
  }

  lemma {:induction false} ByteBitsConcat(a: seq<Byte>, b: seq<Byte>)
    ensures ByteBits(a + b) == ByteBits(a) + ByteBits(b)
  {
    hide ToBits;
    if a == [] {
      assert a + b == b;
    } else {
      ByteBitsConcat(a[1..], b);
      assert (a + b)[1..] == a[1..] + b;
    }
  }

  lemma {:induction false} OrZero(y: nat)
    ensures Or(0, y) == y
  {
    if y > 0 {
      OrZero(y / 2);
    }
  }

  /** Words that share no bit: inclusive or is addition. */
  lemma {:induction false} OrDisjoint(x: nat, y: nat, k: nat)
    requires x < Pow2(k)
    ensures Or(x, Shl(y, k)) == x + Shl(y, k)
  {
    if k == 0 {
      OrZero(y);
    } else {
      OrDisjoint(x / 2, y, k - 1);
      assert Shl(y, k) / 2 == Shl(y, k - 1);
    }
  }

  lemma {:induction false} LowBits(i: nat, n: nat)
    ensures ToBits(Low(i, n), n) == ToBits(i, n)
  {
    if n > 0 {
      LowBits(i / 2, n - 1);
    }
  }

  lemma {:induction false} XorOnesAt(v: nat, n: nat)
    requires v < Pow2(n)
    ensures var ones: nat := Pow2(n) - 1;
      Xor(v, ones) == ones - v
  {
    if n > 0 {
      var ones: nat := Pow2(n) - 1;
      XorOnesAt(v / 2, n - 1);
      assert ones % 2 == 1 && ones / 2 == Pow2(n - 1) - 1;
      hide Pow2;
    }
  }

  lemma XorOnes(v: nat)
    requires v < 65536
    ensures Xor(v, 0xFFFF) == 65535 - v
  {
    Pow2Values();
    XorOnesAt(v, 16);
  }

  lemma OneByte(c: Byte)
    ensures ByteBits([c]) == ToBits(c, 8) && FromBits(ToBits(c, 8)) == c
  {
    assert ByteBits([c]) == ToBits(c, 8) + ByteBits([]);
    Pow2Values();
    FromToBits(c, 8);
    LowSmall(c, 8);
  }

  /** A field or-ed in above the bits at hand. */
  lemma AppendAbove(v: nat, m: nat, w: nat, n: nat)
    requires v < Pow2(m) && w < Pow2(n)
    ensures Or(v, Shl(w, m)) < Pow2(m + n)
    ensures ToBits(Or(v, Shl(w, m)), m + n) == ToBits(v, m) + ToBits(w, n)
  {
    OrDisjoint(v, w, m);
    ToBitsConcat(v, m, w, n);
    ShlBelow(w, n, m);
    assert n + m == m + n;
  }
}
