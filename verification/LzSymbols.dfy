/** Length and distance symbols: the compressor's lookup tables and the decompressor's base tables
    (section 3.2.5 of RFC 1951).

    The compressor's tables consist of runs of equal entries, so they are written here as the runs. */
module LzSymbols {
  import opened Bits

  // ----- the compressor's side; l is match_len - 3 and d is match_dist - 1 -----

  /** s_tdefl_len_sym */
  function LenSym(l: nat): nat {
    if l < 8 then 257 + l
    else if l < 16 then 265 + (l - 8) / 2
    else if l < 32 then 269 + (l - 16) / 4
    else if l < 64 then 273 + (l - 32) / 8
    else if l < 128 then 277 + (l - 64) / 16
    else if l < 255 then 281 + (l - 128) / 32
    else 285
  }

  /** s_tdefl_len_extra */
  function LenExtra(l: nat): nat {
    if l < 8 then 0
    else if l < 16 then 1
    else if l < 32 then 2
    else if l < 64 then 3
    else if l < 128 then 4
    else if l < 255 then 5
    else 0
  }

  /** s_tdefl_small_dist_sym */
  function SmallDistSym(d: nat): nat {
    if d < 4 then d
    else if d < 8 then 4 + (d - 4) / 2
    else if d < 16 then 6 + (d - 8) / 4
    else if d < 32 then 8 + (d - 16) / 8
    else if d < 64 then 10 + (d - 32) / 16
    else if d < 128 then 12 + (d - 64) / 32
    else if d < 256 then 14 + (d - 128) / 64
    else 16 + (d - 256) / 128
  }

  /** s_tdefl_small_dist_extra */
  function SmallDistExtra(d: nat): nat {
    if d < 4 then 0
    else if d < 8 then 1
    else if d < 16 then 2
    else if d < 32 then 3
    else if d < 64 then 4
    else if d < 128 then 5
    else if d < 256 then 6
    else 7
  }

  /** s_tdefl_large_dist_sym */
  function LargeDistSym(h: nat): nat {
    if h < 2 then 0
    else if h < 4 then 18 + (h - 2)
    else if h < 8 then 20 + (h - 4) / 2
    else if h < 16 then 22 + (h - 8) / 4
    else if h < 32 then 24 + (h - 16) / 8
    else if h < 64 then 26 + (h - 32) / 16
    else 28 + (h - 64) / 32
  }

  /** s_tdefl_large_dist_extra */
  function LargeDistExtra(h: nat): nat {
    if h < 2 then 0
    else if h < 4 then 8
    else if h < 8 then 9
    else if h < 16 then 10
    else if h < 32 then 11
    else if h < 64 then 12
    else 13
  }

  function DistSym(d: nat): nat {
    if d < 512 then SmallDistSym(d) else LargeDistSym(d / 256)
  }

  function DistExtra(d: nat): nat {
    if d < 512 then SmallDistExtra(d) else LargeDistExtra(d / 256)
  }

  // ----- the decompressor's side -----

  /** s_length_base */
  function LengthBase(k: nat): nat {
    if k < 8 then k + 3
    else if k < 12 then 11 + 2 * (k - 8)
    else if k < 16 then 19 + 4 * (k - 12)
    else if k < 20 then 35 + 8 * (k - 16)
    else if k < 24 then 67 + 16 * (k - 20)
    else if k < 28 then 131 + 32 * (k - 24)
    else if k == 28 then 258
    else 0
  }

  /** s_length_extra */
  function LengthExtra(k: nat): (e: nat)
    ensures e <= 5
  {
    if k < 8 then 0 else if k < 28 then (k - 4) / 4 else 0
  }

  /** s_dist_base */
  function DistBase(k: nat): nat {
    if k < 4 then k + 1
    else if k < 6 then 5 + 2 * (k - 4)
    else if k < 8 then 9 + 4 * (k - 6)
    else if k < 10 then 17 + 8 * (k - 8)
    else if k < 12 then 33 + 16 * (k - 10)
    else if k < 14 then 65 + 32 * (k - 12)
    else if k < 16 then 129 + 64 * (k - 14)
    else if k < 18 then 257 + 128 * (k - 16)
    else if k < 20 then 513 + 256 * (k - 18)
    else if k < 22 then 1025 + 512 * (k - 20)
    else if k < 24 then 2049 + 1024 * (k - 22)
    else if k < 26 then 4097 + 2048 * (k - 24)
    else if k < 28 then 8193 + 4096 * (k - 26)
    else if k < 30 then 16385 + 8192 * (k - 28)
    else 0
  }

  /** s_dist_extra */
  function DistExtraBits(k: nat): (e: nat)
    ensures e <= 13
  {
    if k < 4 then 0 else if k < 30 then (k - 2) / 2 else 0
  }

  // ----- the tables of section 3.2.5, as they are printed there, and the entries for symbols that do not exist -----

  lemma LengthTable()
    ensures seq(31, (k: nat) => LengthBase(k))
         == [3, 4, 5, 6, 7, 8, 9, 10, 11, 13, 15, 17, 19, 23, 27, 31, 35, 43, 51, 59, 67, 83, 99, 115, 131, 163, 195,
             227, 258, 0, 0]
    ensures seq(31, (k: nat) => LengthExtra(k))
         == [0, 0, 0, 0, 0, 0, 0, 0, 1, 1, 1, 1, 2, 2, 2, 2, 3, 3, 3, 3, 4, 4, 4, 4, 5, 5, 5, 5, 0, 0, 0]
  {
  }

  lemma DistTable()
    ensures seq(32, (k: nat) => DistBase(k))
         == [1, 2, 3, 4, 5, 7, 9, 13, 17, 25, 33, 49, 65, 97, 129, 193, 257, 385, 513, 769, 1025, 1537, 2049, 3073,
             4097, 6145, 8193, 12289, 16385, 24577, 0, 0]
    ensures seq(32, (k: nat) => DistExtraBits(k))
         == [0, 0, 0, 0, 1, 1, 2, 2, 3, 3, 4, 4, 5, 5, 6, 6, 7, 7, 8, 8, 9, 9, 10, 10, 11, 11, 12, 12, 13, 13, 0, 0]
  {
  }

  // ----- the two sides agree -----

  lemma {:induction false} LowIsMod(v: nat, n: nat)
    ensures Low(v, n) == v % Pow2(n)
  {
    ShrLow(v, n);
    ShlIsMul(Shr(v, n), n);
    DivUnique(v, Pow2(n), Shr(v, n), Low(v, n));
  }

  lemma LengthRoundTrip(l: nat)
    requires l < 256
    ensures 257 <= LenSym(l) <= 285
    ensures LengthExtra(LenSym(l) - 257) == LenExtra(l)
    ensures LengthBase(LenSym(l) - 257) + Low(l, LenExtra(l)) == l + 3
    ensures LenSym(l) == 285 <==> l + 3 == 258
  {
    LowIsMod(l, LenExtra(l));
    Pow2Values();
  }

  lemma SmallDistRoundTrip(d: nat)
    requires d < 512
    ensures SmallDistSym(d) < 18
    ensures DistExtraBits(SmallDistSym(d)) == SmallDistExtra(d)
    ensures DistBase(SmallDistSym(d)) + Low(d, SmallDistExtra(d)) == d + 1
  {
    hide Low;
    LowIsMod(d, SmallDistExtra(d));
    Pow2Values();
  }

  lemma MiddleDistRoundTrip(d: nat)
    requires 512 <= d < 2048
    ensures LargeDistSym(d / 256) < 30
    ensures DistExtraBits(LargeDistSym(d / 256)) == LargeDistExtra(d / 256)
    ensures DistBase(LargeDistSym(d / 256)) + Low(d, LargeDistExtra(d / 256)) == d + 1
  {
    hide Low, Pow2;
    LowIsMod(d, LargeDistExtra(d / 256));
    Pow2Values();
  }

  lemma UpperDistRoundTrip(d: nat)
    requires 2048 <= d < 4096
    ensures LargeDistSym(d / 256) < 30
    ensures DistExtraBits(LargeDistSym(d / 256)) == LargeDistExtra(d / 256)
    ensures DistBase(LargeDistSym(d / 256)) + Low(d, LargeDistExtra(d / 256)) == d + 1
  {
    LowIsMod(d, 10);
    Pow2Values();
    assert 8 <= d / 256 < 16;
    if d < 3072 {
      assert LargeDistSym(d / 256) == 22 && Low(d, 10) == d - 2048;
    } else {
      assert LargeDistSym(d / 256) == 23 && Low(d, 10) == d - 3072;
    }
  }

  lemma LowEleven(d: nat)
    ensures Low(d, 11) == d % 2048
  {
    LowIsMod(d, 11);
    Pow2Values();
    assert Pow2(11) == 2048;
  }

  lemma LargeDistRoundTrip(d: nat)
    requires 4096 <= d < 8192
    ensures LargeDistSym(d / 256) < 30
    ensures DistExtraBits(LargeDistSym(d / 256)) == LargeDistExtra(d / 256)
    ensures DistBase(LargeDistSym(d / 256)) + Low(d, LargeDistExtra(d / 256)) == d + 1
  {
    hide Low, Pow2;
    LowEleven(d);
    assert 16 <= d / 256 < 32;
    if d < 6144 {
      assert LargeDistSym(d / 256) == 24 && Low(d, 11) == d - 4096;
    } else {
      assert LargeDistSym(d / 256) == 25 && Low(d, 11) == d - 6144;
    }
  }

  lemma LowTwelve(d: nat)
    ensures Low(d, 12) == d % 4096 && Low(d, 13) == d % 8192
  {
    LowIsMod(d, 12);
    LowIsMod(d, 13);
    Pow2Values();
    assert Pow2(12) == 4096;
  }

  lemma LargestDistRoundTrip(d: nat)
    requires 8192 <= d < 32768
    ensures LargeDistSym(d / 256) < 30
    ensures DistExtraBits(LargeDistSym(d / 256)) == LargeDistExtra(d / 256)
    ensures DistBase(LargeDistSym(d / 256)) + Low(d, LargeDistExtra(d / 256)) == d + 1
  {
    hide Low, Pow2;
    LowTwelve(d);
    if d < 16384 {
      assert 32 <= d / 256 < 64;
      if d < 12288 {
        assert LargeDistSym(d / 256) == 26 && Low(d, 12) == d - 8192;
      } else {
        assert LargeDistSym(d / 256) == 27 && Low(d, 12) == d - 12288;
      }
    } else {
      assert 64 <= d / 256 < 128;
      if d < 24576 {
        assert LargeDistSym(d / 256) == 28 && Low(d, 13) == d - 16384;
      } else {
        assert LargeDistSym(d / 256) == 29 && Low(d, 13) == d - 24576;
      }
    }
  }

  lemma DistRoundTrip(d: nat)
    requires d < 32768
    ensures DistSym(d) < 30
    ensures DistExtraBits(DistSym(d)) == DistExtra(d)
    ensures DistBase(DistSym(d)) + Low(d, DistExtra(d)) == d + 1
  {
    if d < 512 {
      SmallDistRoundTrip(d);
    } else if d < 2048 {
      MiddleDistRoundTrip(d);
    } else if d < 4096 {
      UpperDistRoundTrip(d);
    } else if d < 8192 {
      LargeDistRoundTrip(d);
    } else {
      LargestDistRoundTrip(d);
    }
  }
}
