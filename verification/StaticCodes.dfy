/** The two fixed codes of section 3.2.6 of RFC 1951 use every bit string, so a table built from them never fails. */
module StaticCodes {
  import opened Bits
  import opened Canonical
  import opened InflateSpec

  lemma {:induction false} CountRun(z: seq<nat>, lo: nat, hi: nat, v: nat, l: nat)
    requires lo <= hi <= |z| && forall i :: lo <= i < hi ==> z[i] == v
    ensures CountTo(z, hi, l) == CountTo(z, lo, l) + (if l == v then hi - lo else 0)
  {
    if lo < hi {
      CountRun(z, lo, hi - 1, v, l);
    }
  }

  lemma LitCounts(l: nat)
    ensures Count(StaticLit(), l) == if l == 7 then 24 else if l == 8 then 152 else if l == 9 then 112 else 0
  {
    var z := StaticLit();
    CountRun(z, 0, 144, 8, l);
    CountRun(z, 144, 256, 9, l);
    CountRun(z, 256, 280, 7, l);
    CountRun(z, 280, 288, 8, l);
  }

  lemma DistCounts(l: nat)
    ensures Count(StaticDist(), l) == if l == 5 then 32 else 0
  {
    CountRun(StaticDist(), 0, 32, 5, l);
  }

  /** Past its longest code a complete code's total only doubles. */
  lemma {:induction false} FirstDoubles(z: seq<nat>, l: nat, m: nat)
    requires 1 <= l <= m && First(z, l) == Pow2(l)
    requires forall k :: l <= k < m ==> Count(z, k) == 0
    ensures First(z, m) == Pow2(m)
  {
    if l < m {
      FirstDoubles(z, l, m - 1);
    }
  }

  lemma {:induction false} FirstZero(z: seq<nat>, l: nat)
    requires forall k :: 1 <= k < l ==> Count(z, k) == 0
    ensures First(z, l) == 0
  {
    if l > 1 {
      FirstZero(z, l - 1);
    }
  }

  lemma StaticLitComplete()
    ensures Complete(StaticLit()) && Acceptable(StaticLit())
  {
    hide Count;
    var z := StaticLit();
    forall l: nat
      ensures Count(z, l) == if l == 7 then 24 else if l == 8 then 152 else if l == 9 then 112 else 0
    {
      LitCounts(l);
    }
    FirstZero(z, 7);
    assert First(z, 8) == 48 && First(z, 9) == 400 && First(z, 10) == 1024;
    Pow2Values();
    FirstDoubles(z, 10, 16);
  }

  lemma StaticDistComplete()
    ensures Complete(StaticDist()) && Acceptable(StaticDist())
  {
    hide Count;
    var z := StaticDist();
    forall l: nat
      ensures Count(z, l) == if l == 5 then 32 else 0
    {
      DistCounts(l);
    }
    FirstZero(z, 5);
    assert First(z, 6) == 64;
    Pow2Values();
    FirstDoubles(z, 6, 16);
  }

  /** How many symbols before s have a code of the same length. */
  lemma LitRank(s: nat)
    requires s < 288
    ensures CountTo(StaticLit(), s, StaticLit()[s])
         == if s <= 143 then s else if s <= 255 then s - 144 else if s <= 279 then s - 256 else 144 + s - 280
  {
    hide CountTo;
    var z := StaticLit();
    var l := z[s];
    CountNone(z, l);
    CountRun(z, 0, Min(s, 144), 8, l);
    if s >= 144 {
      CountRun(z, 144, Min(s, 256), 9, l);
    }
    if s >= 256 {
      CountRun(z, 256, Min(s, 280), 7, l);
    }
    if s >= 280 {
      CountRun(z, 280, s, 8, l);
    }
  }

  lemma CountNone(z: seq<nat>, l: nat)
    ensures CountTo(z, 0, l) == 0
  {
  }

  /** The code words that section 3.2.6 lists for the literal/length symbols. */
  lemma LitWord(s: nat)
    requires s < 288
    ensures CodeWord(StaticLit(), s)
         == if s <= 143 then MsbBits(48 + s, 8)
            else if s <= 255 then MsbBits(400 + s - 144, 9)
            else if s <= 279 then MsbBits(s - 256, 7)
            else MsbBits(192 + s - 280, 8)
  {
    hide MsbBits, CountTo, First;
    LitFirsts();
    LitRank(s);
  }

  lemma LitFirsts()
    ensures var z := StaticLit();
      First(z, 7) == 0 && First(z, 8) == 48 && First(z, 9) == 400
  {
    hide Count;
    var z := StaticLit();
    forall l: nat
      ensures Count(z, l) == if l == 7 then 24 else if l == 8 then 152 else if l == 9 then 112 else 0
    {
      LitCounts(l);
    }
    FirstZero(z, 7);
  }

  /** The distance symbols are sent as plain five-bit numbers, most significant bit first. */
  lemma DistWord(s: nat)
    requires s < 32
    ensures CodeWord(StaticDist(), s) == MsbBits(s, 5)
  {
    hide MsbBits, Count;
    var z := StaticDist();
    forall l: nat
      ensures Count(z, l) == if l == 5 then 32 else 0
    {
      DistCounts(l);
    }
    FirstZero(z, 5);
    CountRun(z, 0, s, 5, 5);
  }
}
