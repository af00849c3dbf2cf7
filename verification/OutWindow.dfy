/** The output side of tinfl_decompress: the caller's buffer as the window that copies read from, either long enough for
    the whole output or a ring. */
module OutWindow {
  import opened Bits
  import opened InflateSpec

  /** The buffer holds what copies can still reach, and `cur` is where the next byte goes. */
  ghost predicate Shows(w: Window, buf: seq<Byte>, out: seq<Byte>, cur: nat) {
    match w
    case Linear => cur == |out| <= |buf| && buf[..cur] == out
    case Ring(history) =>
      && |buf| == |history| > 0 && cur <= |buf| && cur % |buf| == |out| % |buf|
      && forall a :: |out| <= a < |out| + |buf| ==> ShowsAt(history, buf, out, a)
  }

  ghost predicate ShowsAt(history: seq<Byte>, buf: seq<Byte>, out: seq<Byte>, a: nat)
    requires |buf| > 0
  {
    a < |history + out| && buf[a % |buf|] == (history + out)[a]
  }

  lemma ShowsPut(w: Window, buf: seq<Byte>, out: seq<Byte>, cur: nat, c: Byte)
    requires Shows(w, buf, out, cur) && cur < |buf|
    ensures Shows(w, buf[cur := c], out + [c], cur + 1)
  {
    var after := buf[cur := c];
    match w
    case Linear =>
      assert after[..cur + 1] == buf[..cur] + [c];
    case Ring(history) =>
      var n := |buf|;
      NextIndex(cur, |out|, n);
      forall a: nat | |out| + 1 <= a < |out| + 1 + n
        ensures ShowsAt(history, after, out + [c], a)
      {
        if a < |out| + n {
          assert ShowsAt(history, buf, out, a);
          OtherIndex(|out|, a, n);
          assert (history + (out + [c]))[a] == (history + out)[a];
        } else {
          SameIndex(|out|, a, n, 1);
        }
      }
  }

  lemma SameIndex(a: nat, b: nat, n: nat, k: int)
    requires n > 0 && b == a + k * n
    ensures a % n == b % n
  {
    var q := a / n;
    assert a == q * n + a % n;
    MulDistributes(q, k, n);
    DivUnique(b, n, q + k, a % n);
  }

  lemma OtherIndex(a: nat, b: nat, n: nat)
    requires a < b < a + n
    ensures a % n != b % n
  {
    var p, q := a / n, b / n;
    if a % n == b % n {
      assert b - a == n * q - n * p;
      MulDistributes(q, -p, n);
      assert b - a == (q - p) * n;
      if q - p >= 1 {
        MulMonotonic(1, q - p, n);
      } else {
        MulMonotonic(q - p, 0, n);
      }
    }
  }

  lemma NextIndex(cur: nat, pos: nat, n: nat)
    requires n > 0 && cur < n && cur % n == pos % n
    ensures cur == pos % n && (cur + 1) % n == (pos + 1) % n
  {
    DivUnique(cur, n, 0, cur);
    var q := pos / n;
    assert pos + 1 == q * n + (cur + 1);
    SameIndex(cur + 1, pos + 1, n, q);
  }

  /** Where the source of a copy lies: `(ofs - dist) & mask` for any counter `ofs` that has kept pace with the
      output. */
  lemma SourceIndex(w: Window, buf: seq<Byte>, out: seq<Byte>, cur: nat, ofs: nat, dist: nat)
    requires Shows(w, buf, out, cur) && CanCopy(w, out, dist)
    requires if w.Linear? then ofs == |out| else ofs % |buf| == |out| % |buf|
    ensures w.Linear? ==> 0 <= ofs - dist < |buf| && buf[ofs - dist] == Source(w, out, dist)
    ensures w.Ring? ==> buf[(ofs - dist) % |buf|] == Source(w, out, dist)
  {
    match w
    case Linear =>
      assert buf[..cur][ofs - dist] == buf[ofs - dist];
    case Ring(history) =>
      var n := |buf|;
      var d := RingDist(n, dist);
      var a := n + |out| - d;
      assert ShowsAt(history, buf, out, a);
      RingIndex(|out|, ofs, dist, n);
  }

  lemma RingIndex(pos: nat, ofs: nat, dist: nat, n: nat)
    requires n > 0 && ofs % n == pos % n
    ensures n + pos - RingDist(n, dist) >= 0
    ensures (ofs - dist) % n == (n + pos - RingDist(n, dist)) % n
  {
    var a := n + pos - RingDist(n, dist);
    var p, q, e := pos / n, ofs / n, dist / n;
    assert pos == p * n + pos % n && ofs == q * n + pos % n && dist == e * n + dist % n;
    var k := if dist % n == 0 then p - q + e else p - q + e + 1;
    MulDistributes(p - q, e, n);
    MulDistributes(p, -q, n);
    MulDistributes(p - q + e, 1, n);
    assert a - (ofs - dist) == k * n;
    ModShift(ofs - dist, a, n, k);
  }

  lemma ModShift(a: int, b: nat, n: nat, k: int)
    requires n > 0 && b == a + k * n
    ensures a % n == b % n
  {
    var q := b / n;
    assert b == q * n + b % n;
    MulDistributes(q, -k, n);
    DivUnique(a, n, q - k, b % n);
  }

  /** A counter keeps pace with the output: equal to its length, or to it modulo the ring. */
  ghost predicate PacedAt(w: Window, out: seq<Byte>, ofs: nat) {
    if w.Linear? then ofs == |out| else |w.history| > 0 && ofs % |w.history| == |out| % |w.history|
  }

  lemma PacedNext(w: Window, out: seq<Byte>, ofs: nat, c: Byte)
    requires PacedAt(w, out, ofs)
    ensures PacedAt(w, out + [c], ofs + 1)
  {
    if w.Ring? {
      var n := |w.history|;
      var p, q := |out| / n, ofs / n;
      assert |out| == p * n + ofs % n && ofs == q * n + ofs % n;
      MulDistributes(p, -q, n);
      SameIndex(ofs + 1, |out| + 1, n, p - q);
    }
  }

  lemma PacedShows(w: Window, buf: seq<Byte>, out: seq<Byte>, cur: nat)
    requires Shows(w, buf, out, cur)
    ensures PacedAt(w, out, cur) && (w.Linear? ==> cur == |out|) && (w.Ring? ==> |buf| == |w.history| > 0)
  {
  }

  /** The index masked to the ring, and what it still paces. */
  function MaskedIndex(ofs: int, dist: nat, n: nat, ring: bool): int {
    if ring && n > 0 then (ofs - dist) % n else ofs - dist
  }

  lemma MaskedSource(w: Window, buf: seq<Byte>, out: seq<Byte>, cur: nat, ofs: nat, dist: nat)
    requires Shows(w, buf, out, cur) && CanCopy(w, out, dist) && PacedAt(w, out, ofs)
    ensures var i := MaskedIndex(ofs, dist, |buf|, w.Ring?);
      0 <= i < |buf| && buf[i] == Source(w, out, dist) && PacedAt(w, out, i + dist)
  {
    SourceIndex(w, buf, out, cur, ofs, dist);
    if w.Ring? {
      var n := |buf|;
      var i := (ofs - dist) % n;
      var q := (ofs - dist) / n;
      assert ofs - dist == q * n + i;
      SameIndex(i + dist, ofs, n, q);
    }
  }

  /** A source index that is within the buffer is where the source is. */
  lemma IndexSource(w: Window, buf: seq<Byte>, out: seq<Byte>, cur: nat, i: nat, dist: nat)
    requires Shows(w, buf, out, cur) && CanCopy(w, out, dist) && PacedAt(w, out, i + dist) && i < |buf|
    ensures buf[i] == Source(w, out, dist)
  {
    SourceIndex(w, buf, out, cur, i + dist, dist);
    if w.Ring? {
      DivUnique(i, |buf|, 0, i);
    }
  }
}
