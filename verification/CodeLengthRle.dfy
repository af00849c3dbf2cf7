/** The run-length coding of code lengths (section 3.2.7 of RFC 1951): the packing loop of tdefl_start_dynamic_block,
    and the proof that tinfl's rules for 16, 17 and 18 undo it. */
module CodeLengthRle {
  import opened Bits
  import opened Canonical
  import opened Decoding
  import opened InflateSpec
  import BlockSpec

  /** One packed item: a code length, or 16, 17 or 18 with a repeat count. */
  datatype Item = Size(size: nat) | Repeat(n: nat) | ShortZeros(n: nat) | LongZeros(n: nat)

  predicate ValidItem(it: Item) {
    match it
    case Size(s) => s <= 15
    case Repeat(n) => 3 <= n <= 6
    case ShortZeros(n) => 3 <= n <= 10
    case LongZeros(n) => 11 <= n <= 138
  }

  function ItemCode(it: Item): (c: nat)
  {
    match it
    case Size(s) => s
    case Repeat(_) => 16
    case ShortZeros(_) => 17
    case LongZeros(_) => 18
  }

  /** The value sent after codes 16 to 18. */
  function ItemExtra(it: Item): int {
    match it
    case Size(_) => 0
    case Repeat(n) => n - 3
    case ShortZeros(n) => n - 3
    case LongZeros(n) => n - 11
  }

  /** How the item lies in packed_code_sizes. */
  function ItemBytes(it: Item): seq<int> {
    if it.Size? then [it.size] else [ItemCode(it), ItemExtra(it)]
  }

  function Flatten(items: seq<Item>): seq<int> {
    if items == [] then [] else Flatten(items[..|items| - 1]) + ItemBytes(items[|items| - 1])
  }

  /** The code lengths that an item adds to those before it. */
  function Unpack(got: seq<nat>, it: Item): seq<nat> {
    match it
    case Size(s) => got + [s]
    case Repeat(n) => got + Times(if got == [] then 0 else got[|got| - 1], n)
    case ShortZeros(n) => got + Times(0, n)
    case LongZeros(n) => got + Times(0, n)
  }

  function UnpackAll(items: seq<Item>): seq<nat> {
    if items == [] then [] else Unpack(UnpackAll(items[..|items| - 1]), items[|items| - 1])
  }

  /** Every item is in range, and nothing is repeated before there is something to repeat. */
  ghost predicate ValidItems(items: seq<Item>) {
    items == [] ||
    var init, last := items[..|items| - 1], items[|items| - 1];
    ValidItems(init) && ValidItem(last) && (last.Repeat? ==> UnpackAll(init) != [])
  }

  function CodeCount(items: seq<Item>, c: nat): nat {
    if items == [] then 0
    else CodeCount(items[..|items| - 1], c) + (if ItemCode(items[|items| - 1]) == c then 1 else 0)
  }

  lemma Push(items: seq<Item>, it: Item)
    ensures Flatten(items + [it]) == Flatten(items) + ItemBytes(it)
    ensures UnpackAll(items + [it]) == Unpack(UnpackAll(items), it)
    ensures ValidItems(items + [it]) <==> ValidItems(items) && ValidItem(it) && (it.Repeat? ==> UnpackAll(items) != [])
    ensures forall c: nat :: CodeCount(items + [it], c) == CodeCount(items, c) + (if ItemCode(it) == c then 1 else 0)
  {
    assert (items + [it])[..|items|] == items;
  }

  /** What can follow a repeat code is exactly what its items need: two, three and seven bits. */
  lemma RepeatRange(s: nat, v: nat)
    requires 16 <= s <= 18
    ensures v < Pow2(RepeatBits(s)) <==> exists it: Item :: ValidItem(it) && ItemCode(it) == s && ItemExtra(it) == v
  {
    Pow2Values();
    var n := v + RepeatBase(s);
    var it := if s == 16 then Repeat(n) else if s == 17 then ShortZeros(n) else LongZeros(n);
    assert v < Pow2(RepeatBits(s)) ==> ValidItem(it) && ItemCode(it) == s && ItemExtra(it) == v;
  }

  /** The shortest and the longest runs of the three codes (section 3.2.7): 3 to 6, 3 to 10 and 11 to 138. */
  lemma RepeatRuns(s: nat)
    requires 16 <= s <= 18
    ensures RepeatBase(s) == if s == 16 then 3 else if s == 17 then 3 else 11
    ensures Pow2(RepeatBits(s)) - 1 + RepeatBase(s) == if s == 16 then 6 else if s == 17 then 10 else 138
  {
    Pow2Values();
  }

  // ----- the decompressor's side -----

  /** The bits that carry an item. */
  function ItemBits(z: seq<nat>, it: Item): seq<bool>
    requires HasCode(z, ItemCode(it)) && ItemExtra(it) >= 0
  {
    CodeWord(z, ItemCode(it)) + (if it.Size? then [] else ToBits(ItemExtra(it), RepeatBits(ItemCode(it))))
  }

  ghost predicate Sendable(z: seq<nat>, items: seq<Item>) {
    forall i :: 0 <= i < |items| ==> HasCode(z, ItemCode(items[i])) && ItemExtra(items[i]) >= 0
  }

  function ItemsBits(z: seq<nat>, items: seq<Item>): seq<bool>
    requires Sendable(z, items)
  {
    if items == [] then [] else ItemsBits(z, items[..|items| - 1]) + ItemBits(z, items[|items| - 1])
  }

  /** tinfl reads one item back. */
  lemma ReadItem(w: Window, counts: seq<nat>, z: seq<nat>, got: seq<nat>, it: Item, rest: seq<bool>, out: seq<Byte>)
    requires |counts| == 3 && |got| < counts[0] + counts[1]
    requires Fits(z) && ValidItem(it) && HasCode(z, ItemCode(it)) && (it.Repeat? ==> got != [])
    ensures CodeLengths(w, counts, z, got, ItemBits(z, it) + rest, out)
         == CodeLengths(w, counts, z, Unpack(got, it), rest, out)
  {
    hide CodeWord, Fits;
    match it
    case Size(s) =>
      ReadCode(z, s, rest);
      assert ItemBits(z, it) + rest == CodeWord(z, s) + rest;
    case Repeat(n) => ReadRepeat(w, counts, z, got, it, rest, out);
    case ShortZeros(n) => ReadRepeat(w, counts, z, got, it, rest, out);
    case LongZeros(n) => ReadRepeat(w, counts, z, got, it, rest, out);
  }

  lemma RepeatSymbol(w: Window, counts: seq<nat>, z: seq<nat>, got: seq<nat>, c: nat, more: seq<bool>, out: seq<Byte>)
    requires |counts| == 3 && |got| < counts[0] + counts[1] && Fits(z) && HasCode(z, c) && c >= 16
      && (c == 16 ==> got != [])
    ensures CodeLengths(w, counts, z, got, CodeWord(z, c) + more, out) == RepeatCount(w, counts, z, got, c, more, out)
  {
    ReadCode(z, c, more);
    hide CodeWord, Fits, RepeatCount, NextSymbol;
  }

  lemma RepeatValue(w: Window, counts: seq<nat>, z: seq<nat>, got: seq<nat>, it: Item, rest: seq<bool>, out: seq<Byte>)
    requires |counts| == 3 && !it.Size? && ValidItem(it) && (it.Repeat? ==> got != [])
    ensures ItemExtra(it) >= 0
    ensures RepeatCount(w, counts, z, got, ItemCode(it), ToBits(ItemExtra(it), RepeatBits(ItemCode(it))) + rest, out)
         == CodeLengths(w, counts, z, Unpack(got, it), rest, out)
  {
    hide ToBits, Low, FromBits, CodeLengths, ItemExtra, ItemCode, RepeatBits, RepeatBase, RepeatSize, Unpack, ValidItem;
    ItemValue(got, it);
    BlockSpec.ReadBits(ItemExtra(it), RepeatBits(ItemCode(it)), rest);
  }

  lemma ItemValue(got: seq<nat>, it: Item)
    requires !it.Size? && ValidItem(it) && (it.Repeat? ==> got != [])
    ensures 0 <= ItemExtra(it) && Low(ItemExtra(it), RepeatBits(ItemCode(it))) == ItemExtra(it)
    ensures Unpack(got, it) == got + Times(RepeatSize(ItemCode(it), got), ItemExtra(it) + RepeatBase(ItemCode(it)))
  {
    Pow2Values();
    LowSmall(ItemExtra(it), RepeatBits(ItemCode(it)));
    hide Low, Pow2;
  }

  lemma ReadRepeat(w: Window, counts: seq<nat>, z: seq<nat>, got: seq<nat>, it: Item, rest: seq<bool>, out: seq<Byte>)
    requires |counts| == 3 && |got| < counts[0] + counts[1] && !it.Size?
    requires Fits(z) && ValidItem(it) && HasCode(z, ItemCode(it)) && (it.Repeat? ==> got != [])
    ensures CodeLengths(w, counts, z, got, ItemBits(z, it) + rest, out)
         == CodeLengths(w, counts, z, Unpack(got, it), rest, out)
  {
    hide CodeWord, Fits, ToBits, CodeLengths, RepeatCount;
    RepeatValue(w, counts, z, got, it, rest, out);
    var more := ToBits(ItemExtra(it), RepeatBits(ItemCode(it))) + rest;
    RepeatSymbol(w, counts, z, got, ItemCode(it), more, out);
    assert ItemBits(z, it) + rest == CodeWord(z, ItemCode(it)) + more;
  }

  lemma {:induction false} UnpackGrows(items: seq<Item>)
    requires ValidItems(items)
    ensures |UnpackAll(items)| >= |items|
    ensures items != [] ==> |UnpackAll(items[..|items| - 1])| < |UnpackAll(items)|
  {
    if items != [] {
      UnpackGrows(items[..|items| - 1]);
    }
  }

  /** tinfl reads back all items of a packed list that does not go past the expected number of lengths. */
  lemma {:induction false} ReadItems(w: Window, counts: seq<nat>, z: seq<nat>, items: seq<Item>, rest: seq<bool>,
    out: seq<Byte>)
    requires |counts| == 3 && |UnpackAll(items)| <= counts[0] + counts[1]
    requires Fits(z) && ValidItems(items) && Sendable(z, items)
    ensures CodeLengths(w, counts, z, [], ItemsBits(z, items) + rest, out)
         == CodeLengths(w, counts, z, UnpackAll(items), rest, out)
  {
    hide CodeLengths, Fits, ItemBits;
    if items == [] {
      assert ItemsBits(z, items) + rest == rest;
    } else {
      var init, last := items[..|items| - 1], items[|items| - 1];
      UnpackGrows(items);
      ReadItems(w, counts, z, init, ItemBits(z, last) + rest, out);
      ReadItem(w, counts, z, UnpackAll(init), last, rest, out);
      assert ItemsBits(z, items) + rest == ItemsBits(z, init) + (ItemBits(z, last) + rest);
    }
  }

  // ----- the packing loop -----

  /** packed_code_sizes never needs more room than the lengths it packs. */
  const MAX_SIZES := 320

  /** An item takes no more bytes than the lengths it stands for. */
  lemma ItemRoom(items: seq<Item>, it: Item)
    requires ValidItem(it) && |Flatten(items)| <= |UnpackAll(items)|
    ensures |Flatten(items)| + |ItemBytes(it)| <= |Unpack(UnpackAll(items), it)| && ItemCode(it) < 19
  {
    hide Flatten, UnpackAll;
  }

  // ----- which items are packed -----

  /** Where the last run of equal lengths starts. */
  function RunStart(s: seq<nat>): (k: nat)
    requires s != []
    ensures k < |s|
  {
    if |s| == 1 || s[|s| - 2] != s[|s| - 1] then |s| - 1 else RunStart(s[..|s| - 1])
  }

  function Copies(it: Item, n: nat): (r: seq<Item>)
    ensures |r| == n
  {
    seq(n, _ => it)
  }

  /** The full items of a run of v: as many zeros as an item can stand for; or v itself, and six repeats at a time. */
  function Full(v: nat, n: nat): seq<Item>
    requires n > 0
  {
    if v == 0 then Copies(LongZeros(138), n / 138) else [Size(v)] + Copies(Repeat(6), (n - 1) / 6)
  }

  /** How many lengths of the run are left. */
  function Left(v: nat, n: nat): nat
    requires n > 0
  {
    if v == 0 then n % 138 else (n - 1) % 6
  }

  /** The item for those; one or two are sent one by one. */
  function Remainder(v: nat, n: nat): seq<Item> {
    if n < 3 then Copies(Size(v), n)
    else if v != 0 then [Repeat(n)]
    else if n <= 10 then [ShortZeros(n)]
    else [LongZeros(n)]
  }

  /** The items of a list of lengths, run by run. */
  function RunItems(s: seq<nat>): seq<Item>
    decreases |s|
  {
    if s == [] then []
    else
      var k := RunStart(s);
      RunItems(s[..k]) + Full(s[k], |s| - k) + Remainder(s[k], Left(s[k], |s| - k))
  }

  lemma RunGrows(s: seq<nat>, c: nat)
    ensures s != [] && s[|s| - 1] == c ==> RunStart(s + [c]) == RunStart(s) && s[RunStart(s)] == c
    ensures s == [] || s[|s| - 1] != c ==> RunStart(s + [c]) == |s|
  {
    if s != [] {
      assert (s + [c])[..|s|] == s;
      RunValue(s);
    }
  }

  lemma {:induction false} RunValue(s: seq<nat>)
    requires s != []
    ensures s[RunStart(s)] == s[|s| - 1]
  {
    if |s| > 1 && s[|s| - 2] == s[|s| - 1] {
      RunValue(s[..|s| - 1]);
    }
  }

  lemma FullGrows(v: nat, n: nat)
    requires n > 0
    ensures Full(v, 1) == if v == 0 then [] else [Size(v)]
    ensures Left(v, 1) == if v == 0 then 1 else 0
    ensures if v == 0 && Left(v, n) == 137 then Full(v, n + 1) == Full(v, n) + [LongZeros(138)] && Left(v, n + 1) == 0
      else if v != 0 && Left(v, n) == 5 then Full(v, n + 1) == Full(v, n) + [Repeat(6)] && Left(v, n + 1) == 0
      else Full(v, n + 1) == Full(v, n) && Left(v, n + 1) == Left(v, n) + 1
  {
  }

  /** The items are those of all runs but the last, and the full ones of that; the counters say what is left of it. */
  ghost predicate PackedAs(s: seq<nat>, items: seq<Item>, prev: int, zCount: nat, repeatCount: nat) {
    if s == [] then items == [] && zCount == 0 && repeatCount == 0 && prev == 0xFF
    else
      var k := RunStart(s);
      var v, n := s[k], |s| - k;
      && items == RunItems(s[..k]) + Full(v, n) && prev == v
      && zCount == (if v == 0 then Left(v, n) else 0) && repeatCount == (if v == 0 then 0 else Left(v, n))
  }

  /** What is left, as items. */
  function Unsent(prev: int, zCount: nat, repeatCount: nat): seq<Item> {
    if prev <= 0 then Remainder(0, zCount) else Remainder(prev, repeatCount)
  }

  lemma PackedUp(s: seq<nat>, items: seq<Item>, prev: int, zCount: nat, repeatCount: nat)
    requires PackedAs(s, items, prev, zCount, repeatCount)
    ensures RunItems(s) == items + Unsent(prev, zCount, repeatCount)
  {
    hide Full, Left, RunStart;
  }

  /** The next length goes on with the run. */
  lemma RunGoesOn(s: seq<nat>, items: seq<Item>, zCount: nat, repeatCount: nat, c: nat)
    requires s != [] && PackedAs(s, items, c, zCount, repeatCount)
    ensures c == 0 && zCount == 137 ==> PackedAs(s + [c], items + [LongZeros(138)], c, 0, 0)
    ensures c == 0 && zCount != 137 ==> PackedAs(s + [c], items, c, zCount + 1, 0)
    ensures c != 0 && repeatCount == 5 ==> PackedAs(s + [c], items + [Repeat(6)], c, 0, 0)
    ensures c != 0 && repeatCount != 5 ==> PackedAs(s + [c], items, c, 0, repeatCount + 1)
  {
    hide Full, Left, RunItems;
    var k := RunStart(s);
    RunValue(s);
    RunGrows(s, c);
    FullGrows(c, |s| - k);
    hide RunStart;
    assert (s + [c])[..k] == s[..k];
    assert RunItems(s[..k]) + (Full(c, |s| - k) + [LongZeros(138)]) == items + [LongZeros(138)];
    assert RunItems(s[..k]) + (Full(c, |s| - k) + [Repeat(6)]) == items + [Repeat(6)];
  }

  /** The next length starts a run. */
  lemma RunStarts(s: seq<nat>, items: seq<Item>, prev: int, zCount: nat, repeatCount: nat, c: nat)
    requires PackedAs(s, items, prev, zCount, repeatCount) && (s == [] || prev != c)
    ensures var all := items + Unsent(prev, zCount, repeatCount);
      if c == 0 then PackedAs(s + [c], all, c, 1, 0) else PackedAs(s + [c], all + [Size(c)], c, 0, 0)
  {
    hide Full, Left, RunItems;
    PackedUp(s, items, prev, zCount, repeatCount);
    if s != [] {
      RunValue(s);
    }
    RunGrows(s, c);
    FullGrows(c, 1);
    hide RunStart;
    assert (s + [c])[..|s|] == s;
  }

  /** What the two pending run counters stand for. */
  function PendingSizes(prev: int, zCount: nat, repeatCount: nat): seq<nat> {
    Times(0, zCount) + (if prev >= 0 then Times(prev, repeatCount) else [])
  }

  /** The local state of the packing loop. */
  class Packer {
    const packed: array<int>     // packed_code_sizes
    const counts: array<nat>     // m_huff_count[2]
    var numPacked: nat
    var zCount: nat              // rle_z_count
    var repeatCount: nat         // rle_repeat_count
    var prev: int                // prev_code_size
    ghost var items: seq<Item>

    constructor ()
      ensures Valid() && Done([]) && Packing([]) && fresh(packed) && fresh(counts)
    {
      packed := new int[MAX_SIZES](_ => 0);
      counts := new nat[19](_ => 0);
      numPacked, zCount, repeatCount, prev := 0, 0, 0, 0xFF;
      items := [];
    }

    ghost predicate Valid()
      reads this, packed, counts
    {
      && packed.Length == MAX_SIZES && counts.Length == 19
      && zCount < 138 && repeatCount < 6 && Runs() && Stored()
    }

    /** At most one run is pending, and a run of nonzero lengths follows the length it repeats. */
    ghost predicate Runs()
      reads this`prev, this`zCount, this`repeatCount, this`items
    {
      && (0 <= prev <= 15 || prev == 0xFF)
      && (repeatCount > 0 ==> 0 < prev <= 15)
      && (0 < prev <= 15 ==> zCount == 0 && UnpackAll(items) != [] && UnpackAll(items)[|UnpackAll(items)| - 1] == prev)
    }

    /** The items are in the array and counted. */
    ghost predicate Stored()
      reads this`numPacked, this`items, packed, counts
    {
      && packed.Length == MAX_SIZES && counts.Length == 19
      && ValidItems(items) && numPacked == |Flatten(items)| <= |UnpackAll(items)| <= MAX_SIZES
      && packed[..numPacked] == Flatten(items)
      && forall c: nat :: c < 19 ==> counts[c] == CodeCount(items, c)
    }

    /** The items and the pending runs together are exactly these lengths. */
    ghost predicate Done(sizes: seq<nat>)
      reads this
    {
      UnpackAll(items) + PendingSizes(prev, zCount, repeatCount) == sizes
    }

    ghost predicate Packing(s: seq<nat>)
      reads this`items, this`prev, this`zCount, this`repeatCount
    {
      PackedAs(s, items, prev, zCount, repeatCount)
    }

    /** A run that is not one of zeros has no zeros pending, and the other way round. */
    lemma OneRun(s: seq<nat>)
      requires Packing(s)
      ensures (prev == 0 ==> repeatCount == 0) && (prev != 0 ==> zCount == 0) && (prev == 0xFF || s != [])
      ensures Remainder(0, 0) == [] && Remainder(0, 138) == [LongZeros(138)] && (prev > 0 ==> Remainder(prev, 0) == [])
      ensures items + [] == items && Unsent(prev, zCount, repeatCount)
        == if prev == 0 then Remainder(0, zCount) else if repeatCount == 0 then [] else Remainder(prev, repeatCount)
    {
      hide Full, Left, RunItems, RunStart;
    }

    /** Stores one item. */
    method Emit(it: Item)
      requires Stored() && ValidItem(it) && (it.Repeat? ==> UnpackAll(items) != [])
      requires |Unpack(UnpackAll(items), it)| <= MAX_SIZES
      modifies this`numPacked, this`items, packed, counts
      ensures Stored() && items == old(items) + [it]
    {
      hide Flatten, UnpackAll, ValidItems, CodeCount, Unpack, ValidItem;
      Push(items, it);
      ItemRoom(items, it);
      ghost var f := Flatten(items);
      var c := ItemCode(it);
      counts[c] := counts[c] + 1;
      packed[numPacked] := c;
      numPacked := numPacked + 1;
      if !it.Size? {
        packed[numPacked] := ItemExtra(it);
        numPacked := numPacked + 1;
      }
      assert packed[..numPacked] == f + ItemBytes(it);
      items := items + [it];
    }

    /** TDEFL_RLE_PREV_CODE_SIZE: the pending repeats of the previous length become items. */
    method FlushRepeat()
      requires Valid() && |UnpackAll(items)| + repeatCount <= MAX_SIZES
      modifies this, packed, counts
      ensures Valid() && repeatCount == 0 && zCount == old(zCount) && prev == old(prev)
      ensures UnpackAll(items) == old(UnpackAll(items)) + Times(old(prev), old(repeatCount))
      ensures items == old(items) + (if old(repeatCount) == 0 then [] else Remainder(prev, old(repeatCount)))
    {
      ghost var before, was := UnpackAll(items), items;
      hide CodeCount, Flatten, ValidItems, UnpackAll;
      if repeatCount != 0 {
        ghost var n := repeatCount;
        if repeatCount < 3 {
          while repeatCount > 0
            invariant 0 <= repeatCount <= n < 3 && zCount == 0 && 0 < prev <= 15 && prev == old(prev)
            invariant Stored() && UnpackAll(items) == before + Times(prev, n - repeatCount)
            invariant items == was + Copies(Size(prev), n - repeatCount)
          {
            Push(items, Size(prev));
            Emit(Size(prev));
            repeatCount := repeatCount - 1;
          }
        } else {
          Push(items, Repeat(repeatCount));
          Emit(Repeat(repeatCount));
        }
        repeatCount := 0;
      }
    }

    /** TDEFL_RLE_ZERO_CODE_SIZE: the pending zeros become items. */
    method FlushZeros()
      requires Stored() && Runs() && repeatCount < 6
      requires zCount <= 138 && |UnpackAll(items)| + zCount <= MAX_SIZES
      modifies this, packed, counts
      ensures Valid() && zCount == 0 && repeatCount == old(repeatCount) && prev == old(prev)
      ensures UnpackAll(items) == old(UnpackAll(items)) + Times(0, old(zCount))
      ensures items == old(items) + Remainder(0, old(zCount))
    {
      ghost var before, was := UnpackAll(items), items;
      hide CodeCount, Flatten, ValidItems, UnpackAll;
      if zCount != 0 {
        ghost var n := zCount;
        if zCount < 3 {
          while zCount > 0
            invariant 0 <= zCount <= n < 3 && repeatCount == old(repeatCount) && prev == old(prev)
            invariant Stored() && UnpackAll(items) == before + Times(0, n - zCount)
            invariant items == was + Copies(Size(0), n - zCount)
          {
            Push(items, Size(0));
            Emit(Size(0));
            zCount := zCount - 1;
          }
        } else if zCount <= 10 {
          Push(items, ShortZeros(zCount));
          Emit(ShortZeros(zCount));
        } else {
          Push(items, LongZeros(zCount));
          Emit(LongZeros(zCount));
        }
        zCount := 0;
      }
    }

    lemma Room(sizes: seq<nat>)
      requires Done(sizes) && prev >= 0
      ensures |UnpackAll(items)| + zCount + repeatCount == |sizes|
    {
    }

    method StepZero(ghost sizes: seq<nat>)
      requires Valid() && Done(sizes) && |sizes| < MAX_SIZES && Packing(sizes)
      modifies this, packed, counts
      ensures Valid() && Done(sizes + [0]) && prev == 0 && Packing(sizes + [0])
    {
      hide Stored, UnpackAll, PackedAs, Remainder;
      Room(sizes);
      OneRun(sizes);
      if prev == 0 {
        RunGoesOn(sizes, items, zCount, repeatCount, 0);
      } else {
        RunStarts(sizes, items, prev, zCount, repeatCount, 0);
      }
      FlushRepeat();
      zCount := zCount + 1;
      prev := 0;
      if zCount == 138 {
        FlushZeros();
      }
    }

    method StepNonZero(codeSize: nat, ghost sizes: seq<nat>)
      requires Valid() && Done(sizes) && |sizes| < MAX_SIZES && 0 < codeSize <= 15 && Packing(sizes)
      modifies this, packed, counts
      ensures Valid() && Done(sizes + [codeSize]) && prev == codeSize && Packing(sizes + [codeSize])
    {
      hide Stored, UnpackAll, PackedAs, Remainder;
      Room(sizes);
      OneRun(sizes);
      if prev == codeSize {
        RunGoesOn(sizes, items, zCount, repeatCount, codeSize);
      } else {
        RunStarts(sizes, items, prev, zCount, repeatCount, codeSize);
      }
      ghost var was, z, r := items, zCount, repeatCount;
      FlushZeros();
      if codeSize != prev {
        FlushRepeat();
        assert items == was + Unsent(prev, z, r);
        StartRun(codeSize);
      } else {
        ExtendRun(sizes);
      }
    }

    method StartRun(codeSize: nat)
      requires Valid() && zCount == 0 && repeatCount == 0 && |UnpackAll(items)| < MAX_SIZES && 0 < codeSize <= 15
      modifies this, packed, counts
      ensures Valid() && zCount == 0 && repeatCount == 0 && prev == codeSize
      ensures UnpackAll(items) == old(UnpackAll(items)) + [codeSize] && items == old(items) + [Size(codeSize)]
    {
      hide Stored, UnpackAll;
      Push(items, Size(codeSize));
      Emit(Size(codeSize));
      prev := codeSize;
    }

    method ExtendRun(ghost sizes: seq<nat>)
      requires Valid() && zCount == 0 && 0 < prev <= 15 && Done(sizes) && |sizes| < MAX_SIZES
      modifies this, packed, counts
      ensures Valid() && prev == old(prev) && Done(sizes + [prev]) && zCount == 0
      ensures if old(repeatCount) == 5 then repeatCount == 0 && items == old(items) + [Repeat(6)]
        else repeatCount == old(repeatCount) + 1 && items == old(items)
    {
      hide Stored, UnpackAll;
      Room(sizes);
      assert Times(prev, repeatCount) + [prev] == Times(prev, repeatCount + 1);
      repeatCount := repeatCount + 1;
      if repeatCount == 6 {
        FlushFull();
      }
    }

    /** A run of six is flushed at once. */
    method FlushFull()
      requires Stored() && Runs() && zCount == 0 && repeatCount == 6 && |UnpackAll(items)| + repeatCount <= MAX_SIZES
      modifies this, packed, counts
      ensures Valid() && repeatCount == 0 && zCount == 0 && prev == old(prev)
      ensures UnpackAll(items) == old(UnpackAll(items)) + Times(prev, 6) && items == old(items) + [Repeat(6)]
    {
      hide CodeCount, Flatten, ValidItems, UnpackAll;
      Push(items, Repeat(repeatCount));
      Emit(Repeat(repeatCount));
      repeatCount := 0;
    }

    /** One round of the packing loop. */
    method Step(codeSize: nat, ghost sizes: seq<nat>)
      requires Valid() && Done(sizes) && |sizes| < MAX_SIZES && codeSize <= 15 && Packing(sizes)
      modifies this, packed, counts
      ensures Valid() && Done(sizes + [codeSize]) && Packing(sizes + [codeSize])
    {
      if codeSize == 0 {
        StepZero(sizes);
      } else {
        StepNonZero(codeSize, sizes);
      }
    }

    /** The whole loop: the items stand for exactly the given lengths, in no more bytes than there are lengths. */
    method Pack(sizes: array<nat>)
      requires Valid() && Done([]) && Packing([]) && sizes.Length <= MAX_SIZES && sizes != counts
        && sizes as object != packed
      requires forall i :: 0 <= i < sizes.Length ==> sizes[i] <= 15
      modifies this, packed, counts
      ensures Stored() && UnpackAll(items) == sizes[..] && items == RunItems(sizes[..])
    {
      ghost var z := sizes[..];
      hide Stored, UnpackAll, Valid;
      var i := 0;
      while i < sizes.Length
        invariant 0 <= i <= sizes.Length && sizes[..] == z
        invariant Valid() && Done(z[..i]) && Packing(z[..i])
      {
        Step(sizes[i], z[..i]);
        assert z[..i] + [sizes[i]] == z[..i + 1];
        i := i + 1;
      }
      Finish(z);
    }

    method Finish(ghost sizes: seq<nat>)
      requires Valid() && Done(sizes) && |sizes| <= MAX_SIZES && Packing(sizes)
      modifies this, packed, counts
      ensures Stored() && UnpackAll(items) == sizes && items == RunItems(sizes)
    {
      hide Stored, UnpackAll, RunItems, PackedAs, Remainder;
      Room(sizes);
      OneRun(sizes);
      PackedUp(sizes, items, prev, zCount, repeatCount);
      if repeatCount != 0 {
        FlushRepeat();
      } else {
        FlushZeros();
      }
    }
  }
}
