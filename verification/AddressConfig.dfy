/** Configuring an address mapping: the built-in masks, the mapping option, and the
    hole that init opens in the masks for the channel number. */
module AddressConfig {
  import opened AddressMap
  import opened Arithmetic
  import opened Options
  import opened MaskPacking
  import opened Words

  datatype Base = Base(start: int, masks: Masks)

  function Hex(n: nat): Word64 { BitsOf(n, 64) }

  function Fixed(start: int, bk: nat, row: nat, col: nat): Base {
    Base(start, Masks(Hex(0), Hex(bk), Hex(row), Hex(col), Hex(0xF)))
  }

  // -gpgpu_mem_address_mask
  function BuiltIn(id: int): Option<Base> {
    match id
    case 0 => Some(Fixed(10, 0x300, 0x7FFE000, 0x1CFF))
    case 1 => Some(Fixed(13, 0x1800, 0x7FFE000, 0x7FF))
    case 2 => Some(Fixed(11, 0x1800, 0x7FFE000, 0x7FF))
    case 3 => Some(Fixed(11, 0x1800, 0xFFFE000, 0x7FF))
    case 14 => Some(Fixed(14, 0x1800, 0x7FFE000, 0x7FF))
    case 15 => Some(Fixed(15, 0x1800, 0x7FFE000, 0x7FF))
    case 16 => Some(Fixed(16, 0x1800, 0x7FFE000, 0x7FF))
    case 6 => Some(Fixed(6, 0x1800, 0x7FFE000, 0x7FF))
    case 5 => Some(Fixed(5, 0x1800, 0x7FFE000, 0x7FF))
    case 100 => Some(Fixed(1, 0x3, 0x7FFE000, 0x1FFC))
    case 103 => Some(Fixed(3, 0x3, 0x7FFE000, 0x1FFC))
    case 106 => Some(Fixed(6, 0x1800, 0x7FFE000, 0x7FF))
    case 160 => Some(Fixed(6, 0x300, 0x7FFE000, 0x1CFF))
    case _ => None
  }

  function ShiftLeft(w: Word64, n: nat): Word64
    requires n <= 64
  {
    Zeros(n) + w[..64 - n]
  }

  // ((mask & ~low) << n) | (mask & low), low being the ones below start
  function Opened(mask: Word64, start: nat, n: nat): Word64
    requires start + n <= 64
  {
    var low := BitsOf(Pow2(start) - 1, 64);
    Or(ShiftLeft(AndBits(mask, Not(low)), n), AndBits(mask, low))
  }

  // the CHIP bits set one by one in the hole
  function WithHole(mask: Word64, start: nat, n: nat): Word64
    requires start + n <= 64
  {
    seq(64, i requires 0 <= i < 64 => mask[i] || start <= i < start + n)
  }

  // what init needs of its caller: the shift amounts are those of a 64-bit word,
  // and of an int where the channel number is divided out
  predicate Presentable(base: Base, channels: nat, subs: nat) {
    && channels > 0 && subs > 0 && channels * subs < 0x8000_0000
    && base.start >= -1 && base.start + Log2(channels) <= 64
    && (channels != Pow2(Log2(channels)) ==> base.start <= 30)
  }

  /** init: None where an assertion of the original fails. */
  function Configure(base: Base, channels: nat, subs: nat, indexing: Indexing): Option<Mapping>
    requires Presentable(base, channels, subs)
  {
    var n := Log2(channels);
    var (gap, log2sub) := (channels != Pow2(n), Log2(subs));
    var b := base.masks;
    if And(subs, subs - 1) != 0 || (base.start == -1 && And(channels, channels - 1) != 0) then None
    else
      var masks := if base.start == -1 || gap then b else
        Masks(WithHole(b.chip, base.start, n), Opened(b.bk, base.start, n), Opened(b.row, base.start, n),
              Opened(b.col, base.start, n), b.burst);
      Some(Mapping(base.start, masks, LowestOnes(masks.bk, log2sub), gap, channels, subs, n, log2sub, indexing))
  }

  lemma ShiftLeftAt(w: Word64, n: nat, i: nat)
    requires n <= 64 && i < 64
    ensures ShiftLeft(w, n)[i] == (i >= n && w[i - n])
  {
  }

  lemma OpenedIsShifted(mask: Word64, start: nat, n: nat, i: nat)
    requires start + n <= 64 && i < 64
    ensures Opened(mask, start, n)[i] == if i < start then mask[i] else i >= start + n && mask[i - n]
  {
    hide BitsOf, ShiftLeft;
    LowBitsOfPow2(start, 64);
    var low := BitsOf(Pow2(start) - 1, 64);
    ShiftLeftAt(AndBits(mask, Not(low)), n, i);
  }

  /** The bits of a mask after those at or above the start have moved up by n. */
  ghost predicate Moved(after: Word64, before: Word64, start: nat, n: nat) {
    forall i {:trigger after[i]} :: 0 <= i < 64 ==>
      after[i] == if i < start then before[i] else i >= start + n && before[i - n]
  }

  lemma OpenedIsMoved(mask: Word64, start: nat, n: nat)
    requires start + n <= 64
    ensures Moved(Opened(mask, start, n), mask, start, n)
  {
    hide Opened;
    var after := Opened(mask, start, n);
    forall i {:trigger after[i]} | 0 <= i < 64
      ensures after[i] == if i < start then mask[i] else i >= start + n && mask[i - n]
    {
      OpenedIsShifted(mask, start, n, i);
    }
  }

  /** What init makes of each mask: with a hole for the channel number every bit at or above
      the start moves up by the width of the hole, which is all of the channel and nothing
      else; without one the masks stay. */
  lemma ConfiguredMasksAre(base: Base, channels: nat, subs: nat, indexing: Indexing)
    requires Presentable(base, channels, subs) && Configure(base, channels, subs, indexing).Some?
    ensures var (m, b, n) := (Configure(base, channels, subs, indexing).value, base.masks, Log2(channels));
      if m.gap || base.start < 0 then m.masks == b
      else
        && Moved(m.masks.bk, b.bk, base.start, n) && Moved(m.masks.row, b.row, base.start, n)
        && Moved(m.masks.col, b.col, base.start, n) && m.masks.burst == b.burst
        && forall i :: 0 <= i < 64 ==> (m.masks.chip[i] <==> b.chip[i] || base.start <= i < base.start + n)
  {
    hide Moved, Opened, Log2, Pow2, And, LowestOnes;
    var (m, b, n) := (Configure(base, channels, subs, indexing).value, base.masks, Log2(channels));
    if !m.gap && base.start >= 0 {
      OpenedIsMoved(b.bk, base.start, n);
      OpenedIsMoved(b.row, base.start, n);
      OpenedIsMoved(b.col, base.start, n);
    }
  }

  // ---- configured mappings are ready ----

  lemma LogsFit(channels: nat, subs: nat)
    requires channels > 0 && subs > 0 && channels * subs < 0x8000_0000
    ensures Log2(channels) + Log2(subs) <= 31
  {
    var (c, s) := (Log2(channels), Log2(subs));
    Log2Bounds(channels);
    Log2Bounds(subs);
    MulIsMonotonic(Pow2(c), channels, Pow2(s));
    MulIsMonotonic(Pow2(s), subs, channels);
    Pow2OfSum(c, s);
    WordSizes();
    if c + s > 31 {
      Pow2Monotonic(31, c + s);
    }
  }

  /** init succeeds exactly when the sub-partition count is a power of two and the
      channel count is one if its bits are named one by one.  With a dramid the
      mapping is then ready, and without gap the CHIP mask is the hole. */
  lemma ConfiguredIsReady(base: Base, channels: nat, subs: nat, indexing: Indexing)
    requires Presentable(base, channels, subs)
    ensures var r := Configure(base, channels, subs, indexing);
      && (r.Some? <==> subs == Pow2(Log2(subs)) && (base.start == -1 ==> channels == Pow2(Log2(channels))))
      && (r.Some? && Ones(base.masks.chip, 0, 64) == 0 && base.start >= 0 ==>
            r.value.Ready() && (!r.value.gap && base.start + r.value.log2channel + r.value.log2sub <= 64 ==>
                                r.value.HasHole()))
      && (r.Some? && base.start == -1 && Ones(base.masks.chip, 0, 64) + Log2(subs) <= 32 ==> r.value.Ready())
  {
    hide Pow2, Log2, And, LowestOnes, Opened;
    ClearLowestOne(subs);
    ClearLowestOne(channels);
    LogsFit(channels, subs);
    if Ones(base.masks.chip, 0, 64) == 0 && base.start >= 0 {
      NoneMeansEmpty(base.masks.chip, 64);
      OnesOfRange(WithHole(base.masks.chip, base.start, Log2(channels)), base.start, Log2(channels), 64);
      forall i | base.start <= i < base.start + Log2(channels)
        ensures !Opened(base.masks.bk, base.start, Log2(channels))[i]
      {
        OpenedIsShifted(base.masks.bk, base.start, Log2(channels), i);
      }
    }
  }

  lemma {:induction false} NoneMeansEmpty(mask: Word64, hi: nat)
    requires hi <= 64 && Ones(mask, 0, hi) == 0
    ensures forall i :: 0 <= i < hi ==> !mask[i]
  {
    if hi > 0 {
      NoneMeansEmpty(mask, hi - 1);
    }
  }

  // ---- the masks partition the low bits ----

  function Count(p: bool): nat { if p then 1 else 0 }

  /** Every bit below width is in exactly one of CHIP, BK, ROW and COL, and no bit
      above is in any. */
  ghost predicate Splits(m: Masks, width: nat) {
    forall i :: 0 <= i < 64 ==>
      Count(m.chip[i]) + Count(m.bk[i]) + Count(m.row[i]) + Count(m.col[i]) == Count(i < width)
  }

  lemma OpenedSplit(b: Masks, start: nat, n: nat, width: nat, i: nat)
    requires Splits(b, width) && start <= width && width + n <= 64 && i < 64
    requires forall j :: 0 <= j < 64 ==> !b.chip[j]
    ensures Count(WithHole(b.chip, start, n)[i]) + Count(Opened(b.bk, start, n)[i])
            + Count(Opened(b.row, start, n)[i]) + Count(Opened(b.col, start, n)[i]) == Count(i < width + n)
  {
    hide Opened;
    OpenedIsShifted(b.bk, start, n, i);
    OpenedIsShifted(b.row, start, n, i);
    OpenedIsShifted(b.col, start, n, i);
    if i < start {
      assert !b.chip[i];
    } else if i >= start + n {
      assert !b.chip[i - n] && !b.chip[i];
    }
  }

  /** Opening the hole for the channel number keeps the partition. */
  lemma HoleKeepsSplit(base: Base, channels: nat, subs: nat, indexing: Indexing, width: nat)
    requires Presentable(base, channels, subs) && Configure(base, channels, subs, indexing).Some?
    requires Splits(base.masks, width) && Ones(base.masks.chip, 0, 64) == 0 && 0 <= base.start <= width
    requires width + Log2(channels) <= 64
    ensures var m := Configure(base, channels, subs, indexing).value;
      Splits(m.masks, if m.gap then width else width + m.log2channel)
  {
    hide Opened, WithHole, Log2, Pow2, And, Ones, LowestOnes, Count;
    var m := Configure(base, channels, subs, indexing).value;
    if !m.gap {
      NoneMeansEmpty(base.masks.chip, 64);
      forall i | 0 <= i < 64
        ensures Count(m.masks.chip[i]) + Count(m.masks.bk[i]) + Count(m.masks.row[i]) + Count(m.masks.col[i])
                == Count(i < width + m.log2channel)
      {
        OpenedSplit(base.masks, base.start, m.log2channel, width, i);
      }
    }
  }

  lemma SplitAt(m: Masks, width: nat, i: nat)
    requires Splits(m, width) && i < 64
    ensures Count(m.chip[i]) + Count(m.bk[i]) + Count(m.row[i]) + Count(m.col[i]) == Count(i < width)
  {
  }

  lemma HexRange(n: nat, lo: nat, hi: nat)
    requires lo <= hi && n == Pow2(hi) - Pow2(lo)
    ensures forall i :: 0 <= i < 64 ==> (Hex(n)[i] <==> lo <= i < hi)
  {
    BitsOfRange(lo, hi, 64);
  }

  lemma HexTwoRanges(n: nat, k: nat, lo: nat, hi: nat)
    requires lo <= hi && k <= 64 && n == Pow2(k) - 1 + Pow2(k) * (Pow2(hi) - Pow2(lo))
    ensures forall i :: 0 <= i < 64 ==> (Hex(n)[i] <==> i < k || k + lo <= i < k + hi)
  {
    hide BitsOf, Pow2;
    BitsOfRange(0, k, k);
    BitsOfRange(lo, hi, 64 - k);
    PowerZero();
    BitsOfSum(Pow2(k) - 1, Pow2(hi) - Pow2(lo), k, 64);
  }

  // the masks of three fields of the built-in cases partition the low bits
  ghost predicate FieldsSplit(bk: nat, row: nat, col: nat, width: nat) {
    forall i :: 0 <= i < 64 ==> Count(Hex(bk)[i]) + Count(Hex(row)[i]) + Count(Hex(col)[i]) == Count(i < width)
  }

  lemma RowsAboveBanks(row: nat, width: nat)
    requires 13 <= width && row == Pow2(width) - Pow2(13)
    ensures FieldsSplit(0x1800, row, 0x7FF, width)
    ensures FieldsSplit(0x300, row, 0x1CFF, width)
    ensures FieldsSplit(0x3, row, 0x1FFC, width)
  {
    hide Hex, BitsOf;
    HexRange(row, 13, width);
    assert FieldsSplit(0x1800, row, 0x7FF, width) by {
      HexRange(0x1800, 11, 13);
      HexRange(0x7FF, 0, 11);
    }
    assert FieldsSplit(0x300, row, 0x1CFF, width) by {
      HexRange(0x300, 8, 10);
      HexTwoRanges(0x1CFF, 8, 2, 5);
    }
    assert FieldsSplit(0x3, row, 0x1FFC, width) by {
      HexRange(0x3, 0, 2);
      HexRange(0x1FFC, 2, 13);
    }
  }

  lemma FieldsGiveSplit(start: int, bk: nat, row: nat, col: nat, width: nat)
    requires FieldsSplit(bk, row, col, width)
    ensures var m := Fixed(start, bk, row, col).masks;
            Splits(m, width) && Ones(m.chip, 0, 64) == 0
  {
    hide Hex, Ones;
    HexRange(0, 0, 0);
    var m := Fixed(start, bk, row, col).masks;
    NoOnes(m.chip, m.chip, 0, 64);
  }

  // the built-in masks cover this many low address bits
  function Width(id: int): nat { if id == 3 then 28 else 27 }

  /** In every built-in case BK, ROW and COL partition the covered low bits, and the
      channel number is inserted inside them. */
  lemma BuiltInSplits(id: int)
    requires BuiltIn(id).Some?
    ensures var b := BuiltIn(id).value;
      Splits(b.masks, Width(id)) && Ones(b.masks.chip, 0, 64) == 0 && 0 < b.start <= 16
  {
    hide Hex, Ones, Splits, FieldsSplit;
    assert Pow2(13) == 0x2000 && Pow2(20) == 0x10_0000 && Pow2(27) == 0x800_0000 && Pow2(28) == 0x1000_0000;
    RowsAboveBanks(if id == 3 then 0xFFFE000 else 0x7FFE000, Width(id));
    var (start, row) := (BuiltIn(id).value.start, if id == 3 then 0xFFFE000 else 0x7FFE000);
    if id in {0, 160} {
      FieldsGiveSplit(start, 0x300, row, 0x1CFF, 27);
    } else if id in {100, 103} {
      FieldsGiveSplit(start, 0x3, row, 0x1FFC, 27);
    } else {
      FieldsGiveSplit(start, 0x1800, row, 0x7FF, Width(id));
    }
  }
}
