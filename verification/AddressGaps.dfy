/** IPOLY over a channel count that is no power of two: the remainder that brings the
    hash back into range always sends two addresses to one place. */
module AddressGaps {
  import opened AddressHashing
  import opened AddressMap
  import opened AddressUniqueness
  import opened Arithmetic
  import opened Ipoly
  import opened MaskPacking
  import opened Options
  import opened Words

  // ---- higher bits that change the top bit of the hash only ----

  // x^(4+p) + x^(4+q) is x^3 modulo x^4 + x + 1, and so on
  function Pair(sets: nat): (int, int) { if sets == 16 then (0, 3) else if sets == 32 then (1, 4) else (0, 5) }

  function Flip(sets: nat): (w: Word64) { Xor(Unit(Pair(sets).0), Unit(Pair(sets).1)) }

  lemma FlipTerms(sets: nat, i: nat)
    requires Supported(sets) && i < Degree(sets)
    ensures ((Pair(sets).0 in Terms(sets, i)) != (Pair(sets).1 in Terms(sets, i))) <==> i == Degree(sets) - 1
  {
  }

  lemma FlipHash(sets: nat, b: Bits)
    requires Supported(sets) && |b| == Degree(sets)
    ensures var k := |b| - 1; Hash(sets, Flip(sets), b) == b[k := !b[k]]
  {
    hide Terms, Sum;
    var (p, q) := Pair(sets);
    forall i | 0 <= i < |b|
      ensures Sum(Terms(sets, i), Flip(sets), b[i]) <==> (if i == |b| - 1 then !b[i] else b[i])
    {
      FlipTerms(sets, i);
      SumOfXor(Terms(sets, i), Unit(p), Unit(q), b[i], false);
      SumOfUnit(Terms(sets, i), Unit(p), b[i], p);
      SumOfUnit(Terms(sets, i), Unit(q), false, q);
    }
  }

  lemma FlipIsSmall(sets: nat)
    ensures Value(Flip(sets)) < 64
  {
    hide Value;
    SmallPowers();
    BelowPower(Flip(sets), 6);
  }

  lemma FlippedValue(b: Bits, n: nat)
    requires |b| == n + 1
    ensures Value(b[n := !b[n]]) == if Value(b) < Pow2(n) then Value(b) + Pow2(n) else Value(b) - Pow2(n)
  {
    hide Value;
    ValueOfConcat(b[..n], [b[n]]);
    ValueOfConcat(b[..n], [!b[n]]);
    assert b == b[..n] + [b[n]] && b[n := !b[n]] == b[..n] + [!b[n]];
    ValueBound(b[..n]);
    OneBit(b[n]);
    OneBit(!b[n]);
  }

  lemma OneBit(bit: bool)
    ensures Value([bit]) == if bit then 1 else 0
  {
    assert [bit][1..] == [];
  }

  /** These higher bits move every set number by half the number of sets. */
  lemma FlipMovesByHalf(sets: nat, index: nat)
    requires Supported(sets) && index < sets
    ensures IpolyHash(Value(Flip(sets)), index, sets)
            == Some(if index < sets / 2 then index + sets / 2 else index - sets / 2)
  {
    hide Value, BitsOf, Hash, Flip;
    var d := Degree(sets);
    SmallPowers();
    assert Pow2(d) == sets && Pow2(d - 1) == sets / 2;
    BitsOfValue(Flip(sets));
    FlipHash(sets, BitsOf(index, d));
    ValueOfBits(index, d);
    FlippedValue(BitsOf(index, d), d - 1);
  }

  // ---- two channels of one remainder ----

  // an address whose quotient by the channels is rest
  function Located(m: Mapping, rest: nat, chip: nat): (a: Word64)
    requires 0 <= m.start <= 64
  {
    Zeros(m.start) + BitsOf(rest * m.channels + chip, 64 - m.start)
  }

  lemma LocatedParts(m: Mapping, rest: nat, chip: nat)
    requires m.Ready() && m.gap && chip < m.channels && rest * m.channels + chip < Pow2(64 - m.start)
    ensures var a := Located(m, rest, chip);
      && m.Chip(a) == chip && m.Higher(a) == BitsOf(rest, 64)
      && m.Rest(a) == Zeros(m.start) + BitsOf(rest, 64 - m.start)
  {
    hide Value, BitsOf, Pow2, LowestOnes, Ones;
    var a := Located(m, rest, chip);
    assert a[..m.start] == Zeros(m.start) && a[m.start..] == BitsOf(rest * m.channels + chip, 64 - m.start);
    ValueOfBits(rest * m.channels + chip, 64 - m.start);
    DivModOfSum(rest, m.channels, chip);
  }

  // the rounded channel count is twice a number below the channel count
  lemma HalfRounded(m: Mapping) returns (half: nat)
    requires m.Ready() && m.gap
    ensures NextPow2(m.channels) == 2 * half && half < m.channels < 2 * half
  {
    hide LowestOnes, Ones;
    var n := m.channels;
    assert n != 1;
    MulIsMonotonic(1, m.subs, n);
    var j := Log2(n - 1);
    half := Pow2(j);
    Log2Bounds(n - 1);
    if n == 2 * half {
      PowerDoubles(j);
      PowerDoubles(j + 1);
      Log2IsUnique(n, j + 1);
    }
  }

  // n numbers lie strictly between half the sets and all of them: adding half the sets
  // to one number, and taking it from another, leaves the same remainder
  lemma NumbersCollide(m: Mapping, sets: nat, n: nat, low: nat)
    requires m.channels > 0 && m.subs > 0 && m.gap && n == m.channels * m.subs
    requires Supported(sets) && sets == NextPow2(m.channels) * m.subs
    requires sets / 2 + low < n && n + low < sets
    ensures var h := BitsOf(Value(Flip(sets)), 64);
      m.HashedSub(h, sets / 2 + low) == Some(low) == m.HashedSub(h, n - sets / 2 + low)
  {
    hide Value, BitsOf, IpolyHash, Flip, NextPow2;
    BitsOfValue(Flip(sets));
    FlipMovesByHalf(sets, sets / 2 + low);
    FlipMovesByHalf(sets, n - sets / 2 + low);
    DivModOfSum(0, n, low);
    DivModOfSum(1, n, low);
  }

  // channel half and channel channels - half have such numbers
  lemma NumbersOfChannels(channels: nat, half: nat, subs: nat, low: nat)
    requires low < subs && half < channels < 2 * half
    ensures var (sets, n) := (2 * half * subs, channels * subs);
      && half * subs == sets / 2 && (channels - half) * subs == n - sets / 2
      && sets / 2 + low < n && n + low < sets
  {
    assert 2 * half * subs == 2 * (half * subs);
    assert (channels - half) * subs == channels * subs - half * subs;
    MulIsMonotonic(half + 1, channels, subs);
    MulIsMonotonic(channels + 1, 2 * half, subs);
    assert (half + 1) * subs == half * subs + subs && (channels + 1) * subs == channels * subs + subs;
  }

  lemma FitsAbove(m: Mapping, rest: nat, chip: nat)
    requires m.Ready() && m.gap && rest < 64 && chip < m.channels < 64
    ensures rest * m.channels + chip < Pow2(64 - m.start)
  {
    hide LowestOnes, Ones;
    WordSizes();
    MulIsMonotonic(rest, 63, m.channels);
    if 31 < 64 - m.start {
      Pow2Monotonic(31, 64 - m.start);
    }
  }

  /** With gap, IPOLY keeps addresses apart only where it decodes none: whenever the
      counts have equations, two addresses share the sub-partition and the place in it. */
  lemma IpolyWithGapAliases(m: Mapping) returns (a: Word64, b: Word64)
    requires m.Ready() && m.gap && m.indexing == IPoly && NextPow2(m.channels) * m.subs in {16, 32, 64}
    ensures a != b && m.Decode(a).Some? && m.Decode(b).Some? && SamePlace(m, a, b)
    ensures m.Decode(a) == m.Decode(b) && !Separates(m)
  {
    hide Value, BitsOf, Pow2, LowestOnes, Ones, NextPow2, Field, Pack, Mapping.LowBank, Mapping.HashedSub, Flip,
         Located, Quotient;
    var half := HalfRounded(m);
    var sets := NextPow2(m.channels) * m.subs;
    var rest := Value(Flip(sets));
    FlipIsSmall(sets);
    FewChannels(m);
    FitsAbove(m, rest, half);
    FitsAbove(m, rest, m.channels - half);
    a, b := Located(m, rest, half), Located(m, rest, m.channels - half);
    LocatedParts(m, rest, half);
    LocatedParts(m, rest, m.channels - half);
    var bk := Field(m.masks.bk, m.Rest(a));
    LowBankDetermines(m, m.Rest(a), m.Rest(a));
    ChipFits(m, a);
    ChipFits(m, b);
    SubIsSum(m, half, bk);
    SubIsSum(m, m.channels - half, bk);
    NumbersOfChannels(m.channels, half, m.subs, m.LowBank(bk));
    NumbersCollide(m, sets, m.channels * m.subs, m.LowBank(bk));
    IpolyDecodesExactlyWhen(m, a);
    assert m.Decode(a) == m.Decode(b);
  }

  lemma FewChannels(m: Mapping)
    requires m.channels > 0 && m.subs > 0 && NextPow2(m.channels) * m.subs <= 64 && m.channels < NextPow2(m.channels)
    ensures m.channels < 64
  {
    hide NextPow2;
    MulIsMonotonic(1, m.subs, NextPow2(m.channels));
  }
}
