/** Decoding to DRAM coordinates is one-to-one on the covered address range. */
module AddressDecode {
  import opened AddressConfig
  import opened AddressHashing
  import opened AddressMap
  import opened AddressUniqueness
  import opened Arithmetic
  import opened Ipoly
  import opened MaskPacking
  import opened Words

  // ---- field widths ----

  function Least(i: nat, j: nat): nat { if i < j then i else j }

  lemma {:induction false} SplitCounts(m: Masks, width: nat, hi: nat)
    requires Splits(m, width) && hi <= 64
    ensures Ones(m.chip, 0, hi) + Ones(m.bk, 0, hi) + Ones(m.row, 0, hi) + Ones(m.col, 0, hi) == Least(hi, width)
  {
    if hi > 0 {
      SplitCounts(m, width, hi - 1);
      SplitAt(m, width, hi - 1);
    }
  }

  // BK, ROW and COL coincide exactly when the addresses agree under their masks
  lemma FieldsDetermine(m: Masks, x: Word64, y: Word64)
    requires Ones(m.bk, 0, 64) <= 32 && Ones(m.row, 0, 64) <= 32 && Ones(m.col, 0, 64) <= 32
    ensures Field(m.bk, x) == Field(m.bk, y) && Field(m.row, x) == Field(m.row, y) && Field(m.col, x) == Field(m.col, y)
      <==> Agree(m.bk, x, y) && Agree(m.row, x, y) && Agree(m.col, x, y)
  {
    hide Ones, Agree, Pack, Value;
    PackDetermines32(m.bk, x, y);
    PackDetermines32(m.row, x, y);
    PackDetermines32(m.col, x, y);
  }

  // ---- the covered range ----

  ghost predicate Below(w: Word64, width: nat) { forall i :: width <= i < 64 ==> !w[i] }

  lemma RestIsBelow(m: Mapping, addr: Word64, width: nat)
    requires m.channels > 0 && 0 <= m.start <= width <= 64
    requires Value(addr) < m.channels * Pow2(width)
    ensures Below(m.Rest(addr), width)
  {
    hide Value, Pow2, BitsOf;
    var (s, n) := (m.start, m.channels);
    var (x, p, q) := (Value(addr[s..]), Pow2(s), Pow2(width - s));
    assert addr == addr[..s] + addr[s..];
    ValueOfConcat(addr[..s], addr[s..]);
    Pow2OfSum(s, width - s);
    assert p * x < n * (p * q);
    BelowProduct(x, n, p, q);
    QuotientFits(addr[s..], n);
    var r := BitsOf(x / n, 64 - s);
    HighBitsClear(r, width - s);
    forall i | width <= i < 64
      ensures !m.Rest(addr)[i]
    {
      assert m.Rest(addr)[i] == r[i - s];
    }
  }

  lemma BelowProduct(x: nat, n: nat, p: nat, q: nat)
    requires n > 0 && p * x < n * (p * q)
    ensures 0 <= x / n < q
  {
    assert n * (p * q) == (n * q) * p && p * x == x * p;
    if n * q <= x {
      MulIsMonotonic(n * q, x, p);
    }
    assert x == n * (x / n) + x % n;
    assert n * q == q * n && n * (x / n) == (x / n) * n;
    if q <= x / n {
      MulIsMonotonic(q, x / n, n);
    }
    assert x / n >= 0;
  }

  lemma BodyIsBelow(m: Mapping, addr: Word64, width: nat)
    requires m.Ready() && width + m.log2channel <= 64 && (m.gap ==> m.start <= width)
    requires Value(addr) < m.channels * Pow2(width)
    ensures Below(m.Body(addr), if m.gap then width else width + m.log2channel)
  {
    hide Value, Pow2, Ones, LowestOnes, Mapping.Rest;
    if m.gap {
      RestIsBelow(m, addr, width);
    } else {
      Pow2OfSum(m.log2channel, width);
      HighBitsClear(addr, width + m.log2channel);
    }
  }

  // ---- the theorem ----

  ghost predicate SameCoordinates(d: Decoded, e: Decoded) {
    d.chip == e.chip && d.bk == e.bk && d.row == e.row && d.col == e.col
  }

  // a mapping configured from masks that partition the low bits
  ghost predicate Regular(m: Mapping, width: nat) {
    && m.Ready() && 0 <= m.start <= width <= 32 && width + m.log2channel <= 64
    && Splits(m.masks, if m.gap then width else width + m.log2channel)
    && (!m.gap ==> m.HasHole())
    && (m.gap ==> m.indexing in {Consecutive, Custom} && Ones(m.masks.chip, 0, 64) == 0)
    && (m.indexing == IPoly ==> IpolyReady(m))
  }

  lemma FewOnes(m: Mapping, width: nat)
    requires Regular(m, width)
    ensures Ones(m.masks.bk, 0, 64) <= 32 && Ones(m.masks.row, 0, 64) <= 32 && Ones(m.masks.col, 0, 64) <= 32
  {
    hide Splits;
    SplitCounts(m.masks, if m.gap then width else width + m.log2channel, 64);
    if !m.gap {
      OnesOfRange(m.masks.chip, m.start, m.log2channel, 64);
    }
  }

  // all bits but those of the channel are in BK, ROW and COL
  lemma FieldsCover(m: Masks, width: nat, x: Word64, y: Word64)
    requires Splits(m, width) && Below(x, width) && Below(y, width)
    requires Agree(m.bk, x, y) && Agree(m.row, x, y) && Agree(m.col, x, y)
    ensures forall i :: 0 <= i < 64 && !m.chip[i] ==> x[i] == y[i]
    ensures Agree(m.chip, x, y) ==> x == y
  {
    forall i | 0 <= i < 64 && !m.chip[i]
      ensures x[i] == y[i]
    {
      SplitAt(m, width, i);
    }
  }

  lemma QuotientIsHighBits(w: Bits, n: nat)
    requires n <= |w|
    ensures Quotient(Value(w), Pow2(n)) == Value(w[n..])
  {
    hide Value, Pow2;
    assert w == w[..n] + w[n..];
    ValueOfConcat(w[..n], w[n..]);
    ValueBound(w[..n]);
    DivModOfSum(Value(w[n..]), Pow2(n), Value(w[..n]));
  }

  // addresses that differ in channel bits only are told apart by the hashed channel
  lemma IpolyChipDetermines(m: Mapping, a: Word64, b: Word64)
    requires m.Ready() && m.HasHole() && IpolyReady(m)
    requires forall i :: 0 <= i < 64 && !m.masks.chip[i] ==> a[i] == b[i]
    requires m.Decode(a).Some? && m.Decode(b).Some? && m.Decode(a).value.chip == m.Decode(b).value.chip
    ensures a == b
  {
    hide Value, Pow2, Ones, LowestOnes, HashWord, Mapping.Decode;
    IsIpolyMapping(m);
    IpolySub(m, a);
    IpolySub(m, b);
    var (x, y) := (HashWord(m, a), HashWord(m, b));
    QuotientIsHighBits(x, m.log2sub);
    QuotientIsHighBits(y, m.log2sub);
    BitsOfValue(x[m.log2sub..]);
    BitsOfValue(y[m.log2sub..]);
    var c := Hole(m, Xor(a, b));
    assert Xor(a, b) == Channel(m, c);
    ChannelHash(m, c);
    HashOfXor(m, a, b);
    forall i | 0 <= i < |c|
      ensures !c[i]
    {
      var k := m.log2sub + i;
      assert c[i] == (Zeros(m.log2sub) + c)[k] == (x[k] != y[k]);
      assert x[k] == x[m.log2sub..][i] && y[k] == y[m.log2sub..][i];
    }
    assert Channel(m, c) == Zeros(64);
    XorIsZero(a, b);
  }

  lemma PermutedChipDetermines(m: Mapping, a: Word64, b: Word64)
    requires m.Ready() && m.HasHole() && m.indexing == BitwisePermutation
    requires forall i :: 0 <= i < 64 && !m.masks.chip[i] ==> a[i] == b[i]
    requires m.Decode(a).Some? && m.Decode(b).Some? && m.Decode(a).value.chip == m.Decode(b).value.chip
    ensures a == b
  {
    hide Value, Pow2, Ones, LowestOnes, PermutedWord, Mapping.Decode, Mapping.Sub;
    PermutedChip(m, a);
    PermutedChip(m, b);
    BitsOfValue(PermutedWord(m, a));
    BitsOfValue(PermutedWord(m, b));
    SubMaskIsInBank(m);
    assert SamePermuted(m, a, b);
    PermutedBitsAgree(m, a, b);
  }

  /** (chip, bk, row, col) is one-to-one on the covered range: with any channel
      count under consecutive indexing, and with a power of two under the bitwise
      permutation and IPOLY. */
  lemma DecodeIsInjective(m: Mapping, width: nat, a: Word64, b: Word64)
    requires Regular(m, width)
    requires Value(a) < m.channels * Pow2(width) && Value(b) < m.channels * Pow2(width)
    ensures m.Decode(a).Some? && m.Decode(b).Some?
    ensures SameCoordinates(m.Decode(a).value, m.Decode(b).value) <==> a == b
  {
    hide Field, Value, Pow2, BitsOf, Ones, LowestOnes, Splits, Mapping.Sub, Mapping.Rest, Mapping.Higher, IpolyHash,
      PermutedWord, HashWord;
    if m.indexing == IPoly {
      IsIpolyMapping(m);
      IpolySub(m, a);
      IpolySub(m, b);
    } else if m.indexing == BitwisePermutation {
      OnesOfRange(m.masks.chip, m.start, m.log2channel, 64);
      PermutedChip(m, a);
      PermutedChip(m, b);
    }
    var (x, y) := (m.Body(a), m.Body(b));
    BodyIsBelow(m, a, width);
    BodyIsBelow(m, b, width);
    FewOnes(m, width);
    FieldsDetermine(m.masks, x, y);
    if SameCoordinates(m.Decode(a).value, m.Decode(b).value) {
      FieldsCover(m.masks, if m.gap then width else width + m.log2channel, x, y);
      if m.gap {
        NoneMeansEmpty(m.masks.chip, 64);
        assert x == y;
        RestAndChipDetermine(m, a, b);
      } else if m.indexing == IPoly {
        IpolyChipDetermines(m, a, b);
      } else if m.indexing == BitwisePermutation {
        PermutedChipDetermines(m, a, b);
      } else {
        ChipAgrees(m, a, b);
      }
    }
  }

  lemma ConfiguredIsRegular(base: Base, channels: nat, subs: nat, indexing: Indexing, width: nat)
    requires Presentable(base, channels, subs) && Configure(base, channels, subs, indexing).Some?
    requires Splits(base.masks, width) && Ones(base.masks.chip, 0, 64) == 0 && 0 <= base.start <= width <= 32
    requires width + Log2(channels) <= 64 && base.start + Log2(channels) + Log2(subs) <= 64
    requires channels != Pow2(Log2(channels)) ==> indexing in {Consecutive, Custom}
    requires indexing == IPoly ==> channels >= 2 && channels * subs in {16, 32, 64}
    ensures Regular(Configure(base, channels, subs, indexing).value, width)
  {
    hide Log2, Pow2, And, Ones, Splits, LowestOnes, Opened, WithHole;
    ConfiguredIsReady(base, channels, subs, indexing);
    HoleKeepsSplit(base, channels, subs, indexing, width);
  }

  /** Every built-in case, configured for any channel and sub-partition counts that
      fit, is a mapping on whose covered range decoding is one-to-one. */
  lemma BuiltInIsRegular(id: int, channels: nat, subs: nat, indexing: Indexing)
    requires BuiltIn(id).Some? && Presentable(BuiltIn(id).value, channels, subs)
    requires subs == Pow2(Log2(subs))
    requires channels != Pow2(Log2(channels)) ==> indexing in {Consecutive, Custom}
    requires indexing == IPoly ==> channels >= 2 && channels * subs in {16, 32, 64}
    ensures var r := Configure(BuiltIn(id).value, channels, subs, indexing);
      r.Some? && Regular(r.value, Width(id)) && r.value.channels == channels && r.value.subs == subs
  {
    hide Log2, Pow2, And, Ones, Splits, LowestOnes, Configure, Mapping.Ready, BuiltIn, Regular;
    var base := BuiltIn(id).value;
    BuiltInSplits(id);
    LogsFit(channels, subs);
    ConfiguredIsReady(base, channels, subs, indexing);
    ConfiguredIsRegular(base, channels, subs, indexing, Width(id));
    ConfiguredChannels(base, channels, subs, indexing);
  }

  lemma ConfiguredChannels(base: Base, channels: nat, subs: nat, indexing: Indexing)
    requires Presentable(base, channels, subs) && Configure(base, channels, subs, indexing).Some?
    ensures var m := Configure(base, channels, subs, indexing).value;
            m.channels == channels && m.subs == subs && m.indexing == indexing && m.start == base.start
  {
  }
}
