/** What the DRAM coordinates of a decoded address are: each gathers the bits of its own
    mask, lowest first, and nothing else. */
module AddressFields {
  import opened AddressMap
  import opened AddressUniqueness
  import opened Ipoly
  import opened MaskPacking
  import opened Words

  // both addresses decode
  ghost predicate Decodes(m: Mapping, a: Word64) {
    && m.Ready() && (m.indexing in {BitwisePermutation, IPoly} ==> m.Shiftable())
    && m.Decode(a).Some?
  }

  // the address with the channel number divided out, if the channel count is no power of two
  function Quotiented(m: Mapping, addr: Word64): Word64
    requires m.channels > 0 && (m.gap ==> 0 <= m.start <= 64)
  {
    if m.gap then addr[..m.start] + BitsOf(Value(addr[m.start..]) / m.channels, 64 - m.start) else addr
  }

  // ---- packed fields ----

  lemma FieldAgrees(mask: Word64, x: Word64, y: Word64)
    ensures Field(mask, x) == Field(mask, y) <==> Agree(LowestOnes(mask, 32), x, y)
  {
    hide Pack, LowestOnes, Value, BitsOf;
    LowPackedBits(mask, x, y, 32);
    BitsOfValue(Pack(mask, x)[..32]);
    BitsOfValue(Pack(mask, y)[..32]);
  }

  lemma FewLowestOnes(mask: Word64)
    requires Ones(mask, 0, 64) <= 32
    ensures LowestOnes(mask, 32) == mask
  {
    forall i | 0 <= i < 64
      ensures LowestOnes(mask, 32)[i] == mask[i]
    {
      if mask[i] {
        OnesGrow(mask, i + 1, 64);
      }
    }
  }

  // one more bit in a word
  lemma {:induction false} GatherOfOneMore(mask: Word64, v: Word64, p: nat, hi: nat)
    requires p < 64 && hi <= 64
    ensures |Gather(mask, v, 0, hi)| == Ones(mask, 0, hi)
    ensures p < hi && mask[p] ==> Ones(mask, 0, p) < Ones(mask, 0, hi)
    ensures Gather(mask, v[p := true], 0, hi)
            == if p < hi && mask[p] then Gather(mask, v, 0, hi)[Ones(mask, 0, p) := true] else Gather(mask, v, 0, hi)
  {
    GatherLength(mask, v, 0, hi);
    if hi > 0 {
      GatherOfOneMore(mask, v, p, hi - 1);
      GatherLength(mask, v, 0, hi - 1);
      if p < hi && mask[p] {
        OnesGrow(mask, p + 1, hi);
      }
    }
  }

  lemma {:induction false} GatheredBit(mask: Word64, v: Word64, p: nat, hi: nat)
    requires p < hi <= 64 && mask[p]
    ensures Ones(mask, 0, p) < |Gather(mask, v, 0, hi)| && Gather(mask, v, 0, hi)[Ones(mask, 0, p)] == v[p]
  {
    GatherLength(mask, v, 0, hi - 1);
    if p < hi - 1 {
      GatheredBit(mask, v, p, hi - 1);
    }
  }

  lemma {:induction false} ValueOfOneMore(w: Bits, j: nat)
    requires j < |w| && !w[j]
    ensures Value(w[j := true]) == Value(w) + Pow2(j)
  {
    ValueOfConcat(w[..j], w[j..]);
    ValueOfConcat(w[..j], w[j := true][j..]);
    assert w == w[..j] + w[j..] && w[j := true] == w[..j] + w[j := true][j..];
    assert w[j := true][j..][1..] == w[j..][1..];
    assert Value(w[j := true][j..]) == 1 + Value(w[j..]);
    assert Pow2(j) * (1 + Value(w[j..])) == Pow2(j) + Pow2(j) * Value(w[j..]);
  }

  /** The j-th lowest bit of a mask counts 2^j in its field, and a bit outside it nothing. */
  lemma FieldOfOneMore(mask: Word64, v: Word64, p: nat)
    requires p < 64 && !v[p]
    ensures var j := Ones(mask, 0, p);
      Field(mask, v[p := true]) == Field(mask, v) + if mask[p] && j < 32 then Pow2(j) else 0
  {
    hide Value, Pow2, Gather, Ones;
    var (g, j) := (Gather(mask, v, 0, 64), Ones(mask, 0, p));
    GatherOfOneMore(mask, v, p, 64);
    if mask[p] {
      GatheredBit(mask, v, p, 64);
      assert Pack(mask, v[p := true]) == Pack(mask, v)[j := true];
      if j < 32 {
        ValueOfOneMore(Pack(mask, v)[..32], j);
        assert Pack(mask, v)[j := true][..32] == Pack(mask, v)[..32][j := true];
      } else {
        assert Pack(mask, v)[j := true][..32] == Pack(mask, v)[..32];
      }
    }
  }

  lemma FieldOfZeros(mask: Word64)
    ensures Field(mask, Zeros(64)) == 0
  {
    hide Value, Gather;
    GatherNothing(mask, 64);
    assert Pack(mask, Zeros(64))[..32] == Zeros(32);
    ValueOfZeros(32);
  }

  lemma {:induction false} GatherNothing(mask: Word64, hi: nat)
    requires hi <= 64
    ensures forall k :: 0 <= k < |Gather(mask, Zeros(64), 0, hi)| ==> !Gather(mask, Zeros(64), 0, hi)[k]
  {
    if hi > 0 {
      GatherNothing(mask, hi - 1);
    }
  }

  // ---- the coordinates ----

  // bank, row, column and burst of a decoded address, whatever the indexing
  lemma CoordinatesAre(m: Mapping, addr: Word64)
    requires Decodes(m, addr)
    ensures var (d, x) := (m.Decode(addr).value, Quotiented(m, addr));
      && d.bk == Field(m.masks.bk, x) && d.row == Field(m.masks.row, x)
      && d.col == Field(m.masks.col, x) && d.burst == Field(m.masks.burst, x)
  {
    hide Field, Mapping.Sub, Mapping.Chip, Mapping.Higher, BitwiseHash, Mapping.HashedSub, Value, BitsOf;
  }

  /** For every indexing: two addresses decode to the same bank, row, column or burst if
      and only if, the channel number divided out, they agree on the bits of its mask, of
      which the 32 lowest fit the field. */
  lemma CoordinatesAgreeExactlyWhen(m: Mapping, a: Word64, b: Word64)
    requires Decodes(m, a) && Decodes(m, b)
    ensures var (d, e, x, y) := (m.Decode(a).value, m.Decode(b).value, Quotiented(m, a), Quotiented(m, b));
      && (d.bk == e.bk <==> Agree(LowestOnes(m.masks.bk, 32), x, y))
      && (d.row == e.row <==> Agree(LowestOnes(m.masks.row, 32), x, y))
      && (d.col == e.col <==> Agree(LowestOnes(m.masks.col, 32), x, y))
      && (d.burst == e.burst <==> Agree(LowestOnes(m.masks.burst, 32), x, y))
    ensures forall mask: Word64 :: Ones(mask, 0, 64) <= 32 ==> LowestOnes(mask, 32) == mask
  {
    hide Field, Agree, LowestOnes, Mapping.Decode, Quotiented, Ones;
    var (x, y) := (Quotiented(m, a), Quotiented(m, b));
    CoordinatesAre(m, a);
    CoordinatesAre(m, b);
    FieldAgrees(m.masks.bk, x, y);
    FieldAgrees(m.masks.row, x, y);
    FieldAgrees(m.masks.col, x, y);
    FieldAgrees(m.masks.burst, x, y);
    forall mask: Word64 | Ones(mask, 0, 64) <= 32
      ensures LowestOnes(mask, 32) == mask
    {
      FewLowestOnes(mask);
    }
  }

  // what bit p counts in the field of a mask
  function Weight(mask: Word64, p: nat): nat
    requires p < 64
  {
    if mask[p] && Ones(mask, 0, p) < 32 then Pow2(Ones(mask, 0, p)) else 0
  }

  /** Consecutive indexing: the channel is the number formed by the channel bits, or the
      remainder by a channel count that is no power of two, and the sub-partition number
      adds the low bank bits to its multiple. */
  lemma ChannelsAre(m: Mapping, addr: Word64)
    requires Decodes(m, addr) && m.indexing in {Consecutive, Custom}
    ensures var d := m.Decode(addr).value;
      && d.chip == (if m.gap then Value(addr[m.start..]) % m.channels else Field(m.masks.chip, addr))
      && (d.chip + 1) * m.subs <= WORD32 && d.sub == d.chip * m.subs + d.bk % m.subs
  {
    hide Field, Value, BitsOf, LowestOnes, Ones, Mapping.Sub, Mapping.LowBank, Pow2;
    ChipFits(m, addr);
    CoordinatesAre(m, addr);
    var bk := m.Decode(addr).value.bk;
    FewSubPartitions(m);
    LowBankDetermines(m, Quotiented(m, addr), Quotiented(m, addr));
    LowBankIsRemainder(m, m.masks.bk, Quotiented(m, addr));
    SubIsSum(m, m.Decode(addr).value.chip, bk);
  }

  lemma LowBankIsRemainder(m: Mapping, mask: Word64, x: Word64)
    requires m.subs == Pow2(m.log2sub) && m.log2sub <= 32
    ensures m.LowBank(Field(mask, x)) == Field(mask, x) % m.subs
  {
    hide Pack, Value, BitsOf, AndBits, Pow2;
    var w := Pack(mask, x)[..32];
    BitsOfValue(w);
    AndLowMask(w, m.log2sub);
    ValueOfTail(w[..m.log2sub], 32 - m.log2sub);
    LowValue(w, m.log2sub);
  }

  /** The partition address of the address zero is zero, and one more bit, the channel number
      divided out, adds 2^j if it is the j-th lowest bit that names neither the channel nor
      the sub-partition, and nothing otherwise. */
  lemma PartitionCountsBits(m: Mapping, a: Word64, b: Word64, p: nat)
    requires m.channels > 0 && (m.gap ==> 0 <= m.start <= 64) && p < 64
    requires !Quotiented(m, a)[p] && Quotiented(m, b) == Quotiented(m, a)[p := true]
    ensures var rest := if m.gap then Not(m.subMask) else Not(Or(m.masks.chip, m.subMask));
      && Value(m.Partition(b)) == Value(m.Partition(a)) + (if rest[p] then Pow2(Ones(rest, 0, p)) else 0)
      && (Quotiented(m, a) == Zeros(64) ==> Value(m.Partition(a)) == 0)
  {
    hide Value, Pow2, Pack, Ones, Quotiented;
    var rest := if m.gap then Not(m.subMask) else Not(Or(m.masks.chip, m.subMask));
    PartitionIsPacked(m, a);
    PartitionIsPacked(m, b);
    PackOfOneMore(rest, Quotiented(m, a), p);
    PackOfNothing(rest);
  }

  lemma PartitionIsPacked(m: Mapping, addr: Word64)
    requires m.channels > 0 && (m.gap ==> 0 <= m.start <= 64)
    ensures m.Partition(addr)
            == Pack(if m.gap then Not(m.subMask) else Not(Or(m.masks.chip, m.subMask)), Quotiented(m, addr))
  {
    hide Pack, Value, BitsOf;
  }

  lemma PackOfOneMore(mask: Word64, v: Word64, p: nat)
    requires p < 64 && !v[p]
    ensures Value(Pack(mask, v[p := true])) == Value(Pack(mask, v)) + if mask[p] then Pow2(Ones(mask, 0, p)) else 0
  {
    hide Value, Pow2, Gather, Ones;
    GatherOfOneMore(mask, v, p, 64);
    if mask[p] {
      GatheredBit(mask, v, p, 64);
      assert Pack(mask, v[p := true]) == Pack(mask, v)[Ones(mask, 0, p) := true];
      ValueOfOneMore(Pack(mask, v), Ones(mask, 0, p));
    }
  }

  lemma PackOfNothing(mask: Word64)
    ensures Value(Pack(mask, Zeros(64))) == 0
  {
    hide Value, Gather;
    GatherNothing(mask, 64);
    assert Pack(mask, Zeros(64)) == Zeros(64);
    ValueOfZeros(64);
  }

  /** The coordinates of the address zero are zero, and one more bit adds its weight in each
      mask: 2^j to the field in whose mask it is the j-th lowest bit, nothing to another. */
  lemma CoordinatesCountBits(m: Mapping, a: Word64, b: Word64, p: nat)
    requires Decodes(m, a) && Decodes(m, b) && p < 64
    requires !Quotiented(m, a)[p] && Quotiented(m, b) == Quotiented(m, a)[p := true]
    ensures var (d, e) := (m.Decode(a).value, m.Decode(b).value);
      && e.bk == d.bk + Weight(m.masks.bk, p) && e.row == d.row + Weight(m.masks.row, p)
      && e.col == d.col + Weight(m.masks.col, p) && e.burst == d.burst + Weight(m.masks.burst, p)
    ensures var d := m.Decode(a).value;
      Quotiented(m, a) == Zeros(64) ==> d.bk == 0 && d.row == 0 && d.col == 0 && d.burst == 0
  {
    hide Field, Mapping.Decode, Quotiented, Ones;
    var x := Quotiented(m, a);
    CoordinatesAre(m, a);
    CoordinatesAre(m, b);
    FieldOfOneMore(m.masks.bk, x, p);
    FieldOfOneMore(m.masks.row, x, p);
    FieldOfOneMore(m.masks.col, x, p);
    FieldOfOneMore(m.masks.burst, x, p);
    FieldOfZeros(m.masks.bk);
    FieldOfZeros(m.masks.row);
    FieldOfZeros(m.masks.col);
    FieldOfZeros(m.masks.burst);
  }
}
