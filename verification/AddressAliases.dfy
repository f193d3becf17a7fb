/** Configurations of hashed indexing that send two addresses to one place. */
module AddressAliases {
  import opened AddressConfig
  import opened AddressDecoders
  import opened AddressHashing
  import opened AddressMap
  import opened MaskPacking
  import opened Options
  import opened Words

  // ---- IPOLY: built-in case 6, 8 channels of 2 sub-partitions ----

  lemma SmallLogarithms()
    ensures Log2(1) == 0 && Log2(2) == 1 && Log2(8) == 3 && Pow2(0) == 1 && Pow2(1) == 2 && Pow2(3) == 8
  {
  }

  // the mapping: channel bits 6 to 8, bank bits 14 and 15, sub-partition bit 14
  lemma Case6Mapping() returns (m: Mapping)
    ensures Presentable(BuiltIn(6).value, 8, 2) && Configure(BuiltIn(6).value, 8, 2, IPoly) == Some(m)
    ensures IpolyMapping(m) && m.HasHole() && m.channels == 8 && m.subs == 2 && m.log2sub == 1 && m.log2channel == 3
    ensures m.start == 6 && m.HigherStart() == 10 && m.subMask[14]
  {
    hide Log2, Pow2, And, Ones, Splits, LowestOnes, Opened, WithHole, Hex;
    var base := BuiltIn(6).value;
    SmallLogarithms();
    BuiltInSplits(6);
    ConfiguredIsReady(base, 8, 2, IPoly);
    m := Configure(base, 8, 2, IPoly).value;
    IsIpolyMapping(m);
    assert m.subMask[14] by {
      BankBits(base.start);
      LowestIs(m.masks.bk, 14);
    }
  }

  lemma BankBits(start: int)
    requires start == 6
    ensures var bk := Opened(Hex(0x1800), start, 3); forall i :: 0 <= i < 64 ==> (bk[i] <==> 14 <= i < 16)
  {
    hide Opened, Hex;
    BankRange();
    forall i | 0 <= i < 64
      ensures Opened(Hex(0x1800), start, 3)[i] <==> 14 <= i < 16
    {
      OpenedIsShifted(Hex(0x1800), start, 3, i);
    }
  }

  lemma BankRange()
    ensures forall i :: 0 <= i < 64 ==> (Hex(0x1800)[i] <==> 11 <= i < 13)
  {
    assert Pow2(5) == 32 && Pow2(11) == 0x800 && Pow2(13) == 0x2000;
    HexRange(0x1800, 11, 13);
  }

  lemma LowestIs(mask: Word64, p: nat)
    requires p < 64 && mask[p] && forall i :: 0 <= i < p ==> !mask[i]
    ensures LowestOnes(mask, 1)[p]
  {
    NoOnes(mask, mask, 0, p);
  }

  lemma BitsOf4080()
    ensures forall i :: 0 <= i < 64 ==> (BitsOf(0x4080, 64)[i] <==> i == 7 || i == 14)
  {
    hide BitsOf;
    assert Pow2(0) == 1 && Pow2(1) == 2 && Pow2(7) == 0x80;
    BitsOfSum(0, 0x81, 7, 64);
    BitsOfSum(1, 1, 7, 57);
    BitsOfRange(0, 0, 7);
    BitsOfRange(0, 1, 7);
    BitsOfRange(0, 1, 50);
  }

  /** With built-in case 6, 8 channels and 2 sub-partitions, IPOLY sends 0x4080 and 0 to
      one sub-partition and one address in it. */
  lemma IpolyAliases() returns (m: Mapping)
    ensures Presentable(BuiltIn(6).value, 8, 2) && Configure(BuiltIn(6).value, 8, 2, IPoly) == Some(m)
    ensures m.Ready() && m.Shiftable() && m.indexing == IPoly && !Separates(m)
    ensures var (a, b) := (BitsOf(0x4080, 64), BitsOf(0, 64));
      a != b && m.Decode(a).Some? && m.Decode(b).Some? && SamePlace(m, a, b)
  {
    hide HashWord, LowestOnes, Ones, BitsOf, Mapping.Decode, SamePlace;
    m := Case6Mapping();
    BitsOf4080();
    assert BitsOf(0, 64) == Zeros(64) by {
      BitsOfValue(Zeros(64));
      ValueOfZeros(64);
    }
    var (a, c) := (BitsOf(0x4080, 64), [false, true, false]);
    assert Xor(a, Zeros(64)) == a == Xor(Unit(14), Channel(m, c));
    HashOfXor(m, Unit(14), Channel(m, c));
    ChannelHash(m, c);
    OneSubBit(m, 14);
    assert HashWord(m, Unit(14)) == [false, false, true, false];
    assert HashWord(m, a) == Zeros(4);
    assert Within(a, Or(m.masks.chip, m.subMask));
    SamePlaceIsUnseen(m, a, Zeros(64));
    assert a[7] != Zeros(64)[7];
  }

  // ---- the bitwise permutation: channel bits 2, 3 and 4, named one by one ----

  // 59 row bits, the three channel bits and two more row bits
  function NamedChannel(): string { seq(64, j => if 59 <= j < 62 then 'D' else 'R') }

  lemma {:induction false} AllLetters(text: string)
    requires forall i :: 0 <= i < |text| ==> IsLetter(text[i])
    ensures Letters(text) == text
  {
    if text != "" {
      AllLetters(text[..|text| - 1]);
    }
  }

  lemma NamedBase() returns (base: Base)
    ensures Parsed(MapOption(None, NamedChannel())) == Some(base) && base.start == -1
    ensures forall i :: 0 <= i < 64 ==> (base.masks.chip[i] <==> 2 <= i < 5)
  {
    var text := NamedChannel();
    AllLetters(text);
    base := Parsed(MapOption(None, text)).value;
    assert forall i :: 0 <= i < 64 ==> base.masks.chip[i] == (text[63 - i] == 'D');
  }

  lemma NamedMapping(base: Base) returns (m: Mapping)
    requires base.start == -1 && forall i :: 0 <= i < 64 ==> (base.masks.chip[i] <==> 2 <= i < 5)
    ensures Presentable(base, 8, 1) && Configure(base, 8, 1, BitwisePermutation) == Some(m)
    ensures m.Ready() && !m.gap && m.Shiftable() && m.indexing == BitwisePermutation && m.HigherStart() == 2
    ensures m.channels == 8 && m.log2channel == 3 && m.masks == base.masks && m.subMask == Zeros(64)
  {
    hide LowestOnes, Ones, Log2, Pow2, And;
    SmallLogarithms();
    OnesOfRange(base.masks.chip, 2, 3, 64);
    ConfiguredIsReady(base, 8, 1, BitwisePermutation);
    m := Configure(base, 8, 1, BitwisePermutation).value;
    NothingLowest(m.masks.bk);
  }

  /** With 8 channels of one sub-partition, an option that names bits 2, 3 and 4 as the
      channel makes the bitwise permutation send every address to channel 0, and the
      addresses 4 and 0 to one place. */
  lemma PermutationAliases() returns (base: Base, m: Mapping)
    ensures Parsed(MapOption(None, NamedChannel())) == Some(base) && base.start == -1 && Presentable(base, 8, 1)
    ensures Configure(base, 8, 1, BitwisePermutation) == Some(m)
    ensures m.Ready() && m.Shiftable() && m.indexing == BitwisePermutation && !Separates(m)
    ensures Unit(2) != Zeros(64) && m.Decode(Unit(2)).Some? && m.Decode(Zeros(64)).Some?
    ensures SamePlace(m, Unit(2), Zeros(64))
    ensures forall addr: Word64 :: m.Decode(addr).Some? && m.Decode(addr).value.chip == 0
  {
    hide LowestOnes, Ones, Log2, Pow2, And, Mapping.Decode, SamePlace, SamePermuted, Pack, Parsed, Configure, Separates;
    base := NamedBase();
    m := NamedMapping(base);
    ThreeOnes(base.masks.chip);
    FirstBitIsLost(m);
    EveryChannelIsZero(m);
  }

  lemma FirstBitIsLost(m: Mapping)
    requires m.Ready() && !m.gap && m.indexing == BitwisePermutation && m.Shiftable() && AddedToItself(m, 2)
    requires Ones(m.masks.chip, 0, 64) <= m.log2channel
    ensures Unit(2) != Zeros(64) && m.Decode(Unit(2)).Some? && m.Decode(Zeros(64)).Some?
    ensures SamePlace(m, Unit(2), Zeros(64)) && !Separates(m)
  {
    hide LowestOnes, Ones, Mapping.Decode, SamePlace, SamePermuted, Pack;
    PermutedUnit(m, 2);
    PermutedChip(m, Unit(2));
    PermutedChip(m, Zeros(64));
    PermutedPair(m, Unit(2), Zeros(64));
    assert Unit(2)[2] && !Zeros(64)[2];
  }

  lemma EveryChannelIsZero(m: Mapping)
    requires m.Ready() && !m.gap && m.indexing == BitwisePermutation && m.Shiftable()
    requires m.log2channel == 3 && m.HigherStart() == 2 && forall i :: 0 <= i < 64 ==> (m.masks.chip[i] <==> 2 <= i < 5)
    ensures forall addr: Word64 :: m.Decode(addr).Some? && m.Decode(addr).value.chip == 0
  {
    hide LowestOnes, Ones, Mapping.Decode, Pack;
    forall addr: Word64
      ensures m.Decode(addr).Some? && m.Decode(addr).value.chip == 0
    {
      ThreeOnes(m.masks.chip);
      PermutedChip(m, addr);
      ChannelIsZero(m, addr);
    }
  }

  lemma ThreeOnes(chip: Word64)
    requires forall i :: 0 <= i < 64 ==> (chip[i] <==> 2 <= i < 5)
    ensures Ones(chip, 0, 2) == 0 && Ones(chip, 0, 64) == 3
  {
    OnesOfRange(chip, 2, 0, 2);
    OnesOfRange(chip, 2, 3, 64);
  }

  lemma NothingLowest(mask: Word64)
    ensures LowestOnes(mask, 0) == Zeros(64)
  {
  }

  lemma ChannelIsZero(m: Mapping, addr: Word64)
    requires m.Ready() && !m.gap && m.Shiftable() && m.log2channel == 3 && m.HigherStart() == 2
    requires forall i :: 0 <= i < 64 ==> (m.masks.chip[i] <==> 2 <= i < 5)
    ensures Value(PermutedWord(m, addr)) == 0
  {
    hide Pack, Ones, LowestOnes;
    var chip := m.masks.chip;
    GatherHole(chip, addr);
    forall k | 0 <= k < 32
      ensures !PermutedWord(m, addr)[k]
    {
      PermutedAt(m, addr, k);
    }
    assert PermutedWord(m, addr) == Zeros(32);
    ValueOfZeros(32);
  }

  // packing bits 2 to 4
  lemma GatherHole(chip: Word64, addr: Word64)
    requires forall i :: 0 <= i < 64 ==> (chip[i] <==> 2 <= i < 5)
    ensures forall k :: 0 <= k < 64 ==> Pack(chip, addr)[k] == (k < 3 && addr[2 + k])
  {
    hide Pack, Ones;
    OnesOfRange(chip, 2, 0, 2);
    OnesOfRange(chip, 2, 1, 3);
    OnesOfRange(chip, 2, 2, 4);
    OnesOfRange(chip, 2, 3, 64);
    PackAt(chip, addr, 2);
    PackAt(chip, addr, 3);
    PackAt(chip, addr, 4);
    PackIsPadded(chip, addr);
  }
}
