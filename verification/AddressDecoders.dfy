/** linear_to_raw_address_translation: the configured object, its initialisation,
    its option parser and its two translations. */
module AddressDecoders {
  import opened AddressConfig
  import opened AddressMap
  import opened Arithmetic
  import opened Options
  import opened Ipoly
  import opened MaskPacking
  import opened Words

  const CHIP := 0
  const BK := 1
  const ROW := 2
  const COL := 3
  const BURST := 4

  // ---- the mapping option ----

  // the option string: dramid@<start> if it begins so, and the map after the semicolon
  datatype MapOption = MapOption(dramid: Option<nat>, text: string)

  predicate IsLetter(c: char) { c in {'D', 'd', 'B', 'b', 'R', 'r', 'C', 'c', 'S', 's', '0'} }

  // the characters that take up an address bit
  function Letters(text: string): string {
    if text == "" then ""
    else Letters(text[..|text| - 1]) + if IsLetter(text[|text| - 1]) then [text[|text| - 1]] else []
  }

  // the address bits named by the given letters, the first letter standing for bit 63
  function Named(letters: string, names: set<char>): Word64 {
    seq(64, i requires 0 <= i < 64 => 63 - i < |letters| && letters[63 - i] in names)
  }

  predicate NamesChip(letters: string) { exists i :: 0 <= i < |letters| && letters[i] in {'D', 'd'} }

  function NamedMasks(t: string): Masks {
    Masks(Named(t, {'D', 'd'}), Named(t, {'B', 'b'}), Named(t, {'R', 'r'}), Named(t, {'C', 'c', 'S', 's'}),
          Named(t, {'S', 's'}))
  }

  // None where an assertion of addrdec_parseoption fails
  function Parsed(option: MapOption): Option<Base> {
    var t := Letters(option.text);
    if |t| != 64 || (option.dramid.Some? && NamesChip(t)) then None
    else Some(Base(if option.dramid.Some? then option.dramid.value else -1, NamedMasks(t)))
  }

  // the letter of one bit, and the masks that have it
  ghost predicate NamesBit(m: Masks, t: string, i: nat)
    requires |t| == 64 && i < 64
  {
    var c := t[63 - i];
    && (m.chip[i] <==> c == 'D' || c == 'd')
    && (m.bk[i] <==> c == 'B' || c == 'b')
    && (m.row[i] <==> c == 'R' || c == 'r')
    && (m.burst[i] <==> c == 'S' || c == 's')
    && (m.col[i] <==> c == 'C' || c == 'c' || c == 'S' || c == 's')
  }

  lemma NamedBit(t: string, i: nat)
    requires |t| == 64 && i < 64
    ensures NamesBit(NamedMasks(t), t, i)
  {
  }

  lemma NamesBitOnce(m: Masks, t: string, i: nat)
    requires |t| == 64 && i < 64 && NamesBit(m, t, i) && IsLetter(t[63 - i])
    ensures Count(m.chip[i]) + Count(m.bk[i]) + Count(m.row[i]) + Count(m.col[i]) == Count(t[63 - i] != '0')
  {
  }

  lemma NamesChipExactlyWhen(t: string)
    ensures NamesChip(t) <==> exists c :: c in t && (c == 'D' || c == 'd')
  {
    if c :| c in t && (c == 'D' || c == 'd') {
      var i :| 0 <= i < |t| && t[i] == c;
      assert t[i] in {'D', 'd'};
    }
    if NamesChip(t) {
      var i :| 0 <= i < |t| && t[i] in {'D', 'd'};
      assert t[i] in t;
    }
  }

  lemma NoChipNamed(t: string)
    requires !NamesChip(t)
    ensures Ones(NamedMasks(t).chip, 0, 64) == 0
  {
    hide Ones;
    var chip := Named(t, {'D', 'd'});
    NoOnes(chip, chip, 0, 64);
  }

  /** A map is accepted exactly if it has 64 letters, none of them a channel letter if there
      is a dramid.  Its letters name the bits from 63 down to 0, each once: D the channel, B
      the bank, R the row, C the column, S the column and the burst; so the masks are
      disjoint but for BURST, and a map with a dramid leaves the channel to its hole. */
  lemma ParsedMasksAreDisjoint(option: MapOption)
    ensures var t := Letters(option.text);
      Parsed(option).Some? <==>
        |t| == 64 && (option.dramid.Some? ==> forall c :: c in t ==> c != 'D' && c != 'd')
    ensures Parsed(option).Some? ==>
      var (b, t) := (Parsed(option).value, Letters(option.text));
      && b.start == (if option.dramid.Some? then option.dramid.value else -1)
      && (forall i :: 0 <= i < 64 ==> NamesBit(b.masks, t, i))
      && (forall i :: 0 <= i < 64 ==>
            Count(b.masks.chip[i]) + Count(b.masks.bk[i]) + Count(b.masks.row[i]) + Count(b.masks.col[i])
            == Count(t[63 - i] != '0'))
      && (option.dramid.Some? ==> Ones(b.masks.chip, 0, 64) == 0)
  {
    hide Ones, Count, Named, NamedMasks, Letters, NamesChip, IsLetter, NamesBit;
    var t := Letters(option.text);
    LettersOnly(option.text);
    NamesChipExactlyWhen(t);
    if Parsed(option).Some? {
      var b := Parsed(option).value;
      forall i | 0 <= i < 64
        ensures NamesBit(b.masks, t, i)
        ensures Count(b.masks.chip[i]) + Count(b.masks.bk[i]) + Count(b.masks.row[i]) + Count(b.masks.col[i])
                == Count(t[63 - i] != '0')
      {
        NamedBit(t, i);
        NamesBitOnce(b.masks, t, i);
      }
      if option.dramid.Some? {
        NoChipNamed(t);
      }
    }
  }

  lemma {:induction false} LettersOnly(text: string)
    ensures forall i :: 0 <= i < |Letters(text)| ==> IsLetter(Letters(text)[i])
  {
    if text != "" {
      LettersOnly(text[..|text| - 1]);
    }
  }

  // what the switch over the mask number and the option leave before the hole is opened
  function BaseOf(maskId: int, option: Option<MapOption>): Option<Base> {
    if option.Some? then Parsed(option.value)
    else if BuiltIn(maskId).Some? then BuiltIn(maskId)
    else Some(Base(10, Masks(Hex(0x1C00), Hex(0x300), Hex(0xFFF0000), Hex(0xE0FF), Hex(0xF))))
  }

  lemma LettersGrow(text: string, i: nat)
    requires i < |text|
    ensures Letters(text[..i + 1]) == Letters(text[..i]) + if IsLetter(text[i]) then [text[i]] else []
  {
    assert text[..i + 1][..i] == text[..i];
  }

  lemma {:induction false} LettersPrefix(text: string, i: nat)
    requires i <= |text|
    ensures Letters(text[..i]) <= Letters(text)
    decreases |text| - i
  {
    if i == |text| {
      assert text[..i] == text;
    } else {
      LettersPrefix(text, i + 1);
      LettersGrow(text, i);
    }
  }

  lemma NamedGrows(t: string, c: char, names: set<char>)
    requires |t| < 64
    ensures Named(t + [c], names) == if c in names then Named(t, names)[63 - |t| := true] else Named(t, names)
  {
  }

  class AddressDecoder {
    const maskId: int
    const option: Option<MapOption>
    const indexing: Indexing
    var start: int
    const mask: array<Word64>
    const low: array<nat>
    const high: array<nat>
    var subMask: Word64
    var gap: bool
    var channels: nat
    var subs: nat
    var log2channel: nat
    var log2sub: nat
    var nextPow2: nat

    ghost predicate Shape()
      reads this
    {
      mask.Length == 5 && low.Length == 5 && high.Length == 5 && low != high
    }

    function CurrentMasks(): Masks
      requires mask.Length == 5
      reads mask
    {
      Masks(mask[CHIP], mask[BK], mask[ROW], mask[COL], mask[BURST])
    }

    function State(): Mapping
      requires mask.Length == 5
      reads this, mask
    {
      Mapping(start, CurrentMasks(), subMask, gap, channels, subs, log2channel, log2sub, indexing)
    }

    // a configured object: the packing limits and the rounded channel count are right
    ghost predicate Valid()
      reads this, mask, low, high
    {
      && Shape() && nextPow2 == NextPow2(channels)
      && forall k :: 0 <= k < 5 ==> IsLimit(mask[k], low[k], high[k])
    }

    constructor (maskId: int, option: Option<MapOption>, indexing: Indexing)
      ensures Shape() && fresh(mask) && fresh(low) && fresh(high)
      ensures this.maskId == maskId && this.option == option && this.indexing == indexing
      ensures start == 10
      ensures CurrentMasks() == Masks(Hex(0x1C00), Hex(0x300), Hex(0xFFF0000), Hex(0xE0FF), Hex(0xF))
    {
      this.maskId, this.option, this.indexing := maskId, option, indexing;
      start := 10;
      mask := new Word64[5](_ => Hex(0));
      low := new nat[5](_ => 0);
      high := new nat[5](_ => 64);
      new;
      mask[CHIP], mask[BK], mask[ROW], mask[COL], mask[BURST] :=
        Hex(0x1C00), Hex(0x300), Hex(0xFFF0000), Hex(0xE0FF), Hex(0xF);
    }

    method SetMasks(start: int, bk: nat, row: nat, col: nat)
      requires Shape()
      modifies this`start, mask
      ensures this.start == start && mask[BURST] == old(mask[BURST])
      ensures CurrentMasks() == Masks(Hex(0), Hex(bk), Hex(row), Hex(col), old(mask[BURST]))
    {
      this.start := start;
      mask[CHIP], mask[BK], mask[ROW], mask[COL] := Hex(0), Hex(bk), Hex(row), Hex(col);
    }

    // the switch over gpgpu_mem_address_mask
    method SelectMasks()
      requires Shape() && mask[BURST] == Hex(0xF)
      modifies this`start, mask
      ensures BuiltIn(maskId).Some? ==> Base(start, CurrentMasks()) == BuiltIn(maskId).value
      ensures BuiltIn(maskId).None? ==> start == old(start) && CurrentMasks() == old(CurrentMasks())
    {
      hide Hex;
      match maskId
      case 0 => SetMasks(10, 0x300, 0x7FFE000, 0x1CFF);
      case 1 => SetMasks(13, 0x1800, 0x7FFE000, 0x7FF);
      case 2 => SetMasks(11, 0x1800, 0x7FFE000, 0x7FF);
      case 3 => SetMasks(11, 0x1800, 0xFFFE000, 0x7FF);
      case 14 => SetMasks(14, 0x1800, 0x7FFE000, 0x7FF);
      case 15 => SetMasks(15, 0x1800, 0x7FFE000, 0x7FF);
      case 16 => SetMasks(16, 0x1800, 0x7FFE000, 0x7FF);
      case 6 => SetMasks(6, 0x1800, 0x7FFE000, 0x7FF);
      case 5 => SetMasks(5, 0x1800, 0x7FFE000, 0x7FF);
      case 100 => SetMasks(1, 0x3, 0x7FFE000, 0x1FFC);
      case 103 => SetMasks(3, 0x3, 0x7FFE000, 0x1FFC);
      case 106 => SetMasks(6, 0x1800, 0x7FFE000, 0x7FF);
      case 160 => SetMasks(6, 0x300, 0x7FFE000, 0x1CFF);
      case _ =>
    }

    // one letter of the map: bit ofs of the masks it names
    method SetBit(c: char, ofs: nat, ghost t: string)
      requires Shape() && |t| < 64 && ofs == 63 - |t| && IsLetter(c)
      requires CurrentMasks() == NamedMasks(t)
      modifies mask
      ensures CurrentMasks() == NamedMasks(t + [c])
    {
      hide Named, NamedMasks;
      NamedGrow(t, c);
      if c in {'D', 'd'} {
        mask[CHIP] := mask[CHIP][ofs := true];
      } else if c in {'B', 'b'} {
        mask[BK] := mask[BK][ofs := true];
      } else if c in {'R', 'r'} {
        mask[ROW] := mask[ROW][ofs := true];
      } else if c in {'C', 'c'} {
        mask[COL] := mask[COL][ofs := true];
      } else if c in {'S', 's'} {
        mask[BURST] := mask[BURST][ofs := true];
        mask[COL] := mask[COL][ofs := true];
      }
    }

    // what the loop of addrdec_parseoption keeps, i characters into the text
    ghost predicate ParsedSoFar(opt: MapOption, i: nat, ofs: int)
      requires mask.Length == 5
      reads mask
    {
      && i <= |opt.text|
      && ofs == 63 - |Letters(opt.text[..i])| >= -1
      && CurrentMasks() == NamedMasks(Letters(opt.text[..i]))
      && (opt.dramid.Some? ==> !NamesChip(Letters(opt.text[..i])))
    }

    // one character; not ok where an assertion fails, or where the map is too long to pass the last one
    method ParseChar(opt: MapOption, i: nat, ofs: int) returns (ok: bool, ofs': int)
      requires Shape() && i < |opt.text| && ParsedSoFar(opt, i, ofs)
      modifies mask
      ensures ok ==> ParsedSoFar(opt, i + 1, ofs')
      ensures !ok ==> Parsed(opt).None?
    {
      hide NamedMasks;
      var c := opt.text[i];
      ghost var t := Letters(opt.text[..i]);
      LettersGrow(opt.text, i);
      if !IsLetter(c) {
        assert Letters(opt.text[..i + 1]) == t;
        return true, ofs;
      }
      LettersPrefix(opt.text, i + 1);
      if ofs < 0 {
        return false, ofs;
      }
      if c in {'D', 'd'} && opt.dramid.Some? {
        assert Letters(opt.text)[|t|] == (t + [c])[|t|] == c;
        return false, ofs;
      }
      SetBit(c, ofs, t);
      return true, ofs - 1;
    }

    // addrdec_parseoption: false where an assertion of the original fails
    method ParseOption(opt: MapOption) returns (ok: bool)
      requires Shape()
      modifies this`start, mask
      ensures ok <==> Parsed(opt).Some?
      ensures ok ==> Base(start, CurrentMasks()) == Parsed(opt).value
    {
      start := if opt.dramid.Some? then opt.dramid.value else -1;
      mask[CHIP], mask[BK], mask[ROW], mask[COL], mask[BURST] := Zeros(64), Zeros(64), Zeros(64), Zeros(64), Zeros(64);
      var ofs := 63;
      var i := 0;
      assert opt.text[..0] == "";
      assert Zeros(64) == Named("", {'D', 'd'}) == Named("", {'B', 'b'}) == Named("", {'R', 'r'})
             == Named("", {'C', 'c', 'S', 's'}) == Named("", {'S', 's'});
      while i < |opt.text|
        invariant start == if opt.dramid.Some? then opt.dramid.value else -1
        invariant ParsedSoFar(opt, i, ofs)
      {
        ok, ofs := ParseChar(opt, i, ofs);
        if !ok {
          return;
        }
        i := i + 1;
      }
      assert opt.text[..i] == opt.text;
      ok := ofs == -1;
    }

    // the hole: CHIP bits set one by one, BK, ROW and COL shifted above it
    method OpenHole(n: nat)
      requires Shape() && 0 <= start && start + n <= 64
      modifies mask
      ensures var (b, c) := (old(CurrentMasks()), CurrentMasks());
        c == Masks(WithHole(b.chip, start, n), Opened(b.bk, start, n), Opened(b.row, start, n),
                   Opened(b.col, start, n), b.burst)
    {
      mask[BK] := Opened(mask[BK], start, n);
      mask[ROW] := Opened(mask[ROW], start, n);
      mask[COL] := Opened(mask[COL], start, n);
      ghost var (m, rest) := (mask[..], old(mask[CHIP]));
      var i := start;
      while i < start + n
        invariant start <= i <= start + n
        invariant mask[..] == m[CHIP := mask[CHIP]]
        invariant forall j :: 0 <= j < 64 ==> mask[CHIP][j] == (rest[j] || start <= j < i)
      {
        mask[CHIP] := mask[CHIP][i := true];
        i := i + 1;
      }
      assert mask[CHIP] == WithHole(rest, start, n);
    }

    // the packing limits of every mask
    method FindLimits()
      requires Shape()
      modifies low, high
      ensures forall k :: 0 <= k < 5 ==> IsLimit(mask[k], low[k], high[k])
    {
      high[CHIP], low[CHIP] := GetMaskLimit(mask[CHIP]);
      high[BK], low[BK] := GetMaskLimit(mask[BK]);
      high[ROW], low[ROW] := GetMaskLimit(mask[ROW]);
      high[COL], low[COL] := GetMaskLimit(mask[COL]);
      high[BURST], low[BURST] := GetMaskLimit(mask[BURST]);
    }

    // the masks before the hole is opened
    method LoadBase() returns (ok: bool)
      requires Shape() && start == 10
      requires CurrentMasks() == Masks(Hex(0x1C00), Hex(0x300), Hex(0xFFF0000), Hex(0xE0FF), Hex(0xF))
      modifies this`start, mask
      ensures ok <==> BaseOf(maskId, option).Some?
      ensures ok ==> Base(start, CurrentMasks()) == BaseOf(maskId, option).value
    {
      hide Hex;
      SelectMasks();
      if option.Some? {
        ok := ParseOption(option.value);
      } else {
        ok := true;
      }
    }

    // the mask of the bits that number the sub-partition
    method MarkSubPartition()
      requires Shape() && subs > 0 && log2sub == Log2(subs) && IsLimit(mask[BK], low[BK], high[BK])
      modifies this`subMask
      ensures subMask == LowestOnes(mask[BK], log2sub)
    {
      hide LowestOnes, IsLimit;
      subMask := Zeros(64);
      if subs > 1 {
        LogPositive(subs);
        subMask := SubPartitionMask(mask[BK], low[BK], high[BK], log2sub);
      } else {
        NoLowestOnes(mask[BK]);
      }
    }

    /** init on a new object: false where an assertion of the original fails. */
    method Init(nChannel: nat, nSub: nat) returns (ok: bool)
      requires Shape() && start == 10
      requires CurrentMasks() == Masks(Hex(0x1C00), Hex(0x300), Hex(0xFFF0000), Hex(0xE0FF), Hex(0xF))
      requires BaseOf(maskId, option).Some? ==> Presentable(BaseOf(maskId, option).value, nChannel, nSub)
      modifies this, mask, low, high
      ensures ok <==> BaseOf(maskId, option).Some?
                      && Configure(BaseOf(maskId, option).value, nChannel, nSub, indexing).Some?
      ensures ok ==> Valid() && State() == Configure(BaseOf(maskId, option).value, nChannel, nSub, indexing).value
    {
      hide BaseOf, Hex, And, LowestOnes, Opened, WithHole, NextPow2, IsLimit, Log2;
      ok := LoadBase();
      if !ok {
        return;
      }
      ghost var base := BaseOf(maskId, option).value;
      CountsFit(nChannel, nSub);
      log2channel := LogB2(nChannel);
      log2sub := LogB2(nSub);
      channels := nChannel;
      subs := nSub;
      nextPow2 := NextPowerOf2(nChannel);
      var power := Power2(log2channel);
      gap := channels != power;
      if start != -1 {
        if !gap {
          OpenHole(log2channel);
        }
      } else if And(channels, channels - 1) != 0 {
        return false;
      }
      if And(subs, subs - 1) != 0 {
        return false;
      }
      FindLimits();
      MarkSubPartition();
      assert State() == Configure(base, nChannel, nSub, indexing).value;
    }

    // a field of the decoded address, packed within the limits of its mask
    method PackField(k: nat, v: Word64) returns (r: nat)
      requires Valid() && k < 5
      ensures r == Field(mask[k], v)
    {
      LimitsAreEnough(mask[k], v, low[k], high[k]);
      var packed := PackBits(mask[k], v, high[k], low[k]);
      r := Value(packed[..32]);
    }

    // the channel number before hashing, and the address that the other masks apply to
    method SplitChannel(addr: Word64) returns (chip: nat, body: Word64)
      requires Valid() && State().Ready()
      ensures chip == State().Chip(addr) && body == State().Body(addr)
    {
      hide Field, LowestOnes, Value, BitsOf, Ones, IsLimit, NextPow2;
      if !gap {
        chip := PackField(CHIP, addr);
        body := addr;
      } else {
        var msb := Value(addr[start..]);
        chip := Modulo(msb, channels);
        body := addr[..start] + BitsOf(Quotient(msb, channels), 64 - start);
      }
    }

    // the IPOLY case
    method HashSub(addr: Word64, chip: nat, bk: nat) returns (sub: Option<nat>)
      requires Valid() && State().Ready() && State().Shiftable()
      ensures sub == State().HashedSub(State().Higher(addr), State().Sub(chip, bk))
    {
      hide IpolyHash, LowestOnes, Value, Ones, IsLimit, NextPow2, Mapping.Higher, Mapping.Sub;
      var hash := IpolyHash(Value(State().Higher(addr)), State().Sub(chip, bk), nextPow2 * subs);
      if hash.None? {
        return None;
      }
      sub := if gap then Some(Modulo(hash.value, channels * subs)) else hash;
    }

    /** addrdec_tlx: None where an assertion of the original fails. */
    method Tlx(addr: Word64) returns (tlx: Option<Decoded>)
      requires Valid() && State().Ready()
      requires indexing in {BitwisePermutation, IPoly} ==> State().Shiftable()
      ensures tlx == State().Decode(addr)
    {
      hide IpolyHash, BitwiseHash, Field, LowestOnes, Value, Ones, IsLimit, NextPow2, Mapping.Higher, Mapping.Sub,
        Mapping.Chip, Mapping.Body, Mapping.HashedSub;
      var chip, body := SplitChannel(addr);
      var bk := PackField(BK, body);
      var row := PackField(ROW, body);
      var col := PackField(COL, body);
      var burst := PackField(BURST, body);
      match indexing {
        case Consecutive =>
        case Custom =>
        case BitwisePermutation =>
          if gap {
            return None;
          }
          chip := BitwiseHash(State().Higher(addr), chip, channels);
          if chip >= channels {
            return None;
          }
        case IPoly =>
          var sub := HashSub(addr, chip, bk);
          if sub.None? {
            return None;
          }
          chip := Quotient(sub.value, subs);
          if chip >= channels || sub.value >= channels * subs {
            return None;
          }
          return Some(Decoded(chip, bk, row, col, burst, sub.value));
      }
      return Some(Decoded(chip, bk, row, col, burst, State().Sub(chip, bk)));
    }

    /** partition_address */
    method PartitionAddress(addr: Word64) returns (r: Word64)
      requires Valid() && State().Ready()
      ensures r == State().Partition(addr)
    {
      hide Value, BitsOf, Gather, LowestOnes, Ones, Not, Or, IsLimit, NextPow2;
      if !gap {
        r := PackBits(Not(Or(mask[CHIP], subMask)), addr, 64, 0);
      } else {
        var partition := addr[..start] + BitsOf(Quotient(Value(addr[start..]), channels), 64 - start);
        r := PackBits(Not(subMask), partition, 64, 0);
      }
    }
  }

  method Power2(y: nat) returns (r: nat)
    ensures r == Pow2(y)
  {
    r := 1;
    for i := 0 to y
      invariant r == Pow2(i)
    {
      r := r * 2;
    }
  }

  lemma LogPositive(n: nat)
    requires n > 1
    ensures Log2(n) > 0
  {
  }

  lemma NoLowestOnes(mask: Word64)
    ensures LowestOnes(mask, Log2(1)) == Zeros(64)
  {
  }

  lemma CountsFit(channels: nat, subs: nat)
    requires channels > 0 && subs > 0 && channels * subs < 0x8000_0000
    ensures channels < 0x8000_0000 && subs < 0x8000_0000
  {
    MulIsMonotonic(1, channels, subs);
    MulIsMonotonic(1, subs, channels);
  }

  lemma NamedGrow(t: string, c: char)
    requires |t| < 64
    ensures var (m, m', k) := (NamedMasks(t), NamedMasks(t + [c]), 63 - |t|);
      && m'.chip == (if c in {'D', 'd'} then m.chip[k := true] else m.chip)
      && m'.bk == (if c in {'B', 'b'} then m.bk[k := true] else m.bk)
      && m'.row == (if c in {'R', 'r'} then m.row[k := true] else m.row)
      && m'.col == (if c in {'C', 'c', 'S', 's'} then m.col[k := true] else m.col)
      && m'.burst == (if c in {'S', 's'} then m.burst[k := true] else m.burst)
  {
    hide Named;
    NamedGrows(t, c, {'D', 'd'});
    NamedGrows(t, c, {'B', 'b'});
    NamedGrows(t, c, {'R', 'r'});
    NamedGrows(t, c, {'C', 'c', 'S', 's'});
    NamedGrows(t, c, {'S', 's'});
  }
}
