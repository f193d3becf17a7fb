/** The translation of linear addresses to DRAM coordinates and to the address
    inside a sub-partition, as functions of a configured mapping. */
module AddressMap {
  import opened Options
  import opened Ipoly
  import opened MaskPacking
  import opened Words

  datatype Indexing = Consecutive | BitwisePermutation | IPoly | Custom

  datatype Masks = Masks(chip: Word64, bk: Word64, row: Word64, col: Word64, burst: Word64)

  datatype Decoded = Decoded(chip: nat, bk: nat, row: nat, col: nat, burst: nat, sub: nat)

  const WORD32 := 0x1_0000_0000

  function Not(w: Word64): Word64 { seq(64, i requires 0 <= i < 64 => !w[i]) }

  function Or(v: Word64, w: Word64): Word64 { seq(64, i requires 0 <= i < 64 => v[i] || w[i]) }

  // a packed field stored in an unsigned
  function Field(mask: Word64, addr: Word64): nat { Value(Pack(mask, addr)[..32]) }

  // addr >> k
  function ShiftRight(addr: Word64, k: nat): Word64
    requires k <= 64
  {
    addr[k..] + Zeros(k)
  }

  // bitwise_hash_function
  function BitwiseHash(higher: Word64, index: nat, channels: nat): nat
    requires channels > 0
  {
    Value(Xor(BitsOf(index, 64), AndBits(higher, BitsOf(channels - 1, 64)))[..32])
  }

  function Modulo(x: nat, n: int): nat
    requires n > 0
  {
    x % n
  }

  function Quotient(x: nat, n: nat): nat
    requires n > 0
  {
    x / n
  }

  // start is ADDR_CHIP_S, -1 when the option names the channel bits one by one
  datatype Mapping = Mapping(start: int, masks: Masks, subMask: Word64, gap: bool,
      channels: nat, subs: nat, log2channel: nat, log2sub: nat, indexing: Indexing) {

    // what init leaves: gap says that the channel count is no power of two
    ghost predicate Ready() {
      && channels > 0 && subs > 0 && channels * subs < 0x8000_0000
      && log2channel == Log2(channels) && (gap <==> channels != Pow2(log2channel))
      && subs == Pow2(log2sub)
      && subMask == LowestOnes(masks.bk, log2sub)
      && start >= -1 && (gap ==> 0 <= start <= 30)
      && (!gap ==> Ones(masks.chip, 0, 64) + log2sub <= 32)
    }

    // the hole of the channel number in an address, and nothing else, is the CHIP mask
    ghost predicate HasHole() {
      && !gap && start >= 0 && start + log2channel + log2sub <= 64
      && forall i :: 0 <= i < 64 ==>
           (masks.chip[i] <==> start <= i < start + log2channel) && !(masks.chip[i] && masks.bk[i])
    }

    // without gap, the amount that an address is shifted by to give the bits hashed with the channel
    function HigherStart(): int { start + log2channel + log2sub }

    predicate Shiftable() { if gap then 0 <= start <= 64 else 0 <= HigherStart() <= 64 }

    // the channel number divided out of the address
    function Rest(addr: Word64): (r: Word64)
      requires 0 <= start <= 64 && channels > 0
    {
      addr[..start] + BitsOf(Value(addr[start..]) / channels, 64 - start)
    }

    // the address that the BK, ROW, COL and BURST masks apply to
    function Body(addr: Word64): Word64
      requires channels > 0 && (gap ==> 0 <= start <= 64)
    {
      if gap then Rest(addr) else addr
    }

    function Chip(addr: Word64): nat
      requires channels > 0 && (gap ==> 0 <= start <= 64)
    {
      if gap then Value(addr[start..]) % channels else Field(masks.chip, addr)
    }

    // rest_of_addr_high_bits
    function Higher(addr: Word64): Word64
      requires channels > 0 && Shiftable()
    {
      if gap then BitsOf(Value(addr[start..]) / channels, 64) else ShiftRight(addr, HigherStart())
    }

    function LowBank(bk: nat): nat
      requires subs > 0
    {
      Value(AndBits(BitsOf(bk, 32), BitsOf(subs - 1, 32)))
    }

    function Sub(chip: nat, bk: nat): nat
      requires subs > 0
    {
      (chip * subs + LowBank(bk)) % WORD32
    }

    // the IPOLY case: sub-partition number sub0 hashed with the higher bits
    function HashedSub(higher: Word64, sub0: nat): Option<nat>
      requires channels > 0 && subs > 0
    {
      var hash :- IpolyHash(Value(higher), sub0, NextPow2(channels) * subs);
      Some(if gap then Modulo(hash, channels * subs) else hash)
    }

    function Fields(chip: nat, body: Word64, sub: nat): Decoded {
      Decoded(chip, Field(masks.bk, body), Field(masks.row, body), Field(masks.col, body), Field(masks.burst, body),
              sub)
    }

    /** addrdec_tlx: None where an assertion of the original fails. */
    function Decode(addr: Word64): Option<Decoded>
      requires channels > 0 && subs > 0 && (gap ==> 0 <= start <= 64)
      requires indexing in {BitwisePermutation, IPoly} ==> Shiftable()
    {
      var (chip, body) := (Chip(addr), Body(addr));
      var bk := Field(masks.bk, body);
      match indexing
      case Consecutive => Some(Fields(chip, body, Sub(chip, bk)))
      case Custom => Some(Fields(chip, body, Sub(chip, bk)))
      case BitwisePermutation =>
        var hash := BitwiseHash(Higher(addr), chip, channels);
        if gap || hash >= channels then None else Some(Fields(hash, body, Sub(hash, bk)))
      case IPoly =>
        var sub :- HashedSub(Higher(addr), Sub(chip, bk));
        var hash := Quotient(sub, subs);
        if hash >= channels || sub >= channels * subs then None else Some(Fields(hash, body, sub))
    }

    /** partition_address */
    function Partition(addr: Word64): Word64
      requires channels > 0 && (gap ==> 0 <= start <= 64)
    {
      if gap then Pack(Not(subMask), Rest(addr)) else Pack(Not(Or(masks.chip, subMask)), addr)
    }
  }

  // ---- the fields of a decoded address ----

  /** The bank bits that enter the sub-partition number are the log2sub lowest. */
  lemma LowBankIsLowBits(m: Mapping, addr: Word64)
    requires m.subs == Pow2(m.log2sub) && m.log2sub <= 32
    ensures m.LowBank(Field(m.masks.bk, addr)) == Value(Pack(m.masks.bk, addr)[..m.log2sub]) < m.subs
  {
    hide Pack, Value, BitsOf, AndBits, Pow2;
    var w := Pack(m.masks.bk, addr)[..32];
    BitsOfValue(w);
    AndLowMask(w, m.log2sub);
    assert w[..m.log2sub] == Pack(m.masks.bk, addr)[..m.log2sub];
    ValueOfTail(w[..m.log2sub], 32 - m.log2sub);
    ValueBound(w[..m.log2sub]);
  }

  lemma {:induction false} Pow2OfSum(i: nat, j: nat)
    ensures Pow2(i) * Pow2(j) == Pow2(i + j)
  {
    if i > 0 {
      Pow2OfSum(i - 1, j);
      assert (2 * Pow2(i - 1)) * Pow2(j) == 2 * (Pow2(i - 1) * Pow2(j));
    }
  }

  lemma FieldBound(mask: Word64, addr: Word64)
    requires Ones(mask, 0, 64) <= 32
    ensures Field(mask, addr) < Pow2(Ones(mask, 0, 64))
  {
    var g := Gather(mask, addr, 0, 64);
    GatherLength(mask, addr, 0, 64);
    assert Pack(mask, addr)[..32] == g + Zeros(32 - |g|);
    ValueOfTail(g, 32 - |g|);
    ValueBound(g);
  }
}
