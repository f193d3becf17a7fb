/** Under consecutive indexing distinct addresses never share a sub-partition and an
    address inside it. */
module AddressUniqueness {
  import opened AddressMap
  import opened Arithmetic
  import opened MaskPacking
  import opened Words

  // ---- the sub-partition number splits ----

  lemma FewSubPartitions(m: Mapping)
    requires m.Ready()
    ensures m.log2sub < 31
  {
    WordSizes();
    MulIsMonotonic(1, m.channels, m.subs);
    if m.log2sub > 31 {
      Pow2Monotonic(31, m.log2sub);
    }
  }

  // the chip number leaves room for the bank bits in 32 bits
  ghost predicate Fits(m: Mapping, chip: nat) { (chip + 1) * m.subs <= WORD32 }

  lemma ChipFits(m: Mapping, addr: Word64)
    requires m.Ready()
    ensures Fits(m, m.Chip(addr))
  {
    hide Field, Value, Pow2, LowestOnes, Ones;
    if m.gap {
      MulIsMonotonic(m.Chip(addr) + 1, m.channels, m.subs);
    } else {
      var c := Ones(m.masks.chip, 0, 64);
      FieldBound(m.masks.chip, addr);
      MulIsMonotonic(m.Chip(addr) + 1, Pow2(c), m.subs);
      Pow2OfSum(c, m.log2sub);
      WordSizes();
      if c + m.log2sub < 32 {
        Pow2Monotonic(c + m.log2sub, 32);
      }
    }
  }

  lemma SubIsSum(m: Mapping, chip: nat, bk: nat)
    requires m.subs > 0 && Fits(m, chip) && m.LowBank(bk) < m.subs
    ensures m.Sub(chip, bk) == chip * m.subs + m.LowBank(bk)
  {
    hide Mapping.LowBank;
    assert (chip + 1) * m.subs == chip * m.subs + m.subs;
    var x: nat := chip * m.subs + m.LowBank(bk);
    assert x % WORD32 == x;
  }

  lemma SubSplits(m: Mapping, chip: nat, bk: nat, chip': nat, bk': nat)
    requires m.subs > 0 && Fits(m, chip) && Fits(m, chip')
    requires m.LowBank(bk) < m.subs && m.LowBank(bk') < m.subs
    ensures m.Sub(chip, bk) == m.Sub(chip', bk') <==> chip == chip' && m.LowBank(bk) == m.LowBank(bk')
  {
    hide Mapping.LowBank, Mapping.Sub;
    SubIsSum(m, chip, bk);
    SubIsSum(m, chip', bk');
    SumSplits(chip, m.LowBank(bk), chip', m.LowBank(bk'), m.subs);
  }

  /** Equal low bank bits are equal address bits under the sub-partition mask. */
  lemma LowBankDetermines(m: Mapping, a: Word64, b: Word64)
    requires m.Ready()
    ensures m.LowBank(Field(m.masks.bk, a)) == m.LowBank(Field(m.masks.bk, b)) <==> Agree(m.subMask, a, b)
    ensures m.LowBank(Field(m.masks.bk, a)) < m.subs && m.LowBank(Field(m.masks.bk, b)) < m.subs
  {
    hide Pack, Value, BitsOf, LowestOnes;
    FewSubPartitions(m);
    LowBankIsLowBits(m, a);
    LowBankIsLowBits(m, b);
    BitsOfValue(Pack(m.masks.bk, a)[..m.log2sub]);
    BitsOfValue(Pack(m.masks.bk, b)[..m.log2sub]);
    LowPackedBits(m.masks.bk, a, b, m.log2sub);
  }

  // ---- dividing the channel out loses nothing but the channel ----

  lemma RestAndChipDetermine(m: Mapping, a: Word64, b: Word64)
    requires 0 <= m.start <= 64 && m.channels > 0
    requires m.Rest(a) == m.Rest(b)
    requires Value(a[m.start..]) % m.channels == Value(b[m.start..]) % m.channels
    ensures a == b
  {
    hide Value, BitsOf, Pow2;
    var (s, n) := (m.start, m.channels);
    var (x, y) := (Value(a[s..]), Value(b[s..]));
    assert m.Rest(a)[..s] == a[..s] && m.Rest(b)[..s] == b[..s];
    assert m.Rest(a)[s..] == BitsOf(x / n, 64 - s) && m.Rest(b)[s..] == BitsOf(y / n, 64 - s);
    QuotientFits(a[s..], n);
    QuotientFits(b[s..], n);
    assert x / n == y / n;
    assert x == n * (x / n) + x % n && y == n * (y / n) + y % n;
    BitsOfValue(a[s..]);
    BitsOfValue(b[s..]);
    assert a == a[..s] + a[s..] && b == b[..s] + b[s..];
  }

  lemma QuotientFits(w: Bits, n: nat)
    requires n > 0
    ensures Value(w) / n < Pow2(|w|)
    ensures Value(BitsOf(Value(w) / n, |w|)) == Value(w) / n
  {
    ValueBound(w);
    var x := Value(w);
    QuotientAtMost(x, n);
    ValueOfBits(x / n, |w|);
  }

  // ---- the theorems ----

  /** Consecutive indexing, any channel count: the sub-partition number and the
      address inside the sub-partition determine the 64-bit address. */
  lemma ConsecutiveDoesNotAlias(m: Mapping, a: Word64, b: Word64)
    requires m.Ready() && m.indexing in {Consecutive, Custom}
    ensures m.Decode(a).Some? && m.Decode(b).Some?
    ensures m.Decode(a).value.sub == m.Decode(b).value.sub && m.Partition(a) == m.Partition(b) <==> a == b
  {
    hide Field, Pack, Value, BitsOf, Pow2, LowestOnes, Mapping.LowBank, Mapping.Sub, Ones;
    var (x, y) := (m.Body(a), m.Body(b));
    ChipFits(m, a);
    ChipFits(m, b);
    LowBankDetermines(m, x, y);
    SubSplits(m, m.Chip(a), Field(m.masks.bk, x), m.Chip(b), Field(m.masks.bk, y));
    if m.Decode(a).value.sub == m.Decode(b).value.sub && m.Partition(a) == m.Partition(b) {
      if m.gap {
        PackDetermines(Not(m.subMask), x, y);
        assert x == y;
        RestAndChipDetermine(m, a, b);
      } else {
        PackDetermines32(m.masks.chip, a, b);
        assert Agree(m.masks.chip, a, b) by {
          ChipAgrees(m, a, b);
        }
        PackDetermines(Not(Or(m.masks.chip, m.subMask)), a, b);
        assert a == b;
      }
    }
  }

  lemma ChipAgrees(m: Mapping, a: Word64, b: Word64)
    requires m.Ready() && !m.gap && m.Chip(a) == m.Chip(b)
    ensures Agree(m.masks.chip, a, b)
  {
    PackDetermines32(m.masks.chip, a, b);
  }

  // ---- the hole ----

  lemma {:induction false} GatherRange(mask: Word64, v: Word64, lo: nat, hi: nat)
    requires lo <= hi <= 64 && forall i :: lo <= i < hi ==> mask[i]
    ensures Gather(mask, v, lo, hi) == v[lo..hi]
    decreases hi
  {
    if lo < hi {
      GatherRange(mask, v, lo, hi - 1);
      assert v[lo..hi - 1] + [v[hi - 1]] == v[lo..hi];
    }
  }

  // the channel bits of an address
  function Hole(m: Mapping, addr: Word64): (c: Bits)
    requires m.HasHole()
    ensures |c| == m.log2channel
  {
    addr[m.start..m.start + m.log2channel]
  }

  lemma GatherHole(mask: Word64, v: Word64, lo: nat, hi: nat)
    requires lo <= hi <= 64 && forall i :: 0 <= i < 64 ==> (mask[i] <==> lo <= i < hi)
    ensures Gather(mask, v, 0, 64) == v[lo..hi]
  {
    hide Gather, Ones;
    GatherSplits(mask, v, 0, lo, 64);
    GatherSplits(mask, v, lo, hi, 64);
    NoOnes(mask, v, 0, lo);
    NoOnes(mask, v, hi, 64);
    GatherRange(mask, v, lo, hi);
    assert [] + (v[lo..hi] + []) == v[lo..hi];
  }

  lemma ChipIsHole(m: Mapping, addr: Word64)
    requires m.channels > 0 && m.HasHole() && m.log2channel <= 32
    ensures Pack(m.masks.chip, addr) == Padded(Hole(m, addr))
    ensures m.Chip(addr) == Value(Hole(m, addr)) < Pow2(m.log2channel)
  {
    hide Value, Pow2, Zeros, Gather, Padded;
    GatherHole(m.masks.chip, addr, m.start, m.start + m.log2channel);
    HoleField(m, addr);
  }

  lemma HoleField(m: Mapping, addr: Word64)
    requires m.HasHole() && m.log2channel <= 32
    ensures Value(Padded(Hole(m, addr))[..32]) == Value(Hole(m, addr)) < Pow2(m.log2channel)
  {
    var c := Hole(m, addr);
    assert Padded(c)[..32] == c + Zeros(32 - |c|);
    ValueOfTail(c, 32 - |c|);
    ValueBound(c);
  }

  lemma SmallLogs(m: Mapping)
    requires m.Ready()
    ensures m.log2channel <= 31
  {
    hide Ones;
    WordSizes();
    Log2Bounds(m.channels);
    MulIsMonotonic(1, m.subs, m.channels);
    if m.log2channel > 31 {
      Pow2Monotonic(31, m.log2channel);
    }
  }

  lemma QuotientBelow(x: nat, n: nat, k: nat)
    requires n > 0 && x < k * n
    ensures Quotient(x, n) < k
  {
    assert x == n * (x / n) + x % n;
    if x / n >= k {
      MulIsMonotonic(k, x / n, n);
    }
  }

  /** Consecutive indexing: every decoded channel and sub-partition exists. */
  lemma ConsecutiveIsInRange(m: Mapping, addr: Word64)
    requires m.Ready() && m.indexing in {Consecutive, Custom} && (m.gap || m.HasHole())
    ensures m.Decode(addr).Some?
    ensures m.Decode(addr).value.chip < m.channels && m.Decode(addr).value.sub < m.channels * m.subs
    ensures m.Decode(addr).value.sub / m.subs == m.Decode(addr).value.chip
  {
    hide Field, Pack, Value, BitsOf, Pow2, LowestOnes, Mapping.LowBank, Mapping.Sub, Ones;
    var (chip, bk) := (m.Chip(addr), Field(m.masks.bk, m.Body(addr)));
    SmallLogs(m);
    if !m.gap {
      ChipIsHole(m, addr);
    }
    ChipFits(m, addr);
    LowBankDetermines(m, m.Body(addr), m.Body(addr));
    SubIsSum(m, chip, bk);
    DivModOfSum(chip, m.subs, m.LowBank(bk));
    MulIsMonotonic(chip + 1, m.channels, m.subs);
    assert (chip + 1) * m.subs == chip * m.subs + m.subs;
  }
}
