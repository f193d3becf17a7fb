/** When hashed channel numbers keep addresses apart: exact conditions on the mapping
    for the bitwise permutation and for IPOLY. */
module AddressHashing {
  import opened AddressMap
  import opened AddressUniqueness
  import opened Arithmetic
  import opened Ipoly
  import opened MaskPacking
  import opened Words

  ghost predicate SamePlace(m: Mapping, a: Word64, b: Word64)
    requires m.Ready() && (m.indexing in {BitwisePermutation, IPoly} ==> m.Shiftable())
    requires m.Decode(a).Some? && m.Decode(b).Some?
  {
    m.Decode(a).value.sub == m.Decode(b).value.sub && m.Partition(a) == m.Partition(b)
  }

  /** No two addresses that decode share both the sub-partition and the address in it. */
  ghost predicate Separates(m: Mapping)
    requires m.Ready() && (m.indexing in {BitwisePermutation, IPoly} ==> m.Shiftable())
  {
    forall a: Word64, b: Word64 ::
      m.Decode(a).Some? && m.Decode(b).Some? && SamePlace(m, a, b) ==> a == b
  }

  // ---- the bitwise permutation ----

  // the bits of the hashed channel number
  function PermutedWord(m: Mapping, addr: Word64): (w: Bits)
    requires m.channels > 0 && !m.gap && m.Shiftable()
    ensures |w| == 32
  {
    seq(32, k requires 0 <= k < 32 => Pack(m.masks.chip, addr)[k] != (k < m.log2channel && m.Higher(addr)[k]))
  }

  /** bitwise_hash_function adds the low higher bits to the channel bits in GF(2). */
  lemma BitwiseHashIsXor(w: Bits, higher: Word64, n: nat)
    requires |w| == 32 && n <= 32
    ensures BitwiseHash(higher, Value(w), Pow2(n))
            == Value(seq(32, k requires 0 <= k < 32 => w[k] != (k < n && higher[k])))
  {
    hide Value, Pow2, BitsOf;
    ValueOfTail(w, 32);
    BitsOfValue(w + Zeros(32));
    AndLowMask(higher, n);
    assert Xor(w + Zeros(32), higher[..n] + Zeros(64 - n))[..32]
           == seq(32, k requires 0 <= k < 32 => w[k] != (k < n && higher[k]));
  }

  /** An address decodes exactly when its channel bits beyond the channel count are
      zero, which is every address if there are no such bits. */
  lemma PermutedChip(m: Mapping, addr: Word64)
    requires m.Ready() && !m.gap && m.indexing == BitwisePermutation && m.Shiftable()
    ensures m.Decode(addr).Some? <==> forall k :: m.log2channel <= k < 32 ==> !Pack(m.masks.chip, addr)[k]
    ensures Ones(m.masks.chip, 0, 64) <= m.log2channel ==> m.Decode(addr).Some?
    ensures m.Decode(addr).Some? ==>
      var d := m.Decode(addr).value;
      d.chip == Value(PermutedWord(m, addr)) < m.channels && d.sub == m.Sub(d.chip, Field(m.masks.bk, addr))
  {
    hide Value, Pow2, Pack, BitwiseHash, Ones, LowestOnes, Mapping.Higher, Mapping.Sub;
    SmallLogs(m);
    BitwiseHashIsXor(Pack(m.masks.chip, addr)[..32], m.Higher(addr), m.log2channel);
    var w := PermutedWord(m, addr);
    assert w == seq(32, k requires 0 <= k < 32 =>
      Pack(m.masks.chip, addr)[..32][k] != (k < m.log2channel && m.Higher(addr)[k]));
    BelowPower(w, m.log2channel);
    assert forall k :: m.log2channel <= k < 32 ==> w[k] == Pack(m.masks.chip, addr)[k];
    PackIsPadded(m.masks.chip, addr);
  }

  lemma PackIsPadded(mask: Word64, addr: Word64)
    ensures forall k :: Ones(mask, 0, 64) <= k < 64 ==> !Pack(mask, addr)[k]
  {
    GatherLength(mask, addr, 0, 64);
  }

  lemma {:induction false} GatherAt(mask: Word64, v: Word64, p: nat, hi: nat)
    requires p < hi <= 64 && mask[p]
    ensures Ones(mask, 0, p) < |Gather(mask, v, 0, hi)| && Gather(mask, v, 0, hi)[Ones(mask, 0, p)] == v[p]
    decreases hi
  {
    GatherLength(mask, v, 0, hi - 1);
    if p < hi - 1 {
      GatherAt(mask, v, p, hi - 1);
    }
  }

  lemma PackAt(mask: Word64, v: Word64, p: nat)
    requires p < 64 && mask[p]
    ensures Ones(mask, 0, p) < Ones(mask, 0, 64) && Pack(mask, v)[Ones(mask, 0, p)] == v[p]
  {
    GatherAt(mask, v, p, 64);
    GatherLength(mask, v, 0, 64);
  }

  // bit p is the channel bit that the hash adds to itself
  ghost predicate AddedToItself(m: Mapping, p: nat)
    requires p < 64
  {
    && m.masks.chip[p] && !m.subMask[p]
    && 0 <= p - m.HigherStart() < m.log2channel && Ones(m.masks.chip, 0, p) == p - m.HigherStart()
  }

  // the addresses agree outside the channel bits, and their hashed channel bits agree
  ghost predicate SamePermuted(m: Mapping, a: Word64, b: Word64)
    requires m.channels > 0 && !m.gap && m.Shiftable()
  {
    && (forall i :: 0 <= i < 64 && (!m.masks.chip[i] || m.subMask[i]) ==> a[i] == b[i])
    && PermutedWord(m, a) == PermutedWord(m, b)
  }

  lemma PermutedAt(m: Mapping, addr: Word64, k: nat)
    requires m.Ready() && !m.gap && m.Shiftable() && k < 32
    ensures var q := m.HigherStart() + k;
      PermutedWord(m, addr)[k] == (Pack(m.masks.chip, addr)[k] != (k < m.log2channel && q < 64 && addr[q]))
  {
    hide Pack, LowestOnes, Ones;
    var s := m.HigherStart();
    assert m.Higher(addr)[k] == (s + k < 64 && addr[s + k]);
  }

  // one equation: channel bit p is hashed with address bit q
  lemma HashedWith(m: Mapping, a: Word64, b: Word64, p: nat)
    requires m.Ready() && !m.gap && m.Shiftable() && SamePermuted(m, a, b) && p < 64 && m.masks.chip[p]
    ensures var (k, q) := (Ones(m.masks.chip, 0, p), m.HigherStart() + Ones(m.masks.chip, 0, p));
      if k >= m.log2channel || q >= 64 then a[p] == b[p] else (a[p] != a[q]) == (b[p] != b[q])
  {
    hide Pack, LowestOnes, Ones, PermutedWord;
    PackAt(m.masks.chip, a, p);
    PackAt(m.masks.chip, b, p);
    var k := Ones(m.masks.chip, 0, p);
    PermutedAt(m, a, k);
    PermutedAt(m, b, k);
  }

  // following the hashed bits upwards, or downwards, ends at a bit known to agree
  lemma {:induction false} AgreesUpwards(m: Mapping, a: Word64, b: Word64, p: nat)
    requires m.Ready() && !m.gap && m.Shiftable() && SamePermuted(m, a, b) && p < 64
    requires m.masks.chip[p] ==> m.HigherStart() + Ones(m.masks.chip, 0, p) > p
    ensures a[p] == b[p]
    decreases 64 - p
  {
    hide PermutedWord, LowestOnes;
    if m.masks.chip[p] {
      HashedWith(m, a, b, p);
      var q := m.HigherStart() + Ones(m.masks.chip, 0, p);
      if q < 64 {
        OnesGrow(m.masks.chip, p + 1, q);
        AgreesUpwards(m, a, b, q);
      }
    }
  }

  lemma {:induction false} AgreesDownwards(m: Mapping, a: Word64, b: Word64, p: nat)
    requires m.Ready() && !m.gap && m.Shiftable() && SamePermuted(m, a, b) && p < 64
    requires m.masks.chip[p] ==> m.HigherStart() + Ones(m.masks.chip, 0, p) < p
    ensures a[p] == b[p]
    decreases p
  {
    hide PermutedWord, LowestOnes;
    if m.masks.chip[p] {
      HashedWith(m, a, b, p);
      var q := m.HigherStart() + Ones(m.masks.chip, 0, p);
      OnesGrow(m.masks.chip, q + 1, p);
      AgreesDownwards(m, a, b, q);
    }
  }

  lemma PermutedBitsAgree(m: Mapping, a: Word64, b: Word64)
    requires m.Ready() && !m.gap && m.Shiftable() && SamePermuted(m, a, b)
    requires forall p :: 0 <= p < 64 ==> !AddedToItself(m, p)
    ensures a == b
  {
    hide PermutedWord, LowestOnes, Ones;
    forall p | 0 <= p < 64
      ensures a[p] == b[p]
    {
      assert !AddedToItself(m, p);
      if m.masks.chip[p] && !m.subMask[p] {
        var q := m.HigherStart() + Ones(m.masks.chip, 0, p);
        if q > p {
          AgreesUpwards(m, a, b, p);
        } else if q < p {
          AgreesDownwards(m, a, b, p);
        } else {
          HashedWith(m, a, b, p);
        }
      }
    }
  }

  lemma PermutedPair(m: Mapping, a: Word64, b: Word64)
    requires m.Ready() && !m.gap && m.indexing == BitwisePermutation && m.Shiftable()
    requires m.Decode(a).Some? && m.Decode(b).Some?
    ensures SamePlace(m, a, b) <==> SamePermuted(m, a, b)
  {
    hide Field, Pack, Value, BitsOf, Pow2, LowestOnes, Mapping.LowBank, Mapping.Sub, Mapping.Higher, Mapping.Decode,
         Ones,
      PermutedWord;
    PermutedChip(m, a);
    PermutedChip(m, b);
    var (x, y) := (m.Decode(a).value, m.Decode(b).value);
    LowBankDetermines(m, a, b);
    MulIsMonotonic(x.chip + 1, m.channels, m.subs);
    MulIsMonotonic(y.chip + 1, m.channels, m.subs);
    SubSplits(m, x.chip, Field(m.masks.bk, a), y.chip, Field(m.masks.bk, b));
    BitsOfValue(PermutedWord(m, a));
    BitsOfValue(PermutedWord(m, b));
    PackDetermines(Not(Or(m.masks.chip, m.subMask)), a, b);
  }

  // the word with one bit
  function Unit(p: nat): Word64 { seq(64, i => i == p) }

  lemma PermutedUnit(m: Mapping, p: nat)
    requires m.Ready() && !m.gap && m.Shiftable() && p < 64 && AddedToItself(m, p)
    ensures forall k :: m.log2channel <= k < 64 ==> !Pack(m.masks.chip, Unit(p))[k] && !Pack(m.masks.chip, Zeros(64))[k]
    ensures SamePermuted(m, Unit(p), Zeros(64))
  {
    hide Pack, LowestOnes, Ones, PermutedWord;
    PackOfUnit(m.masks.chip, p);
    PackOfZeros(m.masks.chip);
    forall k | 0 <= k < 32
      ensures PermutedWord(m, Unit(p))[k] == PermutedWord(m, Zeros(64))[k]
    {
      PermutedAt(m, Unit(p), k);
      PermutedAt(m, Zeros(64), k);
    }
  }

  lemma PackOfZeros(mask: Word64)
    ensures forall k :: 0 <= k < 64 ==> !Pack(mask, Zeros(64))[k]
  {
    GatherOfZeros(mask, 64);
  }

  lemma {:induction false} GatherOfZeros(mask: Word64, hi: nat)
    requires hi <= 64
    ensures forall k :: 0 <= k < |Gather(mask, Zeros(64), 0, hi)| ==> !Gather(mask, Zeros(64), 0, hi)[k]
  {
    if hi > 0 {
      GatherOfZeros(mask, hi - 1);
    }
  }

  lemma {:induction false} GatherOfUnit(mask: Word64, p: nat, hi: nat)
    requires hi <= 64 && p < 64
    ensures forall k :: 0 <= k < |Gather(mask, Unit(p), 0, hi)| ==>
      (Gather(mask, Unit(p), 0, hi)[k] <==> p < hi && mask[p] && k == Ones(mask, 0, p))
  {
    GatherLength(mask, Unit(p), 0, hi);
    if hi > 0 {
      GatherOfUnit(mask, p, hi - 1);
      GatherLength(mask, Unit(p), 0, hi - 1);
      if p < hi - 1 && mask[p] {
        OnesGrow(mask, p + 1, hi - 1);
      }
    }
  }

  lemma PackOfUnit(mask: Word64, p: nat)
    requires p < 64 && mask[p]
    ensures forall k :: 0 <= k < 64 ==> (Pack(mask, Unit(p))[k] <==> k == Ones(mask, 0, p))
  {
    hide Gather, Ones, Unit;
    GatherOfUnit(mask, p, 64);
    PackAt(mask, Unit(p), p);
    GatherLength(mask, Unit(p), 0, 64);
  }

  /** Bitwise permutation, whether the channel bits are a hole or are named one by one:
      addresses are separated if and only if no channel bit is hashed with itself. */
  lemma PermutationSeparatesExactlyWhen(m: Mapping)
    requires m.Ready() && !m.gap && m.indexing == BitwisePermutation && m.Shiftable()
    ensures Separates(m) <==> forall p :: 0 <= p < 64 ==> !AddedToItself(m, p)
  {
    hide PermutedWord, LowestOnes, Ones, Mapping.Decode, Mapping.Partition, AddedToItself, SamePermuted, Pack,
         SamePlace;
    if forall p :: 0 <= p < 64 ==> !AddedToItself(m, p) {
      forall a: Word64, b: Word64 | m.Decode(a).Some? && m.Decode(b).Some? && SamePlace(m, a, b)
        ensures a == b
      {
        PermutedPair(m, a, b);
        PermutedBitsAgree(m, a, b);
      }
    } else {
      var p :| 0 <= p < 64 && AddedToItself(m, p);
      PermutedUnit(m, p);
      PermutedChip(m, Unit(p));
      PermutedChip(m, Zeros(64));
      PermutedPair(m, Unit(p), Zeros(64));
      assert Unit(p)[p] && !Zeros(64)[p];
    }
  }

  /** With the channel bits in a hole below the higher bits none is. */
  lemma PermutationDoesNotAlias(m: Mapping)
    requires m.Ready() && m.HasHole() && m.indexing == BitwisePermutation
    ensures m.Shiftable() && Separates(m)
    ensures forall a: Word64 :: m.Decode(a).Some?
  {
    hide Separates, Mapping.Decode, LowestOnes;
    PermutationSeparatesExactlyWhen(m);
    OnesOfRange(m.masks.chip, m.start, m.log2channel, 64);
    forall a: Word64
      ensures m.Decode(a).Some?
    {
      PermutedChip(m, a);
    }
  }

  // ---- IPOLY ----

  lemma PowerOfTwoIsNext(m: Mapping)
    requires m.Ready() && !m.gap && m.channels >= 2
    ensures NextPow2(m.channels) == m.channels
  {
    hide Ones;
    SmallLogs(m);
    var k := m.log2channel;
    assert k > 0;
    assert m.channels == 2 * Pow2(k - 1);
    Log2IsUnique(m.channels - 1, k - 1);
    MulIsMonotonic(1, m.subs, m.channels);
  }

  // 16, 32 or 64 sub-partitions of a power of two of channels, at least two
  ghost predicate IpolyReady(m: Mapping) {
    !m.gap && m.indexing == IPoly && m.channels >= 2 && m.channels * m.subs in {16, 32, 64}
  }

  lemma DegreeIsSum(m: Mapping)
    requires m.Ready() && IpolyReady(m)
    ensures m.log2channel + m.log2sub == Degree(m.channels * m.subs)
  {
    hide Ones, LowestOnes, Pow2, Log2;
    Pow2OfSum(m.log2channel, m.log2sub);
    SmallPowers();
    var (n, d) := (m.log2channel + m.log2sub, Degree(m.channels * m.subs));
    if n < d {
      Pow2Monotonic(n, d);
    } else if d < n {
      Pow2Monotonic(d, n);
    }
  }

  lemma SmallPowers()
    ensures Pow2(4) == 16 && Pow2(5) == 32 && Pow2(6) == 64
  {
  }

  // the unhashed sub-partition number: low bank bits below channel bits
  function IndexWord(m: Mapping, addr: Word64): (w: Bits)
    requires m.log2sub <= 64 && m.log2channel <= 64
    ensures |w| == m.log2sub + m.log2channel
  {
    Pack(m.masks.bk, addr)[..m.log2sub] + Pack(m.masks.chip, addr)[..m.log2channel]
  }

  ghost predicate IpolyMapping(m: Mapping) {
    && m.Ready() && IpolyReady(m) && m.Shiftable() && m.log2sub <= 32 && m.log2channel <= 32
    && m.log2channel + m.log2sub == Degree(m.channels * m.subs)
  }

  // its hash
  ghost function HashWord(m: Mapping, addr: Word64): (w: Bits)
    requires IpolyMapping(m)
    ensures |w| == m.log2sub + m.log2channel
  {
    Hash(m.channels * m.subs, m.Higher(addr), IndexWord(m, addr))
  }

  lemma IndexIsWord(m: Mapping, addr: Word64)
    requires m.Ready() && IpolyReady(m) && m.log2sub <= 32 && m.log2channel <= 32
    ensures BitsOf(m.Sub(m.Chip(addr), Field(m.masks.bk, addr)), m.log2sub + m.log2channel) == IndexWord(m, addr)
  {
    hide Pack, Value, BitsOf, Pow2, LowestOnes, Mapping.LowBank, Mapping.Sub, Ones;
    var (chip, bk) := (m.Chip(addr), Field(m.masks.bk, addr));
    ChipFits(m, addr);
    LowBankDetermines(m, addr, addr);
    LowBankIsLowBits(m, addr);
    SubIsSum(m, chip, bk);
    BitsOfSum(m.LowBank(bk), chip, m.log2sub, m.log2sub + m.log2channel);
    BitsOfValue(Pack(m.masks.bk, addr)[..m.log2sub]);
    BitsOfPrefix(Pack(m.masks.chip, addr)[..32], m.log2channel);
  }

  /** The decoded sub-partition number is the value of the hash word. */
  lemma IpolySub(m: Mapping, addr: Word64)
    requires IpolyMapping(m)
    ensures m.Decode(addr).Some?
    ensures m.Decode(addr).value.sub == Value(HashWord(m, addr)) < m.channels * m.subs
    ensures m.Decode(addr).value.chip == Quotient(m.Decode(addr).value.sub, m.subs)
  {
    hide Field, Pack, Value, BitsOf, Pow2, LowestOnes, Mapping.LowBank, Mapping.Sub, Mapping.Higher, Ones, Sum, Terms,
      IndexWord;
    PowerOfTwoIsNext(m);
    IndexIsWord(m, addr);
    BitsOfValue(m.Higher(addr));
    ValueBound(HashWord(m, addr));
    SmallPowers();
    QuotientBelow(Value(HashWord(m, addr)), m.subs, m.channels);
  }

  lemma IsIpolyMapping(m: Mapping)
    requires m.Ready() && IpolyReady(m) && m.Shiftable()
    ensures IpolyMapping(m)
  {
    SmallLogs(m);
    FewSubPartitions(m);
    DegreeIsSum(m);
  }

  // ---- linearity ----

  lemma {:induction false} GatherOfXor(mask: Word64, a: Word64, b: Word64, hi: nat)
    requires hi <= 64
    ensures var (x, y, z) := (Gather(mask, a, 0, hi), Gather(mask, b, 0, hi), Gather(mask, Xor(a, b), 0, hi));
      |x| == |y| == |z| && forall k :: 0 <= k < |z| ==> z[k] == (x[k] != y[k])
  {
    if hi > 0 {
      GatherOfXor(mask, a, b, hi - 1);
    }
  }

  lemma PackOfXor(mask: Word64, a: Word64, b: Word64)
    ensures Pack(mask, Xor(a, b)) == Xor(Pack(mask, a), Pack(mask, b))
  {
    GatherOfXor(mask, a, b, 64);
  }

  lemma HigherOfXor(m: Mapping, a: Word64, b: Word64)
    requires m.channels > 0 && !m.gap && m.Shiftable()
    ensures m.Higher(Xor(a, b)) == Xor(m.Higher(a), m.Higher(b))
  {
  }

  lemma IndexOfXor(m: Mapping, a: Word64, b: Word64)
    requires m.log2sub <= 64 && m.log2channel <= 64
    ensures IndexWord(m, Xor(a, b)) == Xor(IndexWord(m, a), IndexWord(m, b))
  {
    hide Pack;
    PackOfXor(m.masks.bk, a, b);
    PackOfXor(m.masks.chip, a, b);
  }

  lemma HashOfXor(m: Mapping, a: Word64, b: Word64)
    requires IpolyMapping(m)
    ensures HashWord(m, Xor(a, b)) == Xor(HashWord(m, a), HashWord(m, b))
  {
    hide Sum, Terms, IndexWord, Mapping.Higher, Mapping.Ready;
    HigherOfXor(m, a, b);
    IndexOfXor(m, a, b);
    var (x, y, sets) := (IndexWord(m, a), IndexWord(m, b), m.channels * m.subs);
    forall i | 0 <= i < |x|
      ensures HashWord(m, Xor(a, b))[i] == Xor(HashWord(m, a), HashWord(m, b))[i]
    {
      SumOfXor(Terms(sets, i), m.Higher(a), m.Higher(b), x[i], y[i]);
    }
  }

  // ---- which differences IPOLY does not see ----

  ghost predicate Within(d: Word64, mask: Word64) { forall i :: 0 <= i < 64 && d[i] ==> mask[i] }

  // a difference in channel and sub-partition bits only, with hash zero
  ghost predicate Unseen(m: Mapping, d: Word64)
    requires IpolyMapping(m)
  {
    Within(d, Or(m.masks.chip, m.subMask)) && HashWord(m, d) == Zeros(m.log2sub + m.log2channel)
  }

  lemma XorIsZero(a: Bits, b: Bits)
    requires |a| == |b|
    ensures Xor(a, b) == Zeros(|a|) <==> a == b
  {
    if Xor(a, b) == Zeros(|a|) {
      forall i | 0 <= i < |a|
        ensures a[i] == b[i]
      {
        assert Xor(a, b)[i] == Zeros(|a|)[i];
      }
    }
  }

  /** Two addresses share a place exactly when their difference is unseen. */
  lemma SamePlaceIsUnseen(m: Mapping, a: Word64, b: Word64)
    requires IpolyMapping(m)
    ensures m.Decode(a).Some? && m.Decode(b).Some?
    ensures SamePlace(m, a, b) <==> Unseen(m, Xor(a, b))
  {
    hide HashWord, Mapping.Decode, Pack, Value, Pow2, LowestOnes, Ones;
    IpolySub(m, a);
    IpolySub(m, b);
    HashOfXor(m, a, b);
    BitsOfValue(HashWord(m, a));
    BitsOfValue(HashWord(m, b));
    XorIsZero(HashWord(m, a), HashWord(m, b));
    var rest := Not(Or(m.masks.chip, m.subMask));
    PackDetermines(rest, a, b);
    assert Within(Xor(a, b), Or(m.masks.chip, m.subMask)) <==> Agree(rest, a, b) by {
      forall i | 0 <= i < 64
        ensures Xor(a, b)[i] == (a[i] != b[i]) && rest[i] == !Or(m.masks.chip, m.subMask)[i]
      {
      }
    }
  }

  /** IPOLY, however the channel bits are given: addresses are separated if and only
      if every nonzero difference in channel and sub-partition bits has a nonzero hash. */
  lemma IpolySeparatesExactlyWhenSeen(m: Mapping)
    requires m.Ready() && IpolyReady(m) && m.Shiftable()
    ensures IpolyMapping(m)
    ensures Separates(m) <==> forall d: Word64 :: Unseen(m, d) ==> d == Zeros(64)
  {
    hide LowestOnes, Ones, Mapping.Decode, Unseen, SamePlace, HashWord, IpolyReady;
    IsIpolyMapping(m);
    if forall d: Word64 :: Unseen(m, d) ==> d == Zeros(64) {
      forall a: Word64, b: Word64 | m.Decode(a).Some? && m.Decode(b).Some? && SamePlace(m, a, b)
        ensures a == b
      {
        SamePlaceIsUnseen(m, a, b);
        XorIsZero(a, b);
      }
    } else {
      var d: Word64 :| Unseen(m, d) && d != Zeros(64);
      assert Xor(d, Zeros(64)) == d;
      SamePlaceIsUnseen(m, d, Zeros(64));
    }
  }

  // ---- the channel bits in a hole ----

  // every nonempty set of sub-partition bits shows in the low bits of its own hash
  ghost predicate SubBitsSurvive(m: Mapping)
    requires IpolyMapping(m)
  {
    forall d: Word64 :: Within(d, m.subMask) && d != Zeros(64) ==> exists i :: 0 <= i < m.log2sub && HashWord(m, d)[i]
  }

  // the word with the given channel bits
  function Channel(m: Mapping, c: Bits): (d: Word64)
    requires m.HasHole() && |c| == m.log2channel
  {
    seq(64, i requires 0 <= i < 64 => m.start <= i < m.start + m.log2channel && c[i - m.start])
  }

  lemma SubMaskIsInBank(m: Mapping)
    requires m.Ready()
    ensures forall i :: 0 <= i < 64 && m.subMask[i] ==> m.masks.bk[i]
  {
  }

  lemma {:induction false} GatherOfNone(mask: Word64, v: Word64, hi: nat)
    requires hi <= 64 && forall i :: 0 <= i < hi && mask[i] ==> !v[i]
    ensures forall k :: 0 <= k < |Gather(mask, v, 0, hi)| ==> !Gather(mask, v, 0, hi)[k]
  {
    if hi > 0 {
      GatherOfNone(mask, v, hi - 1);
    }
  }

  lemma PackOfNone(mask: Word64, v: Word64)
    requires forall i :: 0 <= i < 64 && mask[i] ==> !v[i]
    ensures Pack(mask, v) == Zeros(64)
  {
    GatherOfNone(mask, v, 64);
  }

  // channel bits enter their own hash bits and nothing else
  lemma ChannelHash(m: Mapping, c: Bits)
    requires IpolyMapping(m) && m.HasHole() && |c| == m.log2channel
    ensures HashWord(m, Channel(m, c)) == Zeros(m.log2sub) + c
  {
    hide Pack, LowestOnes, Ones, Sum, Terms;
    var d := Channel(m, c);
    PackOfNone(m.masks.bk, d);
    ChipIsHole(m, d);
    assert Hole(m, d) == c;
    assert Padded(c)[..m.log2channel] == c;
    assert IndexWord(m, d) == Zeros(m.log2sub) + c;
    forall i | 0 <= i < m.log2sub + m.log2channel
      ensures HashWord(m, d)[i] == (Zeros(m.log2sub) + c)[i]
    {
      SumOfZeros(Terms(m.channels * m.subs, i), m.Higher(d), IndexWord(m, d)[i]);
    }
  }

  // an unseen difference has its channel bits, if any, forced by its sub-partition bits
  lemma UnseenSplits(m: Mapping, d: Word64)
    requires IpolyMapping(m) && m.HasHole() && Unseen(m, d) && SubBitsSurvive(m)
    ensures d == Zeros(64)
  {
    hide HashWord, LowestOnes, Ones;
    var c := Hole(m, d);
    var ds := Xor(d, Channel(m, c));
    SubMaskIsInBank(m);
    assert Within(ds, m.subMask);
    HashOfXor(m, d, Channel(m, c));
    ChannelHash(m, c);
    assert forall i :: 0 <= i < m.log2sub ==> !HashWord(m, ds)[i];
    assert ds == Zeros(64);
    XorIsZero(d, Channel(m, c));
    assert HashWord(m, d) == Zeros(m.log2sub) + c;
    assert forall i :: 0 <= i < |c| ==> c[i] == (Zeros(m.log2sub) + c)[m.log2sub + i];
    assert Channel(m, c) == Zeros(64);
  }

  lemma HiddenSubBits(m: Mapping, ds: Word64) returns (d: Word64)
    requires IpolyMapping(m) && m.HasHole() && Within(ds, m.subMask) && ds != Zeros(64)
    requires forall i :: 0 <= i < m.log2sub ==> !HashWord(m, ds)[i]
    ensures Unseen(m, d) && d != Zeros(64)
  {
    hide HashWord, LowestOnes, Ones;
    var c := HashWord(m, ds)[m.log2sub..];
    d := Xor(ds, Channel(m, c));
    HashOfXor(m, ds, Channel(m, c));
    ChannelHash(m, c);
    SubMaskIsInBank(m);
    assert HashWord(m, ds) == Zeros(m.log2sub) + c;
    XorIsZero(HashWord(m, ds), HashWord(m, Channel(m, c)));
    var p :| 0 <= p < 64 && ds[p];
    assert d[p];
  }

  /** IPOLY with the channel bits in a hole: addresses are separated if and only if no
      nonempty set of sub-partition bits has a hash whose log2sub low bits are zero. */
  lemma IpolySeparatesExactlyWhen(m: Mapping)
    requires m.Ready() && IpolyReady(m) && m.HasHole()
    ensures IpolyMapping(m)
    ensures Separates(m) <==> SubBitsSurvive(m)
  {
    hide HashWord, LowestOnes, Ones, Separates, Unseen;
    IpolySeparatesExactlyWhenSeen(m);
    if SubBitsSurvive(m) {
      forall d: Word64 | Unseen(m, d)
        ensures d == Zeros(64)
      {
        UnseenSplits(m, d);
      }
    } else {
      var ds: Word64 :| Within(ds, m.subMask) && ds != Zeros(64)
        && !exists i :: 0 <= i < m.log2sub && HashWord(m, ds)[i];
      var d := HiddenSubBits(m, ds);
    }
  }

  // the hash of one sub-partition bit: the equations it enters, and itself in the lowest bit
  lemma OneSubBit(m: Mapping, p: nat)
    requires IpolyMapping(m) && m.HasHole() && m.log2sub == 1 && p < 64 && m.subMask[p]
    ensures var s := m.HigherStart();
      forall i :: 0 <= i <= m.log2channel ==>
        HashWord(m, Unit(p))[i] == ((i == 0) != (p >= s && p - s in Terms(m.channels * m.subs, i)))
  {
    hide Pack, Ones, Terms, Sum, LowestOnes;
    var s := m.HigherStart();
    SubBitIsFirst(m, p);
    PackOfUnit(m.masks.bk, p);
    PackOfNone(m.masks.chip, Unit(p));
    var (higher, index) := (m.Higher(Unit(p)), IndexWord(m, Unit(p)));
    assert forall i :: 0 <= i < 64 ==> (higher[i] <==> s + i == p);
    forall i | 0 <= i <= m.log2channel
      ensures HashWord(m, Unit(p))[i] == ((i == 0) != (p >= s && p - s in Terms(m.channels * m.subs, i)))
    {
      assert index[i] == (i == 0);
      if p >= s {
        SumOfUnit(Terms(m.channels * m.subs, i), higher, index[i], p - s);
      } else {
        SumOfZeros(Terms(m.channels * m.subs, i), higher, index[i]);
      }
    }
  }

  lemma SubBitIsFirst(m: Mapping, p: nat)
    requires m.Ready() && m.log2sub == 1 && p < 64 && m.subMask[p]
    ensures m.masks.bk[p] && Ones(m.masks.bk, 0, p) == 0
  {
  }

  lemma SubBitIsOnly(m: Mapping, p: nat, q: nat)
    requires m.Ready() && m.log2sub == 1 && p < 64 && q < 64 && m.subMask[p] && m.subMask[q]
    ensures p == q
  {
    SubBitIsFirst(m, p);
    SubBitIsFirst(m, q);
    if p < q {
      OnesGrow(m.masks.bk, p + 1, q);
    } else if q < p {
      OnesGrow(m.masks.bk, q + 1, p);
    }
  }

  /** Two sub-partitions: addresses are separated if and only if the sub-partition bit
      is below the higher bits, or is not one of those that enter the lowest hash bit. */
  lemma IpolySeparatesTwoExactlyWhen(m: Mapping)
    requires m.Ready() && IpolyReady(m) && m.HasHole() && m.subs == 2
    ensures Separates(m) <==> forall p :: 0 <= p < 64 && m.subMask[p] ==>
      !(p >= m.HigherStart() && p - m.HigherStart() in Terms(m.channels * m.subs, 0))
  {
    hide HashWord, LowestOnes, Ones, Separates, Terms;
    IpolySeparatesExactlyWhen(m);
    TwoIsFirstPower(m.log2sub);
    if SubBitsSurvive(m) {
      forall p | 0 <= p < 64 && m.subMask[p]
        ensures !(p >= m.HigherStart() && p - m.HigherStart() in Terms(m.channels * m.subs, 0))
      {
        OneSubBit(m, p);
        assert Unit(p)[p] && Within(Unit(p), m.subMask);
      }
    } else {
      var d: Word64 :| Within(d, m.subMask) && d != Zeros(64) && !exists i :: 0 <= i < m.log2sub && HashWord(m, d)[i];
      var p :| 0 <= p < 64 && d[p];
      forall q | 0 <= q < 64
        ensures d[q] == (q == p)
      {
        if d[q] {
          SubBitIsOnly(m, p, q);
        }
      }
      assert d == Unit(p);
      OneSubBit(m, p);
      assert !HashWord(m, d)[0];
    }
  }

  lemma TwoIsFirstPower(n: nat)
    ensures Pow2(n) == 2 <==> n == 1
  {
  }

  // the bank bits of the sub-partition number are not among the hashed higher bits
  ghost predicate SubBelowHigher(m: Mapping) {
    forall i :: 0 <= i < 64 && m.subMask[i] ==> i < m.HigherStart()
  }

  /** In particular they are when every sub-partition bit is below the higher bits. */
  lemma IpolyDoesNotAlias(m: Mapping)
    requires m.Ready() && IpolyReady(m) && m.HasHole() && SubBelowHigher(m)
    ensures Separates(m)
  {
    hide LowestOnes, Ones, Separates, Terms, Sum, HashWord;
    IpolySeparatesExactlyWhen(m);
    forall d: Word64 | Within(d, m.subMask) && d != Zeros(64)
      ensures exists i :: 0 <= i < m.log2sub && HashWord(m, d)[i]
    {
      LowBitsSurvive(m, d);
    }
  }

  lemma FirstOne(w: Bits) returns (i: nat)
    requires w != Zeros(|w|)
    ensures i < |w| && w[i]
  {
    i :| 0 <= i < |w| && w[i] != Zeros(|w|)[i];
  }

  lemma LowBitsSurvive(m: Mapping, d: Word64)
    requires IpolyMapping(m) && SubBelowHigher(m) && Within(d, m.subMask) && d != Zeros(64)
    ensures exists i :: 0 <= i < m.log2sub && HashWord(m, d)[i]
  {
    hide Pack, LowestOnes, Ones, Terms, Sum;
    LowPackedBits(m.masks.bk, d, Zeros(64), m.log2sub);
    PackOfNone(m.masks.bk, Zeros(64));
    var p :| 0 <= p < 64 && d[p];
    assert !Agree(m.subMask, d, Zeros(64)) by {
      assert m.subMask[p] && !Zeros(64)[p];
    }
    assert Zeros(64)[..m.log2sub] == Zeros(m.log2sub);
    var i := FirstOne(Pack(m.masks.bk, d)[..m.log2sub]);
    assert IndexWord(m, d)[i];
    assert forall j :: 0 <= j < 64 ==> !m.Higher(d)[j];
    SumOfZeros(Terms(m.channels * m.subs, i), m.Higher(d), IndexWord(m, d)[i]);
    assert HashWord(m, d)[i];
  }

  // ---- when IPOLY decodes at all ----

  /** An IPOLY mapping decodes every address or none: it does exactly when the rounded
      channel count times the sub-partitions is a count with equations. */
  lemma IpolyDecodesExactlyWhen(m: Mapping, addr: Word64)
    requires m.Ready() && m.indexing == IPoly && m.Shiftable()
    ensures m.Decode(addr).Some? <==> NextPow2(m.channels) * m.subs in {16, 32, 64}
  {
    hide Value, BitsOf, Pow2, LowestOnes, Ones, NextPow2, Mapping.Sub, Mapping.Higher, Mapping.Chip, Mapping.Body,
         Field,
      IpolyHash;
    var sets := NextPow2(m.channels) * m.subs;
    var sub0 := m.Sub(m.Chip(addr), Field(m.masks.bk, m.Body(addr)));
    if sets in {16, 32, 64} {
      IpolyInRange(Value(m.Higher(addr)), sub0, sets);
      var hash := IpolyHash(Value(m.Higher(addr)), sub0, sets).value;
      if m.gap {
        ModuloBelow(hash, m.channels * m.subs);
        QuotientBelow(Modulo(hash, m.channels * m.subs), m.subs, m.channels);
      } else {
        RoundingIsNeeded(m);
        PowerOfTwoIsNext(m);
        QuotientBelow(hash, m.subs, m.channels);
      }
    } else {
      NoEquations(Value(m.Higher(addr)), sub0, sets);
    }
  }

  lemma ModuloBelow(x: nat, n: int)
    requires n > 0
    ensures Modulo(x, n) < n
  {
  }

  lemma NoEquations(higher: nat, index: nat, sets: nat)
    ensures IpolyHash(higher, index, sets).Some? <==> sets in {16, 32, 64}
  {
  }

  lemma RoundingIsNeeded(m: Mapping)
    requires m.Ready() && NextPow2(m.channels) * m.subs > 0
    ensures m.channels >= 2
  {
  }

  /** With one channel an IPOLY mapping fails its assertion on every address. */
  lemma OneChannelNeverDecodes(m: Mapping, addr: Word64)
    requires m.Ready() && m.indexing == IPoly && m.Shiftable() && m.channels == 1
    ensures m.Decode(addr).None?
  {
    hide Mapping.Decode, LowestOnes, Ones;
    IpolyDecodesExactlyWhen(m, addr);
  }
}
