/** Gathering the address bits that a mask selects, and the loops of the address
    decoder that do it. */
module MaskPacking {
  import opened Arithmetic
  import opened Words

  // the bits of v at the ones of mask within [lo, hi), lowest first
  function Gather(mask: Word64, v: Word64, lo: nat, hi: nat): (g: Bits)
    requires lo <= hi <= 64
    ensures |g| <= hi - lo
    decreases hi
  {
    if lo == hi then [] else Gather(mask, v, lo, hi - 1) + if mask[hi - 1] then [v[hi - 1]] else []
  }

  // number of ones of mask in [lo, hi)
  function Ones(mask: Word64, lo: nat, hi: nat): (n: nat)
    requires lo <= hi <= 64
    ensures n <= hi - lo
    decreases hi
  {
    if lo == hi then 0 else Ones(mask, lo, hi - 1) + if mask[hi - 1] then 1 else 0
  }

  function Padded(g: Bits): (w: Word64)
    requires |g| <= 64
  {
    g + Zeros(64 - |g|)
  }

  // addrdec_packbits over the whole word
  function Pack(mask: Word64, v: Word64): Word64 { Padded(Gather(mask, v, 0, 64)) }

  ghost predicate Agree(mask: Word64, a: Word64, b: Word64) {
    forall i :: 0 <= i < 64 && mask[i] ==> a[i] == b[i]
  }

  lemma {:induction false} GatherLength(mask: Word64, v: Word64, lo: nat, hi: nat)
    requires lo <= hi <= 64
    ensures |Gather(mask, v, lo, hi)| == Ones(mask, lo, hi)
    decreases hi
  {
    if lo < hi {
      GatherLength(mask, v, lo, hi - 1);
    }
  }

  lemma {:induction false} GatherDetermines(mask: Word64, a: Word64, b: Word64, lo: nat, hi: nat)
    requires lo <= hi <= 64
    ensures Gather(mask, a, lo, hi) == Gather(mask, b, lo, hi) <==>
      forall i :: lo <= i < hi && mask[i] ==> a[i] == b[i]
    decreases hi
  {
    if lo < hi {
      var (x, y) := (Gather(mask, a, lo, hi - 1), Gather(mask, b, lo, hi - 1));
      GatherDetermines(mask, a, b, lo, hi - 1);
      GatherLength(mask, a, lo, hi - 1);
      GatherLength(mask, b, lo, hi - 1);
      if mask[hi - 1] {
        assert (x + [a[hi - 1]])[..|x|] == x && (y + [b[hi - 1]])[..|y|] == y;
        assert (x + [a[hi - 1]])[|x|] == a[hi - 1] && (y + [b[hi - 1]])[|y|] == b[hi - 1];
      }
    }
  }

  /** Two words are packed alike exactly when they agree on the bits of the mask. */
  lemma PackDetermines(mask: Word64, a: Word64, b: Word64)
    ensures Pack(mask, a) == Pack(mask, b) <==> Agree(mask, a, b)
  {
    var (x, y) := (Gather(mask, a, 0, 64), Gather(mask, b, 0, 64));
    GatherLength(mask, a, 0, 64);
    GatherLength(mask, b, 0, 64);
    GatherDetermines(mask, a, b, 0, 64);
    assert Padded(x)[..|x|] == x && Padded(y)[..|y|] == y;
  }

  // the same for the low 32 bits of the result, when the mask has no more ones
  lemma PackDetermines32(mask: Word64, a: Word64, b: Word64)
    requires Ones(mask, 0, 64) <= 32
    ensures Value(Pack(mask, a)[..32]) == Value(Pack(mask, b)[..32]) <==> Agree(mask, a, b)
  {
    GatherLength(mask, a, 0, 64);
    GatherLength(mask, b, 0, 64);
    PackDetermines(mask, a, b);
    BitsOfValue(Pack(mask, a)[..32]);
    BitsOfValue(Pack(mask, b)[..32]);
    assert Pack(mask, a) == Pack(mask, a)[..32] + Zeros(32);
    assert Pack(mask, b) == Pack(mask, b)[..32] + Zeros(32);
  }

  lemma {:induction false} GatherSplits(mask: Word64, v: Word64, lo: nat, mid: nat, hi: nat)
    requires lo <= mid <= hi <= 64
    ensures Gather(mask, v, lo, hi) == Gather(mask, v, lo, mid) + Gather(mask, v, mid, hi)
    decreases hi
  {
    if mid < hi {
      GatherSplits(mask, v, lo, mid, hi - 1);
    }
  }

  lemma {:induction false} NoOnes(mask: Word64, v: Word64, lo: nat, hi: nat)
    requires lo <= hi <= 64
    requires forall i :: lo <= i < hi ==> !mask[i]
    ensures Gather(mask, v, lo, hi) == [] && Ones(mask, lo, hi) == 0
    decreases hi
  {
    if lo < hi {
      NoOnes(mask, v, lo, hi - 1);
    }
  }

  lemma {:induction false} OnesOfRange(mask: Word64, lo: nat, n: nat, hi: nat)
    requires lo + n <= hi <= 64 && forall i :: 0 <= i < hi ==> (mask[i] <==> lo <= i < lo + n)
    ensures Ones(mask, 0, hi) == n
    decreases hi
  {
    if hi > lo + n {
      OnesOfRange(mask, lo, n, hi - 1);
    } else if n > 0 {
      OnesOfRange(mask, lo, n - 1, hi - 1);
    } else if lo > 0 {
      OnesOfRange(mask, lo - 1, 0, hi - 1);
    }
  }

  // what addrdec_getmasklimit finds: the tightest range holding every one of mask
  ghost predicate IsLimit(mask: Word64, low: nat, high: nat) {
    && low < high <= 64
    && (forall i :: 0 <= i < 64 && mask[i] ==> low <= i < high)
    && (if forall i :: 0 <= i < 64 ==> !mask[i] then low == 0 && high == 64 else mask[low] && mask[high - 1])
  }

  /** Packing over the limits of a mask is packing over the whole word. */
  lemma LimitsAreEnough(mask: Word64, v: Word64, low: nat, high: nat)
    requires IsLimit(mask, low, high)
    ensures Padded(Gather(mask, v, low, high)) == Pack(mask, v)
  {
    hide Gather, Ones, Padded;
    GatherSplits(mask, v, 0, low, 64);
    GatherSplits(mask, v, low, high, 64);
    NoOnes(mask, v, 0, low);
    NoOnes(mask, v, high, 64);
    assert [] + (Gather(mask, v, low, high) + []) == Gather(mask, v, low, high);
  }

  // ---- the sub-partition mask ----

  // the k lowest ones of mask
  function LowestOnes(mask: Word64, k: nat): Word64 {
    seq(64, i requires 0 <= i < 64 => mask[i] && Ones(mask, 0, i) < k)
  }

  lemma {:induction false} GatherLowestOnes(mask: Word64, v: Word64, k: nat, hi: nat)
    requires hi <= 64
    ensures var (g, n) := (Gather(mask, v, 0, hi), Ones(mask, 0, hi));
            |g| == n && Gather(LowestOnes(mask, k), v, 0, hi) == g[..if n < k then n else k]
  {
    GatherLength(mask, v, 0, hi);
    if hi > 0 {
      GatherLowestOnes(mask, v, k, hi - 1);
    }
  }

  lemma PaddingIsInjective(x: Bits, y: Bits, n: nat)
    requires |x| == |y|
    ensures x + Zeros(n) == y + Zeros(n) <==> x == y
  {
    assert (x + Zeros(n))[..|x|] == x && (y + Zeros(n))[..|y|] == y;
  }

  lemma LowPackedBitsAre(mask: Word64, v: Word64, k: nat)
    requires k <= 64
    ensures var g := Gather(LowestOnes(mask, k), v, 0, 64);
            |g| <= k && Pack(mask, v)[..k] == g + Zeros(k - |g|)
  {
    GatherLowestOnes(mask, v, k, 64);
  }

  /** The k lowest bits of a packed word are those that the k lowest ones of the
      mask select. */
  lemma LowPackedBits(mask: Word64, a: Word64, b: Word64, k: nat)
    requires k <= 64
    ensures Pack(mask, a)[..k] == Pack(mask, b)[..k] <==> Agree(LowestOnes(mask, k), a, b)
  {
    hide Pack, LowestOnes;
    var low := LowestOnes(mask, k);
    LowPackedBitsAre(mask, a, k);
    LowPackedBitsAre(mask, b, k);
    GatherLength(low, a, 0, 64);
    GatherLength(low, b, 0, 64);
    GatherDetermines(low, a, b, 0, 64);
    PaddingIsInjective(Gather(low, a, 0, 64), Gather(low, b, 0, 64), k - |Gather(low, a, 0, 64)|);
  }

  // ---- the loops ----

  method PackBits(mask: Word64, val: Word64, high: nat, low: nat) returns (result: Word64)
    requires low <= high <= 64
    ensures result == Padded(Gather(mask, val, low, high))
  {
    var pos := 0;
    result := Zeros(64);
    var i := low;
    while i < high
      invariant low <= i <= high
      invariant pos == |Gather(mask, val, low, i)| && result == Padded(Gather(mask, val, low, i))
    {
      if mask[i] {
        result := result[pos := result[pos] || val[i]];
        pos := pos + 1;
      }
      i := i + 1;
    }
  }

  method GetMaskLimit(mask: Word64) returns (high: nat, low: nat)
    ensures IsLimit(mask, low, high)
  {
    high, low := 64, 0;
    var lowFound := false;
    var i := 0;
    while i < 64
      invariant 0 <= i <= 64
      invariant !lowFound ==> (high, low) == (64, 0) && forall j :: 0 <= j < i ==> !mask[j]
      invariant lowFound ==> low < high <= i && mask[low] && mask[high - 1]
      invariant lowFound ==> forall j :: 0 <= j < i && mask[j] ==> low <= j < high
    {
      if mask[i] {
        if lowFound {
          high := i + 1;
        } else {
          high := i + 1;
          low := i;
          lowFound := true;
        }
      }
      i := i + 1;
    }
  }

  lemma {:induction false} OnesGrow(mask: Word64, i: nat, j: nat)
    requires i <= j <= 64
    ensures Ones(mask, 0, i) <= Ones(mask, 0, j)
    decreases j
  {
    if i < j {
      OnesGrow(mask, i, j - 1);
    }
  }

  // the loop of init that marks the bits of the sub-partition number
  method SubPartitionMask(bk: Word64, low: nat, high: nat, log2: nat) returns (mask: Word64)
    requires IsLimit(bk, low, high) && log2 > 0
    ensures mask == LowestOnes(bk, log2)
  {
    mask := Zeros(64);
    var pos := 0;
    var i := low;
    NoOnes(bk, bk, 0, low);
    while i < high
      invariant low <= i <= high && pos == Ones(bk, 0, i) < log2
      invariant forall j :: 0 <= j < 64 ==> mask[j] == (j < i && LowestOnes(bk, log2)[j])
    {
      if bk[i] {
        mask := mask[i := true];
        pos := pos + 1;
        if pos >= log2 {
          forall j | i < j < 64
            ensures !LowestOnes(bk, log2)[j]
          {
            OnesGrow(bk, i + 1, j);
          }
          return;
        }
      }
      i := i + 1;
    }
  }

  lemma HalfThenDivide(v: nat, p: nat)
    requires p > 0
    ensures v / 2 / p == v / (2 * p)
  {
    var (q, r) := (v / 2 / p, v / 2 % p);
    assert v / 2 == q * p + r;
    assert q * (2 * p) == 2 * (q * p);
    DivModOfSum(q, 2 * p, 2 * r + v % 2);
  }

  lemma {:induction false} Log2OfShifted(v: nat, k: nat)
    requires v >= Pow2(k)
    ensures Log2(v) == k + Log2(v / Pow2(k))
  {
    if k > 0 {
      Log2OfShifted(v / 2, k - 1);
      HalfThenDivide(v, Pow2(k - 1));
    }
  }

  lemma UpperHalf(v: nat, base: nat)
    requires base > 0 && v < base * base
    ensures v / base < base && (v / base == 0 <==> v < base)
  {
    var q := v / base;
    assert v == base * q + v % base;
    assert q >= base ==> base * q >= base * base;
    MultipleIsFar(base, q);
  }

  // one step of LOGB2_32: v has at most 2k bits; shift by k if it has more than k
  method HalveLog(v: nat, k: nat, base: nat) returns (v': nat, shift: nat)
    requires base == Pow2(k) && v < base * base
    ensures v' < base && Log2(v) == shift + Log2(v')
  {
    UpperHalf(v, base);
    if v / base != 0 {
      Log2OfShifted(v, k);
      return v / base, k;
    }
    return v, 0;
  }

  // LOGB2_32: each step tests the upper half of the bits that are left
  method LogB2(x: nat) returns (r: nat)
    requires x < 0x1_0000_0000
    ensures r == Log2(x)
  {
    assert Pow2(8) == 0x100 && Pow2(16) == 0x1_0000;
    var v, shift := HalveLog(x, 16, 0x1_0000);
    r := shift;
    v, shift := HalveLog(v, 8, 0x100);
    r := r + shift;
    v, shift := HalveLog(v, 4, 0x10);
    r := r + shift;
    v, shift := HalveLog(v, 2, 4);
    r := r + shift;
    v, shift := HalveLog(v, 1, 2);
    r := r + shift;
  }

  // next_powerOf2 for every 32-bit argument: zero where no 32-bit power of two is left
  function NextPow2(n: nat): nat { if 2 <= n <= 0x8000_0000 then Pow2(Log2(n - 1) + 1) else 0 }

  lemma TopBit(n: nat)
    requires 0 < n < 0x1_0000_0000
    ensures Pow2(Log2(n)) <= 0x8000_0000
    ensures Pow2(Log2(n)) == 0x8000_0000 <==> n >= 0x8000_0000
  {
    Log2Bounds(n);
    WordSizes();
    if Log2(n) > 31 {
      Pow2Monotonic(31, Log2(n));
    } else if Log2(n) < 31 {
      Pow2Monotonic(Log2(n), 31);
    }
  }

  // what the loop of next_powerOf2 keeps of the decremented argument n0
  predicate ClearedFrom(n: nat, n0: nat) { n <= n0 && (n == 0 <==> n0 == 0) && (n > 0 ==> Log2(n) == Log2(n0)) }

  // n & (n - 1) with a 32-bit decrement
  function Cleared(n: nat): nat { And(n, if n == 0 then 0xFFFF_FFFF else n - 1) }

  lemma ClearKeeps(n: nat, n0: nat)
    requires ClearedFrom(n, n0) && Cleared(n) != 0
    ensures Cleared(n) < n && ClearedFrom(Cleared(n), n0)
  {
    ClearLowestOne(n);
  }

  lemma ClearedIsNext(n: nat, x: nat)
    requires x < 0x1_0000_0000 && Cleared(n) == 0
    requires ClearedFrom(n, if x == 0 then 0xFFFF_FFFF else x - 1)
    ensures n * 2 % 0x1_0000_0000 == NextPow2(x)
  {
    hide And, Log2, Pow2;
    if n > 0 {
      var n0 := if x == 0 then 0xFFFF_FFFF else x - 1;
      ClearLowestOne(n);
      TopBit(n0);
      PowerDoubles(Log2(n0));
    }
  }

  method NextPowerOf2(x: nat) returns (r: nat)
    requires x < 0x1_0000_0000
    ensures r == NextPow2(x)
  {
    var n: nat := if x == 0 then 0xFFFF_FFFF else x - 1;
    ghost var n0 := n;
    while Cleared(n) != 0
      invariant ClearedFrom(n, n0)
      decreases n
    {
      ClearKeeps(n, n0);
      n := Cleared(n);
    }
    ClearedIsNext(n, x);
    r := n * 2 % 0x1_0000_0000;
  }

  /** next_powerOf2 yields the least power of two that is not below n exactly for
      2 <= n <= 2^31. */
  lemma NextPow2IsLeast(n: nat)
    requires n < 0x1_0000_0000
    ensures 2 <= n <= 0x8000_0000 <==>
      (exists k :: NextPow2(n) == Pow2(k)) && n <= NextPow2(n) && forall k :: n <= Pow2(k) ==> NextPow2(n) <= Pow2(k)
  {
    if 2 <= n <= 0x8000_0000 {
      var j := Log2(n - 1);
      Log2Bounds(n - 1);
      forall k | n <= Pow2(k)
        ensures Pow2(j + 1) <= Pow2(k)
      {
        if k < j {
          Pow2Monotonic(k, j);
        } else if j + 1 < k {
          Pow2Monotonic(j + 1, k);
        }
      }
    }
  }
}
