/** Machine words as bit strings, lowest bit first, and their numeric values. */
module Words {
  import opened Arithmetic

  type Bits = seq<bool>

  type Word64 = w: Bits | |w| == 64 witness seq(64, _ => false)

  function Zeros(n: nat): Bits { seq(n, _ => false) }

  function Pow2(n: nat): (p: nat)
    ensures p > 0
  {
    if n == 0 then 1 else 2 * Pow2(n - 1)
  }

  function Value(w: Bits): nat {
    if w == [] then 0 else (if w[0] then 1 else 0) + 2 * Value(w[1..])
  }

  // the width lowest bits of n
  function BitsOf(n: nat, width: nat): (w: Bits)
    ensures |w| == width
    decreases width
  {
    if width == 0 then [] else [n % 2 == 1] + BitsOf(n / 2, width - 1)
  }

  function Xor(r: Bits, q: Bits): (x: Bits)
    requires |r| == |q|
    ensures |x| == |r|
  {
    seq(|r|, i requires 0 <= i < |r| => r[i] != q[i])
  }

  lemma {:induction false} ValueBound(w: Bits)
    ensures Value(w) < Pow2(|w|)
  {
    if w != [] {
      ValueBound(w[1..]);
    }
  }

  /** A word of a given length is determined by its value. */
  lemma {:induction false} BitsOfValue(w: Bits)
    ensures BitsOf(Value(w), |w|) == w
  {
    if w != [] {
      BitsOfValue(w[1..]);
    }
  }

  lemma {:induction false} ValueOfBits(n: nat, width: nat)
    requires n < Pow2(width)
    ensures Value(BitsOf(n, width)) == n
  {
    if width > 0 {
      ValueOfBits(n / 2, width - 1);
    }
  }

  lemma {:induction false} ValueOfZeros(n: nat)
    ensures Value(Zeros(n)) == 0
  {
    if n > 0 {
      assert Zeros(n)[1..] == Zeros(n - 1);
      ValueOfZeros(n - 1);
    }
  }

  lemma {:induction false} ValueOfConcat(v: Bits, w: Bits)
    ensures Value(v + w) == Value(v) + Pow2(|v|) * Value(w)
  {
    hide Pow2;
    if v == [] {
      assert v + w == w;
      assert Pow2(0) == 1 by {
        PowerZero();
      }
    } else {
      assert (v + w)[1..] == v[1..] + w;
      ValueOfConcat(v[1..], w);
      PowerDoubles(|v| - 1);
      DoubleProduct(Pow2(|v| - 1), Value(w));
    }
  }

  lemma PowerZero()
    ensures Pow2(0) == 1
  {
  }

  lemma PowerDoubles(n: nat)
    ensures Pow2(n + 1) == 2 * Pow2(n)
  {
  }

  // the exponent of the largest power of two that does not exceed n
  function Log2(n: nat): nat { if n <= 1 then 0 else 1 + Log2(n / 2) }

  // a & b
  function And(a: nat, b: nat): nat {
    if a == 0 || b == 0 then 0 else (a % 2) * (b % 2) + 2 * And(a / 2, b / 2)
  }

  function AndBits(r: Bits, q: Bits): (x: Bits)
    requires |r| == |q|
    ensures |x| == |r|
  {
    seq(|r|, i requires 0 <= i < |r| => r[i] && q[i])
  }

  lemma {:induction false} Log2Bounds(n: nat)
    requires n > 0
    ensures Pow2(Log2(n)) <= n < Pow2(Log2(n) + 1)
  {
    if n > 1 {
      Log2Bounds(n / 2);
    }
  }

  lemma {:induction false} Pow2Monotonic(i: nat, j: nat)
    requires i < j
    ensures 2 * Pow2(i) <= Pow2(j)
  {
    if i + 1 < j {
      Pow2Monotonic(i, j - 1);
    }
  }

  lemma WordSizes()
    ensures Pow2(31) == 0x8000_0000 && Pow2(32) == 0x1_0000_0000
  {
    assert Pow2(8) == 0x100 && Pow2(16) == 0x1_0000 && Pow2(24) == 0x100_0000;
  }

  lemma Log2IsUnique(n: nat, k: nat)
    requires Pow2(k) <= n < Pow2(k + 1)
    ensures Log2(n) == k
  {
    Log2Bounds(n);
    if k < Log2(n) {
      Pow2Monotonic(k, Log2(n));
    } else if Log2(n) < k {
      Pow2Monotonic(Log2(n), k);
    }
  }

  lemma {:induction false} AndSelf(n: nat)
    ensures And(n, n) == n
  {
    if n > 0 {
      AndSelf(n / 2);
    }
  }

  lemma AndOfOdd(n: nat)
    requires n % 2 == 1
    ensures And(n, n - 1) == n - 1
  {
    AndSelf(n / 2);
  }

  lemma AndOfEven(n: nat)
    requires n > 0 && n % 2 == 0
    ensures And(n, n - 1) == 2 * And(n / 2, n / 2 - 1)
  {
    assert (n - 1) / 2 == n / 2 - 1;
  }

  /** n & (n - 1) clears the lowest one of n: it is smaller, it is zero exactly
      for powers of two, and otherwise it has the same highest one. */
  lemma {:induction false} ClearLowestOne(n: nat)
    requires n > 0
    ensures And(n, n - 1) < n
    ensures And(n, n - 1) == 0 <==> n == Pow2(Log2(n))
    ensures And(n, n - 1) != 0 ==> Log2(And(n, n - 1)) == Log2(n)
  {
    hide And;
    if n % 2 == 1 {
      AndOfOdd(n);
      assert n > 1 ==> Pow2(Log2(n)) % 2 == 0;
    } else {
      ClearLowestOne(n / 2);
      AndOfEven(n);
    }
  }

  // ones from bit lo up to bit hi
  function Range(lo: nat, hi: nat, width: nat): (w: Bits)
    ensures |w| == width
  {
    seq(width, i => lo <= i < hi)
  }

  function Less(n: nat): nat { if n == 0 then 0 else n - 1 }

  lemma RangeStep(lo: nat, hi: nat, width: nat)
    requires width > 0
    ensures Range(lo, hi, width) == [lo == 0 && hi > 0] + Range(Less(lo), Less(hi), width - 1)
  {
  }

  lemma HalfDifference(lo: nat, hi: nat)
    requires lo <= hi
    ensures Pow2(lo) <= Pow2(hi)
    ensures var n := Pow2(hi) - Pow2(lo);
      (n % 2 == 1 <==> lo == 0 && hi > 0) && n / 2 == Pow2(Less(hi)) - Pow2(Less(lo))
  {
    hide Pow2;
    PowerZero();
    if lo > 0 {
      PowerDoubles(lo - 1);
    }
    if hi > 0 {
      PowerDoubles(hi - 1);
    }
    if lo < hi {
      Pow2Monotonic(lo, hi);
    }
  }

  /** 2^hi - 2^lo has the ones from lo up to hi. */
  lemma {:induction false} BitsOfRange(lo: nat, hi: nat, width: nat)
    requires lo <= hi
    ensures Pow2(lo) <= Pow2(hi) && BitsOf(Pow2(hi) - Pow2(lo), width) == Range(lo, hi, width)
    decreases width
  {
    hide Pow2, Range;
    HalfDifference(lo, hi);
    if width == 0 {
      assert Range(lo, hi, 0) == [];
    } else {
      HalfDifference(Less(lo), Less(hi));
      BitsOfRange(Less(lo), Less(hi), width - 1);
      RangeStep(lo, hi, width);
    }
  }

  lemma LowBitsOfPow2(k: nat, width: nat)
    ensures BitsOf(Pow2(k) - 1, width) == Range(0, k, width)
  {
    hide BitsOf, Range, Pow2;
    PowerZero();
    BitsOfRange(0, k, width);
  }

  lemma HalfOfSum(x: nat, y: nat, k: nat)
    requires k > 0
    ensures (x + Pow2(k) * y) / 2 == x / 2 + Pow2(k - 1) * y && (x + Pow2(k) * y) % 2 == x % 2
    ensures Pow2(k) * y >= 0 && Pow2(k - 1) * y >= 0
  {
    PowerDoubles(k - 1);
    DoubleProduct(Pow2(k - 1), y);
    MulIsMonotonic(0, Pow2(k - 1), y);
    Halve(x, Pow2(k - 1) * y);
  }

  lemma Halve(x: nat, t: nat)
    ensures (x + 2 * t) / 2 == x / 2 + t && (x + 2 * t) % 2 == x % 2
  {
  }

  lemma {:induction false} BitsOfSum(x: nat, y: nat, k: nat, width: nat)
    requires x < Pow2(k) && k <= width
    ensures Pow2(k) * y >= 0 && BitsOf(x + Pow2(k) * y, width) == BitsOf(x, k) + BitsOf(y, width - k)
  {
    if k > 0 {
      HalfOfSum(x, y, k);
      BitsOfSum(x / 2, y, k - 1, width - 1);
    }
  }

  /** Masking with 2^k - 1 keeps the k lowest bits. */
  lemma AndLowMask(w: Bits, k: nat)
    requires k <= |w|
    ensures AndBits(w, BitsOf(Pow2(k) - 1, |w|)) == w[..k] + Zeros(|w| - k)
  {
    LowBitsOfPow2(k, |w|);
  }

  // ---- values and bits ----

  lemma ValueOfTail(w: Bits, n: nat)
    ensures Value(w + Zeros(n)) == Value(w)
  {
    ValueOfConcat(w, Zeros(n));
    ValueOfZeros(n);
  }

  lemma {:induction false} BitsOfPrefix(w: Bits, n: nat)
    requires n <= |w|
    ensures BitsOf(Value(w), n) == w[..n]
  {
    if n > 0 {
      BitsOfPrefix(w[1..], n - 1);
    }
  }

  lemma {:induction false} HighBitsClear(w: Bits, k: nat)
    requires Value(w) < Pow2(k)
    ensures forall i :: k <= i < |w| ==> !w[i]
  {
    if w != [] {
      if k > 0 {
        HighBitsClear(w[1..], k - 1);
      } else {
        HighBitsClear(w[1..], 0);
      }
      assert forall i :: k <= i < |w| && i > 0 ==> w[i] == w[1..][i - 1];
    }
  }

  /** A word is below 2^k exactly when it has no one from bit k up. */
  lemma BelowPower(w: Bits, k: nat)
    requires k <= |w|
    ensures Value(w) < Pow2(k) <==> forall i :: k <= i < |w| ==> !w[i]
  {
    hide Value, Pow2;
    if Value(w) < Pow2(k) {
      HighBitsClear(w, k);
    } else if forall i :: k <= i < |w| ==> !w[i] {
      assert w == w[..k] + Zeros(|w| - k);
      ValueOfTail(w[..k], |w| - k);
      ValueBound(w[..k]);
    }
  }
}
