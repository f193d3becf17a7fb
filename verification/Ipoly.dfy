/** The IPOLY set hash, and polynomials over GF(2) as bit strings, lowest
    coefficient first. */
module Ipoly {
  import opened Arithmetic
  import opened Options
  import opened Words

  // ---- remainders ----

  // x * r + bit, reduced by x^m + (the polynomial of taps), m = |taps|
  function Shift(taps: Bits, r: Bits, bit: bool): (r': Bits)
    requires |r| == |taps| > 0
    ensures |r'| == |taps|
  {
    seq(|r|, i requires 0 <= i < |r| =>
      (if i == 0 then bit else r[i - 1]) != (taps[i] && r[|r| - 1]))
  }

  // the remainder of the polynomial s by x^m + taps: Horner's rule from the top
  function Remainder(taps: Bits, s: Bits): (r: Bits)
    requires |taps| > 0
    ensures |r| == |taps|
  {
    if s == [] then Zeros(|taps|) else Shift(taps, Remainder(taps, s[1..]), s[0])
  }

  // the remainder of x^k
  function Column(taps: Bits, k: nat): (r: Bits)
    requires |taps| > 0
    ensures |r| == |taps|
  {
    if k == 0 then Zeros(|taps|)[0 := true] else Shift(taps, Column(taps, k - 1), false)
  }

  function Scale(c: bool, r: Bits): (q: Bits)
    ensures |q| == |r|
  {
    if c then r else Zeros(|r|)
  }

  lemma ShiftIsLinear(taps: Bits, r: Bits, q: Bits, bit: bool)
    requires |r| == |q| == |taps| > 0
    ensures Shift(taps, Xor(r, q), bit) == Xor(Shift(taps, r, bit), Shift(taps, q, false))
  {
  }

  /** A further top bit adds the remainder of its power of x. */
  lemma {:induction false} TopBitAddsColumn(taps: Bits, s: Bits, bit: bool)
    requires |taps| > 0
    ensures Remainder(taps, s + [bit]) == Xor(Remainder(taps, s), Scale(bit, Column(taps, |s|)))
  {
    if s == [] {
      assert (s + [bit])[1..] == [];
    } else {
      assert (s + [bit])[1..] == s[1..] + [bit];
      TopBitAddsColumn(taps, s[1..], bit);
      ShiftIsLinear(taps, Remainder(taps, s[1..]), Scale(bit, Column(taps, |s| - 1)), s[0]);
      assert Shift(taps, Zeros(|taps|), false) == Zeros(|taps|);
    }
  }

  /** A polynomial of degree below m is its own remainder. */
  lemma {:induction false} ShortIsOwnRemainder(taps: Bits, s: Bits)
    requires |s| <= |taps| && |taps| > 0
    ensures Remainder(taps, s) == s + Zeros(|taps| - |s|)
  {
    if s != [] {
      ShortIsOwnRemainder(taps, s[1..]);
    }
  }

  // ---- conflict freedom ----

  lemma ShiftIsInjective(taps: Bits, r: Bits, q: Bits, bit: bool)
    requires |r| == |q| == |taps| > 0 && taps[0]
    requires Shift(taps, r, bit) == Shift(taps, q, bit)
    ensures r == q
  {
    var (m, r', q') := (|r|, Shift(taps, r, bit), Shift(taps, q, bit));
    assert r[m - 1] == q[m - 1] by {
      assert r'[0] == q'[0];
    }
    forall i | 0 <= i < m - 1
      ensures r[i] == q[i]
    {
      assert r'[i + 1] == q'[i + 1];
    }
  }

  // below at most m differing bits the remainders differ in exactly those bits
  lemma {:induction false} WindowDifference(taps: Bits, w: Bits, v: Bits, high: Bits)
    requires |w| == |v| <= |taps| && |taps| > 0
    ensures forall i :: 0 <= i < |taps| ==>
      (Remainder(taps, w + high)[i] != Remainder(taps, v + high)[i] <==> i < |w| && w[i] != v[i])
  {
    if w == [] {
      assert w + high == high && v + high == high;
    } else {
      assert (w + high)[1..] == w[1..] + high && (v + high)[1..] == v[1..] + high;
      WindowDifference(taps, w[1..], v[1..], high);
      var (r, q) := (Remainder(taps, w[1..] + high), Remainder(taps, v[1..] + high));
      assert r[|taps| - 1] == q[|taps| - 1];
      forall i | 0 <= i < |taps|
        ensures Remainder(taps, w + high)[i] != Remainder(taps, v + high)[i] <==> i < |w| && w[i] != v[i]
      {
        if i > 0 {
          assert r[i - 1] != q[i - 1] <==> i - 1 < |w[1..]| && w[1..][i - 1] != v[1..][i - 1];
        }
      }
    }
  }

  /** Two strings of any length that differ, and only within m consecutive bits,
      have different remainders. */
  lemma {:induction false} WindowsDoNotCollide(taps: Bits, s: Bits, t: Bits, lo: nat)
    requires |taps| > 0 && taps[0]
    requires |s| == |t| && s != t
    requires forall k :: 0 <= k < |s| && !(lo <= k < lo + |taps|) ==> s[k] == t[k]
    ensures Remainder(taps, s) != Remainder(taps, t)
  {
    if lo > 0 && s != [] {
      assert s == [s[0]] + s[1..] && t == [t[0]] + t[1..];
      WindowsDoNotCollide(taps, s[1..], t[1..], lo - 1);
      if Remainder(taps, s) == Remainder(taps, t) {
        ShiftIsInjective(taps, Remainder(taps, s[1..]), Remainder(taps, t[1..]), s[0]);
      }
    } else {
      var n := if |s| < |taps| then |s| else |taps|;
      assert s == s[..n] + s[n..] && t == t[..n] + t[n..] && s[n..] == t[n..];
      WindowDifference(taps, s[..n], t[..n], s[n..]);
      var i :| 0 <= i < |s| && s[i] != t[i];
      assert s[..n][i] != t[..n][i];
    }
  }

  // ---- the hash ----

  // set counts for which equations are given
  predicate Supported(sets: nat) { sets == 16 || sets == 32 || sets == 64 }

  function Degree(sets: nat): nat { if sets == 16 then 4 else if sets == 32 then 5 else 6 }

  // new_index[i] is the sum of these bits of the higher address bits and of index bit i
  function Terms(sets: nat, i: nat): set<nat> {
    if sets == 16 then
      match i
      case 0 => {11, 10, 9, 8, 6, 4, 3, 0}
      case 1 => {12, 8, 7, 6, 5, 3, 1, 0}
      case 2 => {9, 8, 7, 6, 4, 2, 1}
      case _ => {10, 9, 8, 7, 5, 3, 2}
    else if sets == 32 then
      match i
      case 0 => {13, 12, 11, 10, 9, 6, 5, 3, 0}
      case 1 => {14, 13, 12, 11, 10, 7, 6, 4, 1}
      case 2 => {14, 10, 9, 8, 7, 6, 3, 2, 0}
      case 3 => {11, 10, 9, 8, 7, 4, 3, 1}
      case _ => {12, 11, 10, 9, 8, 5, 4, 2}
    else
      match i
      case 0 => {18, 17, 16, 15, 12, 10, 6, 5, 0}
      case 1 => {15, 13, 12, 11, 10, 7, 5, 1, 0}
      case 2 => {16, 14, 13, 12, 11, 8, 6, 2, 1}
      case 3 => {17, 15, 14, 13, 12, 9, 7, 3, 2}
      case 4 => {18, 16, 15, 14, 13, 10, 8, 4, 3}
      case _ => {17, 16, 15, 14, 11, 9, 5, 4}
  }

  // the sum in GF(2) of bit and the bits of a named by terms
  function Sum(terms: set<nat>, a: Bits, bit: bool): bool {
    if a == [] then bit
    else var k := |a| - 1; if k in terms then a[k] != Sum(terms, a[..k], bit) else Sum(terms, a[..k], bit)
  }

  function Hash(sets: nat, a: Word64, b: Bits): (r: Bits)
    requires |b| == Degree(sets)
    ensures |r| == |b|
  {
    seq(|b|, i requires 0 <= i < |b| => Sum(Terms(sets, i), a, b[i]))
  }

  // ipoly_hash_function: None where the original asserts
  function IpolyHash(higher: nat, index: nat, sets: nat): Option<nat> {
    if Supported(sets) then Some(Value(Hash(sets, BitsOf(higher, 64), BitsOf(index, Degree(sets))))) else None
  }

  // ---- the equations are remainders ----

  // x^4 + x + 1, x^5 + x^2 + 1 and x^6 + x + 1 without their leading terms
  function Polynomial(sets: nat): (taps: Bits)
    ensures |taps| == Degree(sets) && taps[0]
  {
    if sets == 16 then [true, true, false, false]
    else if sets == 32 then [true, false, true, false, false]
    else [true, true, false, false, false, false]
  }

  // number of higher bits that the equations use
  function Tapped(sets: nat): nat { if sets == 16 then 13 else if sets == 32 then 15 else 19 }

  lemma TermsFollowPolynomial(sets: nat, i: nat, k: nat)
    requires Supported(sets) && i < Degree(sets)
    ensures k in Terms(sets, i) ==> k < Tapped(sets)
    ensures 0 in Terms(sets, i) <==> Polynomial(sets)[i]
    ensures k + 1 < Tapped(sets) ==> (k + 1 in Terms(sets, i) <==>
      (i > 0 && k in Terms(sets, i - 1)) != (Polynomial(sets)[i] && k in Terms(sets, Degree(sets) - 1)))
  {
  }

  lemma {:induction false} LowColumn(taps: Bits, k: nat)
    requires k < |taps|
    ensures Column(taps, k) == Zeros(|taps|)[k := true]
  {
    if k > 0 {
      LowColumn(taps, k - 1);
    }
  }

  lemma {:induction false} TermsAreColumns(sets: nat, i: nat, k: nat)
    requires Supported(sets) && i < Degree(sets) && k < Tapped(sets)
    ensures Column(Polynomial(sets), Degree(sets) + k)[i] <==> k in Terms(sets, i)
    decreases k
  {
    var (m, taps) := (Degree(sets), Polynomial(sets));
    if k == 0 {
      LowColumn(taps, m - 1);
      TermsFollowPolynomial(sets, i, 0);
    } else {
      TermsAreColumns(sets, m - 1, k - 1);
      if i > 0 {
        TermsAreColumns(sets, i - 1, k - 1);
      }
      TermsFollowPolynomial(sets, i, k - 1);
    }
  }

  lemma {:induction false} SumIsRemainder(sets: nat, a: Bits, b: Bits, i: nat)
    requires Supported(sets) && |b| == Degree(sets) && |a| <= Tapped(sets) && i < |b|
    ensures Sum(Terms(sets, i), a, b[i]) == Remainder(Polynomial(sets), b + a)[i]
    decreases |a|
  {
    var taps := Polynomial(sets);
    if a == [] {
      assert b + a == b;
      ShortIsOwnRemainder(taps, b);
    } else {
      var k := |a| - 1;
      assert b + a == b + a[..k] + [a[k]];
      SumIsRemainder(sets, a[..k], b, i);
      TopBitAddsColumn(taps, b + a[..k], a[k]);
      TermsAreColumns(sets, i, k);
    }
  }

  lemma {:induction false} UntappedBitsDoNotMatter(sets: nat, a: Bits, bit: bool, i: nat)
    requires Supported(sets) && i < Degree(sets) && |a| >= Tapped(sets)
    ensures Sum(Terms(sets, i), a, bit) == Sum(Terms(sets, i), a[..Tapped(sets)], bit)
    decreases |a|
  {
    var k := |a| - 1;
    if k < Tapped(sets) {
      assert a[..Tapped(sets)] == a;
    } else {
      assert a[..k][..Tapped(sets)] == a[..Tapped(sets)];
      UntappedBitsDoNotMatter(sets, a[..k], bit, i);
      TermsFollowPolynomial(sets, i, k);
    }
  }

  /** The hard-coded equations compute the remainder of (higher bits : index) by
      x^4 + x + 1, x^5 + x^2 + 1 or x^6 + x + 1, over the tapped higher bits. */
  lemma HashIsRemainder(sets: nat, a: Word64, b: Bits)
    requires Supported(sets) && |b| == Degree(sets)
    ensures Hash(sets, a, b) == Remainder(Polynomial(sets), b + a[..Tapped(sets)])
  {
    forall i | 0 <= i < |b|
      ensures Hash(sets, a, b)[i] == Remainder(Polynomial(sets), b + a[..Tapped(sets)])[i]
    {
      UntappedBitsDoNotMatter(sets, a, b[i], i);
      SumIsRemainder(sets, a[..Tapped(sets)], b, i);
    }
  }

  // the line address that the hash sees: the index below the tapped higher bits
  function Line(higher: nat, index: nat, sets: nat): Bits {
    BitsOf(index, Degree(sets)) + BitsOf(higher, 64)[..Tapped(sets)]
  }

  /** Line addresses that differ, and only in log2(sets) consecutive bits anywhere
      in the tapped range, go to different sets; every result is a set number. */
  lemma IpolyIsConflictFree(higher: nat, index: nat, higher': nat, index': nat, sets: nat, lo: nat)
    requires Supported(sets)
    requires var (s, t) := (Line(higher, index, sets), Line(higher', index', sets));
             s != t && forall k :: 0 <= k < |s| && !(lo <= k < lo + Degree(sets)) ==> s[k] == t[k]
    ensures IpolyHash(higher, index, sets).Some? && IpolyHash(higher, index, sets).value < sets
    ensures IpolyHash(higher, index, sets) != IpolyHash(higher', index', sets)
  {
    hide Remainder, Sum, Terms;
    var m := Degree(sets);
    var (a, b) := (BitsOf(higher, 64), BitsOf(index, m));
    var (a', b') := (BitsOf(higher', 64), BitsOf(index', m));
    HashIsRemainder(sets, a, b);
    HashIsRemainder(sets, a', b');
    WindowsDoNotCollide(Polynomial(sets), Line(higher, index, sets), Line(higher', index', sets), lo);
    BitsOfValue(Hash(sets, a, b));
    BitsOfValue(Hash(sets, a', b'));
    ValueBound(Hash(sets, a, b));
    assert Pow2(4) == 16 && Pow2(5) == 32 && Pow2(6) == 64;
  }

  /** For fixed higher bits the hash permutes the set numbers. */
  lemma IpolyPermutesIndexes(higher: nat, index: nat, index': nat, sets: nat)
    requires Supported(sets) && index < sets && index' < sets
    ensures IpolyHash(higher, index, sets).Some? && IpolyHash(higher, index, sets).value < sets
    ensures IpolyHash(higher, index, sets) == IpolyHash(higher, index', sets) <==> index == index'
  {
    hide IpolyHash;
    var m := Degree(sets);
    assert Pow2(4) == 16 && Pow2(5) == 32 && Pow2(6) == 64;
    ValueOfBits(index, m);
    ValueOfBits(index', m);
    var (s, t) := (Line(higher, index, sets), Line(higher, index', sets));
    assert s[..m] == BitsOf(index, m) && t[..m] == BitsOf(index', m);
    if index != index' {
      IpolyIsConflictFree(higher, index, higher, index', sets, 0);
    } else {
      IpolyInRange(higher, index, sets);
    }
  }

  lemma IpolyInRange(higher: nat, index: nat, sets: nat)
    requires Supported(sets)
    ensures IpolyHash(higher, index, sets).Some? && IpolyHash(higher, index, sets).value < sets
  {
    hide Sum, Terms;
    ValueBound(Hash(sets, BitsOf(higher, 64), BitsOf(index, Degree(sets))));
    assert Pow2(4) == 16 && Pow2(5) == 32 && Pow2(6) == 64;
  }

  /** The low bits of the hash depend on the index only through its low bits. */
  lemma IpolyLowBits(higher: nat, index: nat, index': nat, sets: nat, n: nat)
    requires Supported(sets) && n <= Degree(sets)
    requires BitsOf(index, Degree(sets))[..n] == BitsOf(index', Degree(sets))[..n]
    ensures IpolyHash(higher, index, sets).Some? && IpolyHash(higher, index', sets).Some?
    ensures IpolyHash(higher, index, sets).value % Pow2(n) == IpolyHash(higher, index', sets).value % Pow2(n)
  {
    hide Sum, Terms, Value, Pow2, BitsOf;
    var m := Degree(sets);
    var a := BitsOf(higher, 64);
    var (b, b') := (BitsOf(index, m), BitsOf(index', m));
    var (h, h') := (Hash(sets, a, b), Hash(sets, a, b'));
    assert forall i :: 0 <= i < n ==> b[i] == b[..n][i] && b'[i] == b'[..n][i];
    assert h[..n] == h'[..n];
    LowValue(h, n);
    LowValue(h', n);
  }

  lemma LowValue(w: Bits, n: nat)
    requires n <= |w|
    ensures Value(w) % Pow2(n) == Value(w[..n])
  {
    hide Value, Pow2;
    assert w == w[..n] + w[n..];
    ValueOfConcat(w[..n], w[n..]);
    ValueBound(w[..n]);
    DivModOfSum(Value(w[n..]), Pow2(n), Value(w[..n]));
  }

  /** The hash is linear: the hash of a sum is the sum of the hashes. */
  lemma {:induction false} SumOfXor(terms: set<nat>, a: Bits, b: Bits, p: bool, q: bool)
    requires |a| == |b|
    ensures Sum(terms, Xor(a, b), p != q) == (Sum(terms, a, p) != Sum(terms, b, q))
    decreases |a|
  {
    if a != [] {
      var k := |a| - 1;
      assert Xor(a, b)[..k] == Xor(a[..k], b[..k]);
      SumOfXor(terms, a[..k], b[..k], p, q);
    }
  }

  lemma {:induction false} SumOfZeros(terms: set<nat>, a: Bits, bit: bool)
    requires forall i :: 0 <= i < |a| ==> !a[i]
    ensures Sum(terms, a, bit) == bit
    decreases |a|
  {
    if a != [] {
      SumOfZeros(terms, a[..|a| - 1], bit);
    }
  }

  lemma {:induction false} SumOfUnit(terms: set<nat>, a: Bits, bit: bool, p: nat)
    requires p < |a| && forall i :: 0 <= i < |a| ==> (a[i] <==> i == p)
    ensures Sum(terms, a, bit) == (bit != (p in terms))
    decreases |a|
  {
    var k := |a| - 1;
    if p < k {
      SumOfUnit(terms, a[..k], bit, p);
    } else {
      SumOfZeros(terms, a[..k], bit);
    }
  }
}
