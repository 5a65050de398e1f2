/** Binary digits of machine words, and the NEXT_POW_2 macro of
    storage/FoilHashTable.cpp. */
module Bits {

  function Pow2(n: nat): (r: nat)
    ensures r > 0
  {
    if n == 0 then 1 else 2 * Pow2(n - 1)
  }

  predicate Bit(x: nat, j: nat) {
    if j == 0 then x % 2 == 1 else Bit(x / 2, j - 1)
  }

  /** x | y */
  function Or(x: nat, y: nat): (r: nat) {
    if x == 0 && y == 0 then 0
    else 2 * Or(x / 2, y / 2) + (if x % 2 == 1 || y % 2 == 1 then 1 else 0)
  }

  /** x >> k */
  function Shr(x: nat, k: nat): (r: nat) {
    if k == 0 then x else Shr(x / 2, k - 1)
  }

  /** Number of binary digits. */
  function Len(x: nat): (n: nat) {
    if x == 0 then 0 else 1 + Len(x / 2)
  }

  lemma {:induction false} BitOfOr(x: nat, y: nat, j: nat)
    ensures Bit(Or(x, y), j) <==> Bit(x, j) || Bit(y, j)
    decreases j
  {
    if x == 0 && y == 0 {
      NoBits(j);
    } else if j > 0 {
      BitOfOr(x / 2, y / 2, j - 1);
    }
  }

  lemma {:induction false} NoBits(j: nat)
    ensures !Bit(0, j)
  {
    if j > 0 { NoBits(j - 1); }
  }

  lemma {:induction false} BitOfShr(x: nat, k: nat, j: nat)
    ensures Bit(Shr(x, k), j) <==> Bit(x, j + k)
    decreases k
  {
    if k > 0 {
      BitOfShr(x / 2, k - 1, j);
    }
  }

  lemma {:induction false} LenBounds(x: nat)
    ensures x < Pow2(Len(x))
    ensures x > 0 ==> Pow2(Len(x) - 1) <= x && Bit(x, Len(x) - 1)
    ensures forall j | j >= Len(x) :: !Bit(x, j)
  {
    if x == 0 {
      forall j | j >= 0 ensures !Bit(0, j) { NoBits(j); }
    } else {
      LenBounds(x / 2);
    }
  }

  lemma {:induction false} LenAtMost(x: nat, k: nat)
    requires x < Pow2(k)
    ensures Len(x) <= k
  {
    if x > 0 { LenAtMost(x / 2, k - 1); }
  }

  lemma {:induction false} AllOnes(x: nat, k: nat)
    requires forall j: nat :: Bit(x, j) <==> j < k
    ensures x == Pow2(k) - 1
    decreases k
  {
    if k == 0 {
      if x > 0 { LenBounds(x); }
    } else {
      assert Bit(x, 0);
      forall j: nat
        ensures Bit(x / 2, j) <==> j < k - 1
      {
        assert Bit(x, j + 1) <==> j + 1 < k;
      }
      AllOnes(x / 2, k - 1);
    }
  }

  /** Some digit of v at positions j .. j + w - 1 is set. */
  ghost predicate Window(v: nat, j: nat, w: nat) {
    exists i :: j <= i < j + w && Bit(v, i)
  }

  /** V |= V >> w doubles the window that each digit sees. */
  lemma SmearStep(v: nat, u: nat, w: nat)
    requires forall j: nat :: Bit(u, j) <==> Window(v, j, w)
    ensures forall j: nat :: Bit(Or(u, Shr(u, w)), j) <==> Window(v, j, 2 * w)
  {
    forall j: nat
      ensures Bit(Or(u, Shr(u, w)), j) <==> Window(v, j, 2 * w)
    {
      BitOfOr(u, Shr(u, w), j);
      BitOfShr(u, w, j);
      assert Window(v, j, 2 * w) <==> Window(v, j, w) || Window(v, j + w, w);
    }
  }

  /** The least power of two that is at least v. */
  ghost predicate IsLeastPow2(r: nat, v: nat) {
    exists k :: 0 <= k && IsLeastPow2Exp(r, v, k)
  }

  ghost predicate IsLeastPow2Exp(r: nat, v: nat, k: nat) {
    r == Pow2(k) && v <= r && (k > 0 ==> Pow2(k - 1) < v)
  }

  /** The macro overflows a 32-bit int beyond 2^30. */
  method NextPow2(size: nat) returns (v: nat)
    requires 0 < size <= Pow2(30)
    ensures IsLeastPow2(v, size)
  {
    v := size - 1;
    ghost var v0: nat := v;
    forall j: nat
      ensures Bit(v, j) <==> Window(v0, j, 1)
    {
    }
    SmearStep(v0, v, 1);
    v := Or(v, Shr(v, 1));
    SmearStep(v0, v, 2);
    v := Or(v, Shr(v, 2));
    SmearStep(v0, v, 4);
    v := Or(v, Shr(v, 4));
    SmearStep(v0, v, 8);
    v := Or(v, Shr(v, 8));
    SmearStep(v0, v, 16);
    v := Or(v, Shr(v, 16));
    Smeared(v0, v);
    v := v + 1;
    LenBounds(v0);
    assert IsLeastPow2Exp(v, size, Len(v0));
  }

  lemma Smeared(v0: nat, v: nat)
    requires v0 < Pow2(30)
    requires forall j: nat :: Bit(v, j) <==> Window(v0, j, 32)
    ensures v == Pow2(Len(v0)) - 1
  {
    var m := Len(v0);
    LenBounds(v0);
    LenAtMost(v0, 30);
    forall j: nat
      ensures Bit(v, j) <==> j < m
    {
      if j < m {
        assert Bit(v0, m - 1);
      }
    }
    AllOnes(v, m);
  }

  // ---------------------------------------------------------------------
  // Masks and shifts as remainders and quotients
  // ---------------------------------------------------------------------

  lemma RemainderIs(x: nat, m: nat, q: nat, r: nat)
    requires r < m && x == q * m + r
    ensures x % m == r && x / m == q
  {
    assert x == (x / m) * m + x % m;
    MultiplesApart(q, x / m, m);
    MultiplesApart(x / m, q, m);
  }

  lemma MultiplesApart(a: nat, b: nat, m: nat)
    ensures a < b ==> b * m >= a * m + m
  {
    if a < b {
      var c := b - a - 1;
      assert c * m >= 0 && (a + 1 + c) * m == a * m + m + c * m;
    }
  }

  /** Halving a remainder of a power of two. */
  lemma HalfOfRemainder(x: nat, n: nat)
    ensures x % Pow2(n + 1) == 2 * (x / 2 % Pow2(n)) + x % 2
  {
    var m, h := Pow2(n), x / 2;
    assert h == (h / m) * m + h % m;
    assert x == (h / m) * (2 * m) + (2 * (h % m) + x % 2);
    RemainderIs(x, 2 * m, h / m, 2 * (h % m) + x % 2);
  }

  lemma FirstBit(x: nat, j: nat)
    ensures Bit(x, j) <==> if j == 0 then x % 2 == 1 else Bit(x / 2, j - 1)
  {
  }

  /** x & (2^n - 1) keeps the low n digits. */
  lemma {:induction false} BitOfRemainder(x: nat, n: nat, j: nat)
    ensures Bit(x % Pow2(n), j) <==> j < n && Bit(x, j)
    decreases n
  {
    if n == 0 {
      assert x % 1 == 0;
      NoBits(j);
    } else {
      HalfOfRemainder(x, n - 1);
      var y, half := x % Pow2(n), x / 2 % Pow2(n - 1);
      hide Pow2, Bit;
      assert y / 2 == half && y % 2 == x % 2;
      FirstBit(x, j);
      FirstBit(y, j);
      if j > 0 {
        BitOfRemainder(x / 2, n - 1, j - 1);
      }
    }
  }

  lemma HalfTheQuotient(x: nat, m: nat)
    requires m > 0
    ensures x / (2 * m) == x / 2 / m
  {
    var h := x / 2;
    assert h == (h / m) * m + h % m;
    assert x == (h / m) * (2 * m) + (2 * (h % m) + x % 2);
    RemainderIs(x, 2 * m, h / m, 2 * (h % m) + x % 2);
  }

  /** x / 2^k moves the digits down by k. */
  lemma {:induction false} QuotientIsShr(x: nat, k: nat)
    ensures x / Pow2(k) == Shr(x, k)
    decreases k
  {
    if k > 0 {
      QuotientIsShr(x / 2, k - 1);
      HalfTheQuotient(x, Pow2(k - 1));
    }
  }

  /** The j-th binary digit, from the least significant one on, is a one. */
  predicate Digit(x: nat, j: nat) {
    x / Pow2(j) % 2 == 1
  }

  /** Numbers below n, a power of two, have a digit at position j. */
  predicate HasDigit(n: nat, j: nat) {
    Pow2(j) < n
  }

  lemma DigitIsBit(x: nat, j: nat)
    ensures Digit(x, j) <==> Bit(x, j)
  {
    QuotientIsShr(x, j);
    BitOfShr(x, j, 0);
  }

  lemma {:induction false} SameDigits(x: nat, y: nat, n: nat)
    requires x < Pow2(n) && y < Pow2(n) && forall j: nat | j < n :: Bit(x, j) <==> Bit(y, j)
    ensures x == y
    decreases n
  {
    if n > 0 {
      assert Bit(x, 0) <==> Bit(y, 0);
      forall j: nat | j < n - 1
        ensures Bit(x / 2, j) <==> Bit(y / 2, j)
      {
        assert Bit(x, j + 1) <==> Bit(y, j + 1);
      }
      SameDigits(x / 2, y / 2, n - 1);
    }
  }

  /** A number of n digits is the remainder of x if and only if it has x's low digits. */
  lemma RemainderByDigits(x: nat, n: nat, p: nat)
    requires p < Pow2(n)
    ensures x % Pow2(n) == p <==> forall j: nat | j < n :: Digit(p, j) <==> Digit(x, j)
  {
    var r := x % Pow2(n);
    assert r < Pow2(n);
    forall j: nat | j < n
      ensures Digit(r, j) <==> Digit(x, j)
    {
      BitOfRemainder(x, n, j);
      DigitIsBit(r, j);
      DigitIsBit(x, j);
    }
    if forall j: nat | j < n :: Digit(p, j) <==> Digit(x, j) {
      hide Digit;
      forall j: nat | j < n
        ensures Bit(r, j) <==> Bit(p, j)
      {
        DigitIsBit(r, j);
        DigitIsBit(p, j);
      }
      SameDigits(r, p, n);
    }
  }

  /** A number of n digits is a remainder of a quotient of x if and only if x has
      its digits from position k on. */
  lemma QuotientByDigits(x: nat, k: nat, n: nat, p: nat)
    requires p < Pow2(n)
    ensures x / Pow2(k) % Pow2(n) == p <==> forall j: nat | j < n :: Digit(p, j) <==> Digit(x, k + j)
  {
    var y := Shr(x, k);
    QuotientIsShr(x, k);
    RemainderByDigits(y, n, p);
    hide Shr, Pow2, Digit;
    forall j: nat
      ensures Digit(y, j) <==> Digit(x, k + j)
    {
      BitOfShr(x, k, j);
      DigitIsBit(y, j);
      DigitIsBit(x, k + j);
    }
  }

  lemma {:induction false} PowersGrow(j: nat, k: nat)
    ensures j < k <==> Pow2(j) < Pow2(k)
  {
    if j > 0 && k > 0 {
      PowersGrow(j - 1, k - 1);
    }
  }
}
