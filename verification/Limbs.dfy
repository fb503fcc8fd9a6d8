/** Little-endian numbers in base 2^32, and bitwise "or" on them. */
module Limbs {
  import opened Powers

  const BASE := 0x1_0000_0000

  type Limb = x: int | 0 <= x < BASE

  function BasePow(n: nat): (r: nat)
    ensures r >= 1
  {
    if n == 0 then 1 else BASE * BasePow(n - 1)
  }

  function Value(s: seq<Limb>): nat {
    if s == [] then 0 else Value(s[..|s| - 1]) + s[|s| - 1] * BasePow(|s| - 1)
  }

  lemma Pow32()
    ensures Pow2(8) == 256 && Pow2(16) == 0x1_0000 && Pow2(24) == 0x100_0000 && Pow2(32) == BASE
  {
    assert Pow2(4) == 16;
    Pow2Sum(4, 4);
    Pow2Sum(8, 8);
    Pow2Sum(16, 8);
    Pow2Sum(16, 16);
  }

  lemma {:induction false} BasePowIs(n: nat)
    ensures BasePow(n) == Pow2(32 * n)
  {
    if n > 0 {
      BasePowIs(n - 1);
      var m := 32 * (n - 1);
      Pow2Sum(32, m);
      Pow32();
    }
  }

  lemma {:induction false} BasePowSum(a: nat, b: nat)
    ensures BasePow(a + b) == BasePow(a) * BasePow(b)
  {
    if a > 0 {
      BasePowSum(a - 1, b);
      assert BasePow(a + b) == BASE * BasePow((a - 1) + b);
      MulAssoc(BASE, BasePow(a - 1), BasePow(b));
    }
  }

  lemma {:induction false} ValueBound(s: seq<Limb>)
    ensures Value(s) < BasePow(|s|)
  {
    if s != [] {
      var n := |s| - 1;
      ValueBound(s[..n]);
      MulLe(s[n], BASE - 1, BasePow(n));
      assert (BASE - 1) * BasePow(n) == BasePow(n + 1) - BasePow(n);
    }
  }

  lemma ValueNext(s: seq<Limb>, i: nat)
    requires i < |s|
    ensures Value(s[..i + 1]) == Value(s[..i]) + s[i] * BasePow(i)
  {
    assert s[..i + 1][..i] == s[..i];
  }

  lemma {:induction false} ValueUpdate(s: seq<Limb>, i: nat, y: Limb)
    requires i < |s|
    ensures Value(s[i := y]) == Value(s) + (y - s[i]) * BasePow(i)
  {
    var n, u := |s| - 1, s[i := y];
    if i == n {
      assert u[..n] == s[..n];
      assert y * BasePow(n) - s[n] * BasePow(n) == (y - s[n]) * BasePow(n);
    } else {
      ValueUpdate(s[..n], i, y);
      assert u[..n] == s[..n][i := y];
    }
  }

  /** The low limbs are the number up to a multiple of their base. */
  lemma {:induction false} LowLimbs(s: seq<Limb>, i: nat) returns (q: nat)
    requires i <= |s|
    ensures Value(s) == Value(s[..i]) + q * BasePow(i)
    decreases |s|
  {
    if i == |s| {
      assert s[..i] == s;
      q := 0;
    } else {
      var n := |s| - 1;
      var r := LowLimbs(s[..n], i);
      assert s[..n][..i] == s[..i];
      BasePowSum(n - i, i);
      q := r + s[n] * BasePow(n - i);
      TwoTerms(r, s[n], BasePow(n - i), BasePow(i));
    }
  }

  lemma TwoTerms(r: int, x: int, a: int, b: int)
    ensures (r + x * a) * b == r * b + x * (a * b)
  {
    MulAssoc(x, a, b);
  }

  lemma {:induction false} ZeroValue(s: seq<Limb>)
    ensures Value(s) == 0 <==> forall i | 0 <= i < |s| :: s[i] == 0
  {
    if s != [] {
      var n := |s| - 1;
      ZeroValue(s[..n]);
      if s[n] > 0 {
        MulLe(1, s[n], BasePow(n));
        assert s[n] != 0;
      } else {
        assert Value(s) == Value(s[..n]);
        assert forall i | 0 <= i < n :: s[i] == s[..n][i];
      }
    }
  }

  // ---- bitwise or ----

  function Or(x: nat, y: nat): nat {
    if x == 0 && y == 0 then 0
    else (if x % 2 == 1 || y % 2 == 1 then 1 else 0) + 2 * Or(x / 2, y / 2)
  }

  lemma {:induction false} OrZero(y: nat)
    ensures Or(0, y) == y && Or(y, 0) == y
  {
    if y > 0 {
      OrZero(y / 2);
    }
  }

  /** Numbers without a common bit: "or" is addition. */
  lemma {:induction false} OrDisjoint(x: nat, y: nat, s: nat)
    requires x < Pow2(s) && y % Pow2(s) == 0
    ensures Or(x, y) == x + y && Or(y, x) == x + y
    decreases s
  {
    if s == 0 || x + y == 0 {
      OrZero(y);
    } else {
      HalfMultiple(y, s);
      OrDisjoint(x / 2, y / 2, s - 1);
    }
  }

  lemma HalfMultiple(y: nat, s: nat)
    requires s > 0 && y % Pow2(s) == 0
    ensures y % 2 == 0 && (y / 2) % Pow2(s - 1) == 0
  {
    var m, q := Pow2(s - 1), y / Pow2(s);
    assert y == q * (2 * m) == 2 * (q * m);
    QuotientIs(q * m, m, q);
  }
}
