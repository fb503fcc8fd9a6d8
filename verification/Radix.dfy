/** Numbers as digit lists in any base, and conversion between bases in a fixed buffer. */
module Radix {
  import opened Powers

  function Pow(b: nat, e: nat): nat {
    if e == 0 then 1 else b * Pow(b, e - 1)
  }

  lemma {:induction false} PowSum(b: nat, d: nat, e: nat)
    ensures Pow(b, d + e) == Pow(b, d) * Pow(b, e)
  {
    if d > 0 {
      PowSum(b, d - 1, e);
      assert Pow(b, d + e) == b * Pow(b, (d - 1) + e);
      Assoc(b, Pow(b, d - 1), Pow(b, e));
    }
  }

  lemma Assoc(a: int, b: int, c: int)
    ensures a * (b * c) == (a * b) * c
  {
  }

  lemma {:induction false} PowPow(b: nat, d: nat, e: nat)
    ensures Pow(Pow(b, d), e) == Pow(b, d * e)
    decreases e
  {
    if e > 0 {
      PowPow(b, d, e - 1);
      assert d * e == d + d * (e - 1);
      PowSum(b, d, d * (e - 1));
    } else {
      assert d * e == 0;
    }
  }

  lemma {:induction false} PowPositive(b: nat, e: nat)
    requires b > 0
    ensures Pow(b, e) > 0
  {
    if e > 0 {
      PowPositive(b, e - 1);
    }
  }

  lemma Times(a: nat, b: nat, c: nat, d: nat)
    requires a <= b && c <= d
    ensures a * c <= b * d
  {
    assert a * c <= b * c by { assert (b - a) * c >= 0; }
    assert b * c <= b * d by { assert b * (d - c) >= 0; }
  }

  lemma {:induction false} PowBaseGrows(a: nat, b: nat, e: nat)
    requires a <= b
    ensures Pow(a, e) <= Pow(b, e)
  {
    if e > 0 {
      PowBaseGrows(a, b, e - 1);
      Times(a, b, Pow(a, e - 1), Pow(b, e - 1));
    }
  }

  lemma {:induction false} PowStrict(a: nat, b: nat, e: nat)
    requires a < b && e > 0
    ensures Pow(a, e) < Pow(b, e)
    decreases e
  {
    if e > 1 {
      PowStrict(a, b, e - 1);
      Times(a, b, Pow(a, e - 1), Pow(b, e - 1) - 1);
    } else {
      assert Pow(a, 0) == 1 && Pow(b, 0) == 1;
    }
  }

  lemma {:induction false} PowGrows(b: nat, d: nat, e: nat)
    requires b > 0 && d <= e
    ensures Pow(b, d) <= Pow(b, e)
    decreases e
  {
    if d < e {
      PowGrows(b, d, e - 1);
      PowPositive(b, e - 1);
      Times(1, b, Pow(b, e - 1), Pow(b, e - 1));
    }
  }

  /** A comparison of two powers carries over to every pair of exponents in a ratio it covers. */
  lemma Ratio(x: nat, y: nat, p: nat, q: nat, n: nat, m: nat)
    requires x > 0 && y > 0 && p > 0 && Pow(x, p) <= Pow(y, q) && q * n <= p * m
    ensures Pow(x, n) <= Pow(y, m)
  {
    hide Pow;
    PowPow(x, n, p);
    PowPow(x, p, n);
    Commutes(n, p);
    PowBaseGrows(Pow(x, p), Pow(y, q), n);
    PowPow(y, q, n);
    PowGrows(y, q * n, p * m);
    PowPow(y, m, p);
    Commutes(m, p);
    Root(Pow(x, n), Pow(y, m), p);
  }

  lemma Commutes(a: int, b: int)
    ensures a * b == b * a
  {
  }

  lemma Root(a: nat, b: nat, p: nat)
    requires p > 0 && Pow(a, p) <= Pow(b, p)
    ensures a <= b
  {
    if a > b {
      PowStrict(b, a, p);
    }
  }

  /** 138 / 100 base-58 digits for a byte are enough. */
  lemma BytesFit(n: nat)
    ensures Pow(256, n) <= Pow(58, n * 138 / 100 + 1)
  {
    hide Pow;
    SmallPowers();
    Ratio(256, 58, 8, 11, n, n * 138 / 100 + 1);
  }

  /** 733 / 1000 bytes for a base-58 digit are enough. */
  lemma DigitsFit(n: nat)
    ensures Pow(58, n) <= Pow(256, n * 733 / 1000 + 1)
  {
    hide Pow;
    LargePowers();
    Ratio(58, 256, 71, 52, n, n * 733 / 1000 + 1);
  }

  lemma SmallPowers()
    ensures Pow(256, 8) <= Pow(58, 11)
  {
    assert Pow(256, 4) == 4294967296;
    PowSum(256, 4, 4);
    assert Pow(58, 5) == 656356768;
    assert Pow(58, 6) == 38068692544;
    PowSum(58, 5, 6);
  }

  lemma LargePowers()
    ensures Pow(58, 71) <= Pow(256, 52)
  {
    hide Pow;
    SomePowers();
    PowSum(58, 8, 8);
    PowSum(58, 16, 16);
    PowSum(58, 32, 32);
    PowSum(58, 64, 7);
    PowSum(256, 13, 13);
    PowSum(256, 26, 26);
    assert Pow(58, 16) == 16400152899115243850138976256;
    assert Pow(58, 32) == 268965015114358137726910587140455987105619365599731777536;
    assert Pow(58, 64) == 72342179355466901471258927612150153907721848234316445933056526044582001260898145151856420451025374266490194231296;
    assert Pow(58, 71) == 159730386663078066345306447337161584696769904898410078913243029577507397293846405390982563136983769384625594118558891106107392;
    assert Pow(256, 26) == 411376139330301510538742295639337626245683966408394965837152256;
    assert Pow(256, 52) == 169230328010303641331690318856389386196071598838855992136870091590247882556495704531248437872567112920983350278405979725889536;
  }

  lemma SomePowers()
    ensures Pow(58, 7) == 2207984167552 && Pow(58, 8) == 128063081718016 &&
            Pow(256, 13) == 20282409603651670423947251286016
  {
  }

  // ---- digit lists ----

  predicate DigitsOf(s: seq<nat>, base: nat) {
    forall i | 0 <= i < |s| :: s[i] < base
  }

  /** Most significant digit first. */
  function Number(s: seq<nat>, base: nat): nat {
    if s == [] then 0 else Number(s[..|s| - 1], base) * base + s[|s| - 1]
  }

  /** The digits of a number without leading zeros. */
  function Digits(v: nat, base: nat): (r: seq<nat>)
    requires base >= 2
    ensures DigitsOf(r, base) && (r != [] ==> r[0] != 0)
    decreases v
  {
    if v == 0 then [] else Digits(Shorter(v, base), base) + [v % base]
  }

  function Shorter(v: nat, base: nat): (r: nat)
    requires base >= 2
    ensures r == v / base && (v > 0 ==> r < v)
  {
    ShorterIs(v, base);
    v / base
  }

  lemma ShorterIs(v: nat, base: nat)
    requires base >= 2
    ensures 0 <= v / base <= v && (v > 0 ==> v / base < v)
  {
    var q := v / base;
    assert v == q * base + v % base;
    if q >= 0 {
      MulLe(2, base, q);
    }
  }

  lemma {:induction false} NumberOfDigits(v: nat, base: nat)
    requires base >= 2
    ensures Number(Digits(v, base), base) == v
    decreases v
  {
    hide Number;
    if v == 0 {
      NumberOfNone(base);
    } else {
      var q := Shorter(v, base);
      NumberOfDigits(q, base);
      NumberAppend(Digits(q, base), v % base, base);
      ShorterBase(v, base);
    }
  }

  lemma NumberOfNone(base: nat)
    ensures Number([], base) == 0
  {
  }

  lemma NumberAppend(s: seq<nat>, d: nat, base: nat)
    ensures Number(s + [d], base) == Number(s, base) * base + d
  {
    assert (s + [d])[..|s|] == s;
  }

  /** A list without a leading zero is determined by its number. */
  lemma {:induction false} DigitsOfNumber(s: seq<nat>, base: nat)
    requires base >= 2 && DigitsOf(s, base) && (s != [] ==> s[0] != 0)
    ensures Digits(Number(s, base), base) == s && (s != [] ==> Number(s, base) > 0)
    decreases |s|
  {
    if s != [] {
      var n := |s| - 1;
      DigitsOfNumber(s[..n], base);
      LastDigit(Number(s[..n], base), s[n], base);
      AppendDigit(Number(s[..n], base), s[n], base);
      assert s == s[..n] + [s[n]];
    }
  }

  lemma AppendDigit(v: nat, d: nat, base: nat)
    requires base >= 2 && d < base && v * base + d > 0
    ensures Digits(v * base + d, base) == Digits(v, base) + [d]
  {
    LastDigit(v, d, base);
  }

  lemma LastDigit(v: nat, d: nat, base: nat)
    requires d < base
    ensures (v * base + d) / base == v && (v * base + d) % base == d && (v > 0 ==> v * base > 0)
  {
    assert (v + 1) * base == v * base + base;
    QuotientIs(v * base + d, base, v);
    if v > 0 {
      MulLe(1, v, base);
    }
  }

  lemma {:induction false} NumberBound(s: seq<nat>, base: nat)
    requires base > 0 && DigitsOf(s, base)
    ensures Number(s, base) < Pow(base, |s|)
  {
    if s != [] {
      var n := |s| - 1;
      NumberBound(s[..n], base);
      Times(Number(s[..n], base) + 1, Pow(base, n), base, base);
      assert (Number(s[..n], base) + 1) * base == Number(s[..n], base) * base + base;
    }
  }

  // ---- a buffer, least significant digit first ----

  function Value(buf: seq<nat>, base: nat): nat {
    if buf == [] then 0 else Value(buf[..|buf| - 1], base) + buf[|buf| - 1] * Pow(base, |buf| - 1)
  }

  lemma ValueNext(buf: seq<nat>, base: nat, i: nat)
    requires i < |buf|
    ensures Value(buf[..i + 1], base) == Value(buf[..i], base) + buf[i] * Pow(base, i)
  {
    assert buf[..i + 1][..i] == buf[..i];
  }

  lemma {:induction false} ZerosAbove(buf: seq<nat>, base: nat, n: nat)
    requires n <= |buf| && forall j | n <= j < |buf| :: buf[j] == 0
    ensures Value(buf, base) == Value(buf[..n], base)
    decreases |buf|
  {
    if n == |buf| {
      assert buf[..n] == buf;
    } else {
      ZerosAbove(buf[..|buf| - 1], base, n);
      assert buf[..|buf| - 1][..n] == buf[..n];
    }
  }

  lemma CarryStep(low: seq<nat>, base: nat, factor: nat, d: nat, carry: nat, was: nat, x: nat, i: nat)
    requires base > 0 && i == |low| && Value(low, base) + carry * Pow(base, i) == was * factor + d
    ensures var c := carry + factor * x;
            c % base >= 0 && c / base >= 0 &&
            Value(low + [c % base], base) + (c / base) * Pow(base, i + 1) == (was + x * Pow(base, i)) * factor + d
  {
    hide Pow;
    var c, p := carry + factor * x, Pow(base, i);
    assert (low + [c % base])[..i] == low;
    ShorterBase(c, base);
    PowNext(base, i);
    CarryProduct(c, c % base, c / base, base, p, carry, factor, x, was);
  }

  lemma PowNext(base: nat, i: nat)
    ensures Pow(base, i + 1) == base * Pow(base, i)
  {
  }

  lemma ShorterBase(c: nat, base: nat)
    requires base > 0
    ensures c / base >= 0 && c == (c / base) * base + c % base && 0 <= c % base < base
  {
    assert c == (c / base) * base + c % base;
  }

  lemma CarryProduct(c: int, r: int, q: int, base: int, p: int, carry: int, factor: int, x: int, was: int)
    requires c == q * base + r && c == carry + factor * x
    ensures r * p + q * (base * p) == carry * p + (x * p) * factor &&
            (was + x * p) * factor == was * factor + (x * p) * factor
  {
    assert q * (base * p) == (q * base) * p;
    assert (q * base + r) * p == (q * base) * p + r * p;
    assert (factor * x) * p == (x * p) * factor;
    assert (carry + factor * x) * p == carry * p + (factor * x) * p;
  }

  /** A value plus whole multiples of the buffer's range that is within the range has no multiple. */
  lemma NoCarryLeft(v: nat, carry: nat, range: nat, total: nat)
    requires v + carry * range == total && total < range
    ensures carry == 0
  {
    if carry > 0 {
      Times(1, carry, range, range);
    }
  }

  /** Nothing but zeros from `length` up. */
  ghost predicate Clear(buf: seq<nat>, length: nat) {
    length <= |buf| && forall j | length <= j < |buf| :: buf[j] == 0
  }

  /** Multiplies the buffer by a factor and adds a digit; no carry is left when the result fits the buffer. */
  method MultiplyAdd(buf: seq<nat>, base: nat, factor: nat, d: nat, length: nat) returns (buf': seq<nat>, length': nat)
    requires base > 0 && DigitsOf(buf, base) && Clear(buf, length) && Value(buf, base) * factor + d < Pow(base, |buf|)
    ensures |buf'| == |buf| && DigitsOf(buf', base) && Clear(buf', length')
    ensures Value(buf', base) == Value(buf, base) * factor + d
  {
    hide Value, Pow;
    buf' := buf;
    var carry, i := d, 0;
    StartCarry(buf, base, factor, d);
    while (carry != 0 || i < length) && i < |buf'|
      invariant 0 <= i <= |buf| == |buf'| && carry >= 0 && DigitsOf(buf', base) && buf'[i..] == buf[i..]
      invariant Value(buf'[..i], base) + carry * Pow(base, i) == Value(buf[..i], base) * factor + d
    {
      assert buf'[i] == buf'[i..][0] == buf[i..][0] == buf[i];
      ghost var low := buf'[..i];
      CarryStep(low, base, factor, d, carry, Value(buf[..i], base), buf[i], i);
      ValueNext(buf, base, i);
      carry := carry + factor * buf'[i];
      ShorterBase(carry, base);
      buf' := buf'[i := carry % base];
      assert buf'[..i + 1] == low + [carry % base];
      carry := carry / base;
      i := i + 1;
    }
    EndCarry(buf, buf', base, factor, d, carry, i, length);
    assert carry == 0;
    length' := i;
  }

  lemma StartCarry(buf: seq<nat>, base: nat, factor: nat, d: nat)
    ensures Value(buf[..0], base) + d * Pow(base, 0) == Value(buf[..0], base) * factor + d
  {
  }

  lemma EndCarry(buf: seq<nat>, buf': seq<nat>, base: nat, factor: nat, d: nat, carry: nat, i: nat, length: nat)
    requires base > 0 && i <= |buf| == |buf'| && buf'[i..] == buf[i..] && Clear(buf, length)
    requires Value(buf'[..i], base) + carry * Pow(base, i) == Value(buf[..i], base) * factor + d
    requires i == |buf| || (carry == 0 && i >= length)
    requires Value(buf, base) * factor + d < Pow(base, |buf|)
    ensures carry == 0 && Clear(buf', i) && Value(buf', base) == Value(buf, base) * factor + d
  {
    hide Value, Pow;
    if i == |buf| {
      assert buf[..i] == buf && buf'[..i] == buf';
      NoCarryLeft(Value(buf', base), carry, Pow(base, i), Value(buf, base) * factor + d);
    } else {
      StillClear(buf, buf', length, i);
      ZerosAbove(buf, base, i);
      ZerosAbove(buf', base, i);
      assert carry * Pow(base, i) == 0;
    }
  }

  lemma StillClear(buf: seq<nat>, buf': seq<nat>, length: nat, i: nat)
    requires length <= i <= |buf| == |buf'| && buf'[i..] == buf[i..] && Clear(buf, length)
    ensures Clear(buf', i)
  {
    forall j | i <= j < |buf| ensures buf'[j] == 0
    {
      assert buf'[j] == buf'[i..][j - i] == buf[i..][j - i] == buf[j];
    }
  }

  // ---- reading the digits off the buffer ----

  function Reversed(s: seq<nat>): (r: seq<nat>)
    ensures |r| == |s| && forall i | 0 <= i < |r| :: r[i] == s[|s| - 1 - i]
  {
    seq(|s|, i requires 0 <= i < |s| => s[|s| - 1 - i])
  }

  lemma {:induction false} NumberOfReversed(buf: seq<nat>, base: nat)
    ensures Number(Reversed(buf), base) == Value(buf, base)
    decreases |buf|
  {
    if buf != [] {
      FirstDigit(buf, base);
      NumberOfReversed(buf[1..], base);
      assert Reversed(buf)[..|buf| - 1] == Reversed(buf[1..]);
    }
  }

  lemma {:induction false} FirstDigit(buf: seq<nat>, base: nat)
    requires buf != []
    ensures Value(buf, base) == Value(buf[1..], base) * base + buf[0]
    decreases |buf|
  {
    var n := |buf| - 1;
    if n == 0 {
      assert buf[..0] == [] && buf[1..] == [];
    } else {
      hide Pow;
      FirstDigit(buf[..n], base);
      assert buf[..n][1..] == buf[1..][..n - 1];
      PowNext(base, n - 1);
      Spread(Value(buf[..n][1..], base), buf[n], Pow(base, n - 1), base);
    }
  }

  lemma Spread(v: int, x: int, p: int, base: int)
    ensures (v + x * p) * base == v * base + x * (base * p)
  {
    assert (x * p) * base == x * (base * p);
  }

  /** Skips the leading zeros of what the buffer holds: its digits, most significant first. */
  method ReadOff(buf: seq<nat>, base: nat, length: nat) returns (r: seq<nat>)
    requires base >= 2 && DigitsOf(buf, base) && Clear(buf, length)
    ensures r == Digits(Value(buf, base), base)
  {
    hide Value;
    var n := length;
    while n > 0 && buf[n - 1] == 0
      invariant 0 <= n <= length && Clear(buf, n)
    {
      n := n - 1;
    }
    r := Reversed(buf[..n]);
    ZerosAbove(buf, base, n);
    NumberOfReversed(buf[..n], base);
    DigitsOfNumber(r, base);
  }
}
