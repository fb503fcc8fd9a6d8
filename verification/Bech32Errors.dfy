/** Any three wrong symbols within 1023 positions change the Bech32 remainder: the generator has three consecutive
    roots. */
module Bech32Errors {
  import opened Bech32Code
  import opened Bech32Field

  // ---- the value of a polynomial at a root ----

  /** The polynomial whose coefficients are the symbols, at the field element that `m` multiplies by. */
  function Value(m: Mat, d: Symbols): bv32 {
    if d == [] then 0 else Xor(Ap(m, Value(m, d[..|d| - 1])), d[|d| - 1])
  }

  lemma {:induction false} ValueLinear(m: Mat, v: Symbols, w: Symbols)
    requires |v| == |w|
    ensures Value(m, XorAll(v, w)) == Xor(Value(m, v), Value(m, w))
    decreases |v|
  {
    hide Ap, Xor;
    if v == [] {
      XorSelf(0);
    } else {
      var n := |v| - 1;
      ValueLinear(m, v[..n], w[..n]);
      assert XorAll(v, w)[..n] == XorAll(v[..n], w[..n]);
      ApLinear(m, Value(m, v[..n]), Value(m, w[..n]));
      XorPairs(Ap(m, Value(m, v[..n])), Ap(m, Value(m, w[..n])), v[n], w[n]);
    }
  }

  lemma ValueNext(m: Mat, d: Symbols, s: bv32)
    ensures Value(m, d + [s]) == Xor(Ap(m, Value(m, d)), s)
  {
    hide Ap, Xor;
    assert (d + [s])[..|d|] == d;
  }

  lemma {:induction false} ValueLeadingZero(m: Mat, d: Symbols)
    ensures Value(m, [0] + d) == Value(m, d)
    decreases |d|
  {
    hide Ap, Xor;
    if d == [] {
      assert [0] + d == [] + [0];
      ValueNext(m, [], 0);
      ApZero(m);
      XorSelf(0);
    } else {
      var n := |d| - 1;
      ValueLeadingZero(m, d[..n]);
      assert [0] + d == ([0] + d[..n]) + [d[n]] && d == d[..n] + [d[n]];
      ValueNext(m, [0] + d[..n], d[n]);
    }
  }

  // ---- one step of the remainder ----

  function Digit0(m: bv32): bv32 {
    (m >> 25) & 31
  }

  function Digit1(m: bv32): bv32 {
    (m >> 20) & 31
  }

  function Digit2(m: bv32): bv32 {
    (m >> 15) & 31
  }

  function Digit3(m: bv32): bv32 {
    (m >> 10) & 31
  }

  function Digit4(m: bv32): bv32 {
    (m >> 5) & 31
  }

  function Digit5(m: bv32): bv32 {
    m & 31
  }

  lemma GroupIs(m: bv32)
    ensures Group(m, 0) == Digit0(m) && Group(m, 1) == Digit1(m) && Group(m, 2) == Digit2(m)
    ensures Group(m, 3) == Digit3(m) && Group(m, 4) == Digit4(m) && Group(m, 5) == Digit5(m)
  {
  }

  lemma Digit0Linear(a: bv32, b: bv32)
    ensures Digit0(Xor(a, b)) == Xor(Digit0(a), Digit0(b))
  {
  }

  lemma Digit1Linear(a: bv32, b: bv32)
    ensures Digit1(Xor(a, b)) == Xor(Digit1(a), Digit1(b))
  {
  }

  lemma Digit2Linear(a: bv32, b: bv32)
    ensures Digit2(Xor(a, b)) == Xor(Digit2(a), Digit2(b))
  {
  }

  lemma Digit3Linear(a: bv32, b: bv32)
    ensures Digit3(Xor(a, b)) == Xor(Digit3(a), Digit3(b))
  {
  }

  lemma Digit4Linear(a: bv32, b: bv32)
    ensures Digit4(Xor(a, b)) == Xor(Digit4(a), Digit4(b))
  {
  }

  lemma Digit5Linear(a: bv32, b: bv32)
    ensures Digit5(Xor(a, b)) == Xor(Digit5(a), Digit5(b))
  {
  }

  lemma GroupLinear(a: bv32, b: bv32, i: nat)
    requires i < 6
    ensures Group(Xor(a, b), i) == Xor(Group(a, i), Group(b, i))
  {
    hide Xor, Group, Digit0, Digit1, Digit2, Digit3, Digit4, Digit5;
    GroupIs(a);
    GroupIs(b);
    GroupIs(Xor(a, b));
    Digit0Linear(a, b);
    Digit1Linear(a, b);
    Digit2Linear(a, b);
    Digit3Linear(a, b);
    Digit4Linear(a, b);
    Digit5Linear(a, b);
    assert i == 0 || i == 1 || i == 2 || i == 3 || i == 4 || i == 5;
  }

  lemma GroupsLinear(a: bv32, b: bv32)
    ensures Groups(Xor(a, b)) == XorAll(Groups(a), Groups(b))
  {
    hide Group, Groups, Xor;
    GroupAt(Xor(a, b), 0);
    GroupAt(a, 0);
    GroupAt(b, 0);
    forall i: nat | i < 6 ensures Groups(Xor(a, b))[i] == Xor(Groups(a)[i], Groups(b)[i])
    {
      GroupAt(Xor(a, b), i);
      GroupAt(a, i);
      GroupAt(b, i);
      GroupLinear(a, b, i);
    }
  }

  lemma Shifted0(c: bv32, s: bv32)
    requires c < 0x4000_0000 && s < 32
    ensures Digit0(Xor(Shifted(c), s)) == Digit1(c)
  {
  }

  lemma Shifted1(c: bv32, s: bv32)
    requires c < 0x4000_0000 && s < 32
    ensures Digit1(Xor(Shifted(c), s)) == Digit2(c)
  {
  }

  lemma Shifted2(c: bv32, s: bv32)
    requires c < 0x4000_0000 && s < 32
    ensures Digit2(Xor(Shifted(c), s)) == Digit3(c)
  {
  }

  lemma Shifted3(c: bv32, s: bv32)
    requires c < 0x4000_0000 && s < 32
    ensures Digit3(Xor(Shifted(c), s)) == Digit4(c)
  {
  }

  lemma Shifted4(c: bv32, s: bv32)
    requires c < 0x4000_0000 && s < 32
    ensures Digit4(Xor(Shifted(c), s)) == Digit5(c)
  {
  }

  lemma Shifted5(c: bv32, s: bv32)
    requires c < 0x4000_0000 && s < 32
    ensures Digit5(Xor(Shifted(c), s)) == s && Leading(c) == Digit0(c) < 32
  {
  }

  lemma GroupShifted(c: bv32, s: bv32, i: nat)
    requires c < 0x4000_0000 && s < 32 && i < 6
    ensures Group(Xor(Shifted(c), s), i) == if i < 5 then Group(c, i + 1) else s
    ensures Leading(c) == Group(c, 0) < 32
  {
    hide Xor, Shifted, Leading, Group, Digit0, Digit1, Digit2, Digit3, Digit4, Digit5;
    GroupIs(c);
    GroupIs(Xor(Shifted(c), s));
    Shifted0(c, s);
    Shifted1(c, s);
    Shifted2(c, s);
    Shifted3(c, s);
    Shifted4(c, s);
    Shifted5(c, s);
    assert i == 0 || i == 1 || i == 2 || i == 3 || i == 4 || i == 5;
  }

  lemma ReduceNothing(r: bv32)
    ensures Reduce(r, 0) == r
  {
  }

  /** The step drops the leading group, appends the symbol, and adds the tail that the dropped group calls for. */
  lemma GroupsStep(c: bv32, s: bv32)
    requires c < 0x4000_0000 && s < 32
    ensures Groups(Step(c, s)) == XorAll(Groups(c)[1..] + [s], Groups(Reduce(0, Group(c, 0))))
  {
    hide Group, Xor, Reduce, Leading, Shifted;
    var r, x := Xor(Shifted(c), s), Leading(c);
    GroupShifted(c, s, 0);
    GroupShifted(c, s, 1);
    GroupShifted(c, s, 2);
    GroupShifted(c, s, 3);
    GroupShifted(c, s, 4);
    GroupShifted(c, s, 5);
    XorSelf(r);
    XorSelf(x);
    ReduceNothing(r);
    ReduceLinear(r, 0, 0, x);
    GroupsLinear(r, Reduce(0, x));
    assert Groups(r) == Groups(c)[1..] + [s];
  }

  /** `m` multiplies by a root of the generator: x^6 and its remainder have the same value. */
  ghost predicate Root(m: Mat) {
    forall x: bv32 | x < 32 :: Balances(m, x)
  }

  ghost predicate Balances(m: Mat, x: bv32) {
    Value(m, Groups(Reduce(0, x))) == Value(m, [x] + Zeros(6))
  }

  lemma ValueStep(m: Mat, c: bv32, s: bv32)
    requires Root(m) && c < 0x4000_0000 && s < 32
    ensures Value(m, Groups(Step(c, s))) == Xor(Ap(m, Value(m, Groups(c))), s)
  {
    hide Group, Xor, Reduce, Ap, Step, Value;
    var x, rest := Group(c, 0), Groups(c)[1..] + [s];
    GroupShifted(c, s, 0);
    assert Balances(m, x);
    GroupsStep(c, s);
    ValueLinear(m, rest, Groups(Reduce(0, x)));
    ValueNext(m, Groups(c), s);
    ValueLeadingZero(m, rest);
    XorSelf(0);
    WithLeading(m, x, rest);
    assert Groups(c) + [s] == [x] + rest;
    XorComm(Value(m, rest), Value(m, [x] + Zeros(6)));
  }

  lemma WithLeading(m: Mat, x: bv32, rest: Symbols)
    requires |rest| == 6
    ensures Value(m, [x] + rest) == Xor(Value(m, [x] + Zeros(6)), Value(m, rest))
  {
    hide Xor, Value;
    var a, b := [x] + Zeros(6), [0] + rest;
    ValueLinear(m, a, b);
    ValueLeadingZero(m, rest);
    XorSelf(x);
    forall i | 0 <= i < 7 ensures XorAll(a, b)[i] == ([x] + rest)[i]
    {
      XorSelf(b[i]);
    }
    assert XorAll(a, b) == [x] + rest;
  }

  /** So the remainder has the value of the whole list. */
  lemma {:induction false} RemainderValue(m: Mat, d: Symbols)
    requires Root(m) && Five(d)
    ensures Value(m, Groups(From(0, d))) == Value(m, d)
    decreases |d|
  {
    hide Step, Root, Groups, Ap, Xor;
    if d == [] {
      ValueOfNothing(m);
    } else {
      var n := |d| - 1;
      RemainderValue(m, d[..n]);
      FromRange(0, d[..n]);
      ValueStep(m, From(0, d[..n]), d[n]);
    }
  }

  lemma NoGroups()
    ensures Groups(0) == Zeros(6)
  {
  }

  lemma {:induction false} ValueOfZeros(m: Mat, n: nat)
    ensures Value(m, Zeros(n)) == 0
  {
    hide Ap, Xor;
    if n > 0 {
      ValueOfZeros(m, n - 1);
      assert Zeros(n)[..n - 1] == Zeros(n - 1);
      ApZero(m);
      XorSelf(0);
    }
  }

  lemma ValueOfNothing(m: Mat)
    ensures Value(m, Groups(0)) == 0 == Value(m, [])
  {
    NoGroups();
    ValueOfZeros(m, 6);
  }

  // ---- the three roots ----

  function Six(m: Mat, v: bv32): bv32 {
    Ap(m, Ap(m, Ap(m, Ap(m, Ap(m, Ap(m, v))))))
  }

  /** The value of six coefficients, the highest first. */
  function Poly(m: Mat, a: bv32, b: bv32, c: bv32, d: bv32, e: bv32, f: bv32): bv32 {
    Xor(Ap(m, Xor(Ap(m, Xor(Ap(m, Xor(Ap(m, Xor(Ap(m, a), b)), c)), d)), e)), f)
  }

  lemma ValueOfSix(m: Mat, a: bv32, b: bv32, c: bv32, d: bv32, e: bv32, f: bv32)
    ensures Value(m, [a, b, c, d, e, f]) == Poly(m, a, b, c, d, e, f)
  {
    hide Ap, Xor, Value;
    ValueOfOne(m, a);
    ValueNext(m, [a], b);
    assert [a] + [b] == [a, b];
    ValueNext(m, [a, b], c);
    assert [a, b] + [c] == [a, b, c];
    ValueNext(m, [a, b, c], d);
    assert [a, b, c] + [d] == [a, b, c, d];
    ValueNext(m, [a, b, c, d], e);
    assert [a, b, c, d] + [e] == [a, b, c, d, e];
    ValueNext(m, [a, b, c, d, e], f);
    assert [a, b, c, d, e] + [f] == [a, b, c, d, e, f];
  }

  lemma ValueOfOne(m: Mat, a: bv32)
    ensures Value(m, [a]) == a
  {
    hide Ap, Xor;
    assert [a][..0] == [];
    ApZero(m);
    XorSelf(a);
  }

  lemma {:induction false} TrailingZeros(m: Mat, d: Symbols, n: nat)
    ensures Value(m, d + Zeros(n + 1)) == Ap(m, Value(m, d + Zeros(n)))
  {
    hide Ap, Xor, Value;
    assert d + Zeros(n + 1) == (d + Zeros(n)) + [0];
    ValueNext(m, d + Zeros(n), 0);
    XorSelf(Ap(m, Value(m, d + Zeros(n))));
  }

  lemma ValueOfLeading(m: Mat, x: bv32)
    ensures Value(m, [x] + Zeros(6)) == Six(m, x)
  {
    hide Ap, Xor, Value;
    assert [x] + Zeros(0) == [x];
    ValueOfOne(m, x);
    TrailingZeros(m, [x], 0);
    TrailingZeros(m, [x], 1);
    TrailingZeros(m, [x], 2);
    TrailingZeros(m, [x], 3);
    TrailingZeros(m, [x], 4);
    TrailingZeros(m, [x], 5);
  }

  /** The tails that Reduce adds, as coefficients: the multiples of k(x) by the single bits. */
  lemma Tails()
    ensures Groups(Reduce(0, 1)) == [29, 22, 20, 21, 29, 18] && Groups(Reduce(0, 2)) == [19, 5, 1, 3, 19, 13]
    ensures Groups(Reduce(0, 4)) == [15, 10, 2, 6, 15, 26] && Groups(Reduce(0, 8)) == [30, 20, 4, 12, 30, 29]
    ensures Groups(Reduce(0, 16)) == [21, 1, 8, 24, 21, 19]
  {
  }

  /** Both sides of a root's equation agree on the single bits. */
  ghost predicate RootOnBits(m: Mat) {
    && Poly(m, 29, 22, 20, 21, 29, 18) == Six(m, 1) && Poly(m, 19, 5, 1, 3, 19, 13) == Six(m, 2)
    && Poly(m, 15, 10, 2, 6, 15, 26) == Six(m, 4) && Poly(m, 30, 20, 4, 12, 30, 29) == Six(m, 8)
    && Poly(m, 21, 1, 8, 24, 21, 19) == Six(m, 16)
  }

  lemma BalancesSum(m: Mat, x: bv32, y: bv32)
    requires Balances(m, x) && Balances(m, y)
    ensures Balances(m, Xor(x, y))
  {
    hide Xor, Reduce, Groups, Value;
    XorSelf(0);
    ReduceLinear(0, 0, x, y);
    GroupsLinear(Reduce(0, x), Reduce(0, y));
    SixGroups(Reduce(0, x));
    SixGroups(Reduce(0, y));
    ValueLinear(m, Groups(Reduce(0, x)), Groups(Reduce(0, y)));
    ValueLinear(m, [x] + Zeros(6), [y] + Zeros(6));
    assert XorAll([x] + Zeros(6), [y] + Zeros(6)) == [Xor(x, y)] + Zeros(6);
  }

  lemma SixGroups(c: bv32)
    ensures |Groups(c)| == 6
  {
    GroupAt(c, 0);
  }

  lemma BalancesBit(m: Mat, x: bv32)
    requires RootOnBits(m) && (x == 0 || x == 1 || x == 2 || x == 4 || x == 8 || x == 16)
    ensures Balances(m, x)
  {
    hide Xor, Reduce, Groups, Value, Ap, Poly, Six;
    ValueOfLeading(m, x);
    if x == 0 {
      ReduceNothing(0);
      ValueOfNothing(m);
      ValueOfZeros(m, 7);
      assert [x] + Zeros(6) == Zeros(7);
    } else {
      Tails();
      ValueOfSix(m, 29, 22, 20, 21, 29, 18);
      ValueOfSix(m, 19, 5, 1, 3, 19, 13);
      ValueOfSix(m, 15, 10, 2, 6, 15, 26);
      ValueOfSix(m, 30, 20, 4, 12, 30, 29);
      ValueOfSix(m, 21, 1, 8, 24, 21, 19);
    }
  }

  lemma FiveBits(x: bv32)
    requires x < 32
    ensures x == Xor(Xor(Xor(Xor(x & 1, x & 2), x & 4), x & 8), x & 16)
    ensures (x & 1 == 0 || x & 1 == 1) && (x & 2 == 0 || x & 2 == 2) && (x & 4 == 0 || x & 4 == 4)
    ensures (x & 8 == 0 || x & 8 == 8) && (x & 16 == 0 || x & 16 == 16)
  {
  }

  lemma BalancesAny(m: Mat, x: bv32, a: bv32, b: bv32, c: bv32, d: bv32, e: bv32)
    requires RootOnBits(m) && x == Xor(Xor(Xor(Xor(a, b), c), d), e)
    requires (a == 0 || a == 1) && (b == 0 || b == 2) && (c == 0 || c == 4) && (d == 0 || d == 8) && (e == 0 || e == 16)
    ensures Balances(m, x)
  {
    hide Xor, RootOnBits, Balances;
    BalancesBit(m, a);
    BalancesBit(m, b);
    BalancesBit(m, c);
    BalancesBit(m, d);
    BalancesBit(m, e);
    BalancesSum(m, a, b);
    BalancesSum(m, Xor(a, b), c);
    BalancesSum(m, Xor(Xor(a, b), c), d);
    BalancesSum(m, Xor(Xor(Xor(a, b), c), d), e);
  }

  lemma IsRoot(m: Mat)
    requires RootOnBits(m)
    ensures Root(m)
  {
    hide Xor, RootOnBits, Balances;
    forall x: bv32 | x < 32 ensures Balances(m, x)
    {
      FiveBits(x);
      BalancesAny(m, x, x & 1, x & 2, x & 4, x & 8, x & 16);
    }
  }

  lemma Root997Bit1()
    ensures Poly(M997, 29, 22, 20, 21, 29, 18) == Six(M997, 1)
  {
    assert Ap(M997, 0x1d) == 0x199 && Ap(M997, 0x18f) == 0x1aa && Ap(M997, 0x1be) == 0x187;
    assert Ap(M997, 0x192) == 0x33 && Ap(M997, 0x2e) == 0x2e7 && Ap(M997, 0x1) == 0x1bd;
    assert Ap(M997, 0x1bd) == 0x369 && Ap(M997, 0x369) == 0x34f && Ap(M997, 0x34f) == 0x3d6;
    assert Ap(M997, 0x3d6) == 0x74 && Ap(M997, 0x74) == 0x2f5;
  }

  lemma Root997Bit2()
    ensures Poly(M997, 19, 5, 1, 3, 19, 13) == Six(M997, 2)
  {
    assert Ap(M997, 0x13) == 0x31b && Ap(M997, 0x31e) == 0x354 && Ap(M997, 0x355) == 0x30e;
    assert Ap(M997, 0x30d) == 0x4f && Ap(M997, 0x5c) == 0xee && Ap(M997, 0x2) == 0x353;
    assert Ap(M997, 0x353) == 0x3f2 && Ap(M997, 0x3f2) == 0x3be && Ap(M997, 0x3be) == 0x2a5;
    assert Ap(M997, 0x2a5) == 0xc1 && Ap(M997, 0xc1) == 0xe3;
  }

  lemma Root997Bit4()
    ensures Poly(M997, 15, 10, 2, 6, 15, 26) == Six(M997, 4)
  {
    assert Ap(M997, 0xf) == 0x33f && Ap(M997, 0x335) == 0x3a1 && Ap(M997, 0x3a3) == 0x33c;
    assert Ap(M997, 0x33a) == 0x9e && Ap(M997, 0x91) == 0x1dc && Ap(M997, 0x4) == 0x3af;
    assert Ap(M997, 0x3af) == 0x2ed && Ap(M997, 0x2ed) == 0x275 && Ap(M997, 0x275) == 0x6a;
    assert Ap(M997, 0x6a) == 0x182 && Ap(M997, 0x182) == 0x1c6;
  }

  lemma Root997Bit8()
    ensures Poly(M997, 30, 20, 4, 12, 30, 29) == Six(M997, 8)
  {
    assert Ap(M997, 0x1e) == 0x377 && Ap(M997, 0x363) == 0x262 && Ap(M997, 0x266) == 0x371;
    assert Ap(M997, 0x37d) == 0x115 && Ap(M997, 0x10b) == 0x391 && Ap(M997, 0x8) == 0x27e;
    assert Ap(M997, 0x27e) == 0xfa && Ap(M997, 0xfa) == 0x1e3 && Ap(M997, 0x1e3) == 0xd4;
    assert Ap(M997, 0xd4) == 0x304 && Ap(M997, 0x304) == 0x38c;
  }

  lemma Root997Bit16()
    ensures Poly(M997, 21, 1, 8, 24, 21, 19) == Six(M997, 16)
  {
    assert Ap(M997, 0x15) == 0x3e7 && Ap(M997, 0x3e6) == 0x1e4 && Ap(M997, 0x1ec) == 0x3eb;
    assert Ap(M997, 0x3f3) == 0x203 && Ap(M997, 0x216) == 0x22b && Ap(M997, 0x10) == 0x1f5;
    assert Ap(M997, 0x1f5) == 0x1dd && Ap(M997, 0x1dd) == 0x3c6 && Ap(M997, 0x3c6) == 0x181;
    assert Ap(M997, 0x181) == 0x328 && Ap(M997, 0x328) == 0x238;
  }

  lemma Root997()
    ensures Root(M997)
  {
    hide Poly, Six, Root;
    Root997Bit1();
    Root997Bit2();
    Root997Bit4();
    Root997Bit8();
    Root997Bit16();
    IsRoot(M997);
  }

  lemma Root998Bit1()
    ensures Poly(M998, 29, 22, 20, 21, 29, 18) == Six(M998, 1)
  {
    assert Ap(M998, 0x1d) == 0x1d2 && Ap(M998, 0x1c4) == 0x382 && Ap(M998, 0x396) == 0x359;
    assert Ap(M998, 0x34c) == 0x16b && Ap(M998, 0x176) == 0x3c8 && Ap(M998, 0x1) == 0x65;
    assert Ap(M998, 0x65) == 0x88 && Ap(M998, 0x88) == 0x373 && Ap(M998, 0x373) == 0x3a3;
    assert Ap(M998, 0x3a3) == 0x25a && Ap(M998, 0x25a) == 0x3da;
  }

  lemma Root998Bit2()
    ensures Poly(M998, 19, 5, 1, 3, 19, 13) == Six(M998, 2)
  {
    assert Ap(M998, 0x13) == 0x38d && Ap(M998, 0x388) == 0x224 && Ap(M998, 0x225) == 0x3bb;
    assert Ap(M998, 0x3b8) == 0x2d6 && Ap(M998, 0x2c5) == 0x2b0 && Ap(M998, 0x2) == 0xca;
    assert Ap(M998, 0xca) == 0x110 && Ap(M998, 0x110) == 0x3ef && Ap(M998, 0x3ef) == 0x266;
    assert Ap(M998, 0x266) == 0x1bd && Ap(M998, 0x1bd) == 0x2bd;
  }

  lemma Root998Bit4()
    ensures Poly(M998, 15, 10, 2, 6, 15, 26) == Six(M998, 4)
  {
    assert Ap(M998, 0xf) == 0x23a && Ap(M998, 0x230) == 0x168 && Ap(M998, 0x16a) == 0x27f;
    assert Ap(M998, 0x279) == 0xa5 && Ap(M998, 0xaa) == 0x69 && Ap(M998, 0x4) == 0x194;
    assert Ap(M998, 0x194) == 0x209 && Ap(M998, 0x209) == 0x2fe && Ap(M998, 0x2fe) == 0x1ec;
    assert Ap(M998, 0x1ec) == 0x353 && Ap(M998, 0x353) == 0x73;
  }

  lemma Root998Bit8()
    ensures Poly(M998, 30, 20, 4, 12, 30, 29) == Six(M998, 8)
  {
    assert Ap(M998, 0x1e) == 0x17d && Ap(M998, 0x169) == 0x2d0 && Ap(M998, 0x2d4) == 0x1f7;
    assert Ap(M998, 0x1fb) == 0x14a && Ap(M998, 0x154) == 0xd2 && Ap(M998, 0x8) == 0x301;
    assert Ap(M998, 0x301) == 0x132 && Ap(M998, 0x132) == 0xf5 && Ap(M998, 0xf5) == 0x3d8;
    assert Ap(M998, 0x3d8) == 0x3af && Ap(M998, 0x3af) == 0xcf;
  }

  lemma Root998Bit16()
    ensures Poly(M998, 21, 1, 8, 24, 21, 19) == Six(M998, 16)
  {
    assert Ap(M998, 0x15) == 0x2d3 && Ap(M998, 0x2d2) == 0xa9 && Ap(M998, 0xa1) == 0x3c7;
    assert Ap(M998, 0x3df) == 0x294 && Ap(M998, 0x281) == 0x18d && Ap(M998, 0x10) == 0x322;
    assert Ap(M998, 0x322) == 0x24d && Ap(M998, 0x24d) == 0x1c3 && Ap(M998, 0x1c3) == 0x2b9;
    assert Ap(M998, 0x2b9) == 0x27e && Ap(M998, 0x27e) == 0x19e;
  }

  lemma Root998()
    ensures Root(M998)
  {
    hide Poly, Six, Root;
    Root998Bit1();
    Root998Bit2();
    Root998Bit4();
    Root998Bit8();
    Root998Bit16();
    IsRoot(M998);
  }

  lemma Root999Bit1()
    ensures Poly(M999, 29, 22, 20, 21, 29, 18) == Six(M999, 1)
  {
    assert Ap(M999, 0x1d) == 0x2f5 && Ap(M999, 0x2e3) == 0x2f7 && Ap(M999, 0x2e3) == 0x2f7;
    assert Ap(M999, 0x2e2) == 0x127 && Ap(M999, 0x13a) == 0xb3 && Ap(M999, 0x1) == 0x3d0;
    assert Ap(M999, 0x3d0) == 0x159 && Ap(M999, 0x159) == 0x2c6 && Ap(M999, 0x2c6) == 0x51;
    assert Ap(M999, 0x51) == 0x42 && Ap(M999, 0x42) == 0xa1;
  }

  lemma Root999Bit2()
    ensures Poly(M999, 19, 5, 1, 3, 19, 13) == Six(M999, 2)
  {
    assert Ap(M999, 0x13) == 0xe3 && Ap(M999, 0xe6) == 0xe7 && Ap(M999, 0xe6) == 0xe7;
    assert Ap(M999, 0xe4) == 0x24e && Ap(M999, 0x25d) == 0x14f && Ap(M999, 0x2) == 0x2a9;
    assert Ap(M999, 0x2a9) == 0x29b && Ap(M999, 0x29b) == 0xac && Ap(M999, 0xac) == 0x8b;
    assert Ap(M999, 0x8b) == 0x84 && Ap(M999, 0x84) == 0x142;
  }

  lemma Root999Bit4()
    ensures Poly(M999, 15, 10, 2, 6, 15, 26) == Six(M999, 4)
  {
    assert Ap(M999, 0xf) == 0x1c6 && Ap(M999, 0x1cc) == 0x1ce && Ap(M999, 0x1cc) == 0x1ce;
    assert Ap(M999, 0x1c8) == 0x1bc && Ap(M999, 0x1b3) == 0x29e && Ap(M999, 0x4) == 0x72;
    assert Ap(M999, 0x72) == 0x3f && Ap(M999, 0x3f) == 0x158 && Ap(M999, 0x158) == 0x116;
    assert Ap(M999, 0x116) == 0x108 && Ap(M999, 0x108) == 0x284;
  }

  lemma Root999Bit8()
    ensures Poly(M999, 30, 20, 4, 12, 30, 29) == Six(M999, 8)
  {
    assert Ap(M999, 0x1e) == 0x38c && Ap(M999, 0x398) == 0x39c && Ap(M999, 0x398) == 0x39c;
    assert Ap(M999, 0x390) == 0x351 && Ap(M999, 0x34f) == 0x35 && Ap(M999, 0x8) == 0xcd;
    assert Ap(M999, 0xcd) == 0x57 && Ap(M999, 0x57) == 0x299 && Ap(M999, 0x299) == 0x205;
    assert Ap(M999, 0x205) == 0x210 && Ap(M999, 0x210) == 0x28;
  }

  lemma Root999Bit16()
    ensures Poly(M999, 21, 1, 8, 24, 21, 19) == Six(M999, 16)
  {
    assert Ap(M999, 0x15) == 0x238 && Ap(M999, 0x239) == 0x231 && Ap(M999, 0x239) == 0x231;
    assert Ap(M999, 0x229) == 0x3ab && Ap(M999, 0x3be) == 0x43 && Ap(M999, 0x10) == 0x19a;
    assert Ap(M999, 0x19a) == 0x87 && Ap(M999, 0x87) == 0x3b && Ap(M999, 0x3b) == 0x12a;
    assert Ap(M999, 0x12a) == 0x129 && Ap(M999, 0x129) == 0x50;
  }

  lemma Root999()
    ensures Root(M999)
  {
    hide Poly, Six, Root;
    Root999Bit1();
    Root999Bit2();
    Root999Bit4();
    Root999Bit8();
    Root999Bit16();
    IsRoot(M999);
  }

  // ---- three terms cannot cancel ----

  lemma XorMove(a: bv32, b: bv32, c: bv32, d: bv32)
    requires Xor(a, b) == Xor(c, d)
    ensures Xor(a, c) == Xor(b, d)
  {
    hide Xor;
    XorPairs(a, b, c, d);
    XorZero(Xor(a, b), Xor(c, d));
    XorZero(Xor(a, c), Xor(b, d));
  }

  lemma IterSwap(a: nat, b: nat, v: bv32)
    ensures Iter(a, Iter(b, v)) == Iter(b, Iter(a, v)) == Iter(a + b, v)
  {
    hide Iter;
    IterSum(a, b, v);
    IterSum(b, a, v);
    assert a + b == b + a;
  }

  predicate Near(a: nat, b: nat) {
    a != b && a < b + 1023 && b < a + 1023
  }

  lemma NearApart(a: nat, b: nat, v: bv32)
    requires Near(a, b) && v < 1024 && Iter(a, v) == Iter(b, v)
    ensures v == 0
  {
    hide Iter;
    if a < b {
      PowersApart(a, b, v);
    } else {
      PowersApart(b, a, v);
    }
  }

  /** Elimination in the three equations that three consecutive roots give. */
  lemma SecondVanishes(n1: nat, n2: nat, n3: nat, u1: bv32, u2: bv32, u3: bv32)
    requires u2 < 1024 && u3 < 1024 && Near(n1, n2) && Near(n2, n3)
    requires u1 == Xor(u2, u3) && Iter(n1, u1) == Xor(Iter(n2, u2), Iter(n3, u3))
    requires Iter(n1, Iter(n1, u1)) == Xor(Iter(n2, Iter(n2, u2)), Iter(n3, Iter(n3, u3)))
    ensures u2 == 0
  {
    hide Iter, Xor;
    var a2, a3, b2, b3 := Iter(n1, u2), Iter(n1, u3), Iter(n2, u2), Iter(n3, u3);
    IterLinear(n1, u2, u3);
    XorMove(a2, a3, b2, b3);
    var w := Xor(a2, b2);
    IterLinear(n1, b2, b3);
    IterSwap(n1, n2, u2);
    IterSwap(n1, n3, u3);
    XorMove(Iter(n2, a2), Iter(n3, a3), Iter(n2, b2), Iter(n3, b3));
    IterLinear(n2, a2, b2);
    IterLinear(n3, a3, b3);
    IterRange(n1, u2);
    IterRange(n2, u2);
    XorRange(a2, b2);
    NearApart(n2, n3, w);
    XorZero(a2, b2);
    NearApart(n1, n2, u2);
  }

  lemma XorRange(a: bv32, b: bv32)
    requires a < 1024 && b < 1024
    ensures Xor(a, b) < 1024
  {
  }

  /** The equation at one root: the terms of three symbols add up to nothing. */
  ghost predicate Cancel(j: nat, n1: nat, n2: nat, n3: nat, e1: bv32, e2: bv32, e3: bv32) {
    Iter(j * n1, e1) == Xor(Iter(j * n2, e2), Iter(j * n3, e3))
  }

  lemma NextPower(j: nat, n: nat, e: bv32)
    ensures Iter((j + 1) * n, e) == Iter(n, Iter(j * n, e))
    ensures Iter((j + 2) * n, e) == Iter(n, Iter(n, Iter(j * n, e)))
  {
    hide Iter;
    assert (j + 1) * n == n + j * n && (j + 2) * n == n + (j + 1) * n;
    IterSum(n, j * n, e);
    IterSum(n, (j + 1) * n, e);
  }

  lemma NoneCancel(j: nat, n1: nat, n2: nat, n3: nat, e1: bv32, e2: bv32, e3: bv32)
    requires e1 < 1024 && e2 < 1024 && e3 < 1024 && Near(n1, n2) && Near(n2, n3) && Near(n1, n3)
    requires Cancel(j, n1, n2, n3, e1, e2, e3) && Cancel(j + 1, n1, n2, n3, e1, e2, e3) &&
             Cancel(j + 2, n1, n2, n3, e1, e2, e3)
    ensures e1 == 0 && e2 == 0 && e3 == 0
  {
    hide Iter, Xor;
    var u1, u2, u3 := Iter(j * n1, e1), Iter(j * n2, e2), Iter(j * n3, e3);
    NextPower(j, n1, e1);
    NextPower(j, n2, e2);
    NextPower(j, n3, e3);
    IterRange(j * n1, e1);
    IterRange(j * n2, e2);
    IterRange(j * n3, e3);
    SecondVanishes(n1, n2, n3, u1, u2, u3);
    XorComm(u2, u3);
    XorComm(Iter(n2, u2), Iter(n3, u3));
    XorComm(Iter(n2, Iter(n2, u2)), Iter(n3, Iter(n3, u3)));
    SecondVanishes(n1, n3, n2, u1, u3, u2);
    XorSelf(0);
  }

  // ---- lists that differ in three places ----

  /** A list of zeros but for one symbol. */
  function Lone(n: nat, a: nat, e: bv32): (r: Symbols)
    requires a < n
    ensures |r| == n && forall i | 0 <= i < n :: r[i] == if i == a then e else 0
  {
    Zeros(n)[a := e]
  }

  lemma {:induction false} Shift(m: Mat, j: nat, d: Symbols, k: nat)
    requires IsPower(j, m)
    ensures Value(m, d + Zeros(k)) == Iter(j * k, Value(m, d))
  {
    hide Iter, Ap, Value, IsPower;
    if k == 0 {
      assert d + Zeros(0) == d && j * 0 == 0;
      IterNone(Value(m, d));
    } else {
      Shift(m, j, d, k - 1);
      TrailingZeros(m, d, k - 1);
      PowerAt(j, m, Value(m, d + Zeros(k - 1)));
      IterSum(j, j * (k - 1), Value(m, d));
      assert j + j * (k - 1) == j * k;
    }
  }

  lemma IterNone(v: bv32)
    ensures Iter(0, v) == v
  {
  }

  lemma LoneValue(m: Mat, j: nat, n: nat, a: nat, e: bv32)
    requires IsPower(j, m) && a < n
    ensures Value(m, Lone(n, a, e)) == Iter(j * (n - 1 - a), e)
  {
    hide Iter, Ap, Value, IsPower, Xor;
    var head := Zeros(a) + [e];
    ValueNext(m, Zeros(a), e);
    ValueOfZeros(m, a);
    ApZero(m);
    XorSelf(e);
    Shift(m, j, head, n - 1 - a);
    assert Lone(n, a, e) == head + Zeros(n - 1 - a);
  }

  /** Only the three places may be nonzero. */
  ghost predicate OnlyAt(d: Symbols, a: nat, b: nat, c: nat) {
    a < b < c < |d| && forall i | 0 <= i < |d| && i != a && i != b && i != c :: d[i] == 0
  }

  lemma ThreeLone(d: Symbols, a: nat, b: nat, c: nat)
    requires OnlyAt(d, a, b, c)
    ensures d == XorAll(Lone(|d|, a, d[a]), XorAll(Lone(|d|, b, d[b]), Lone(|d|, c, d[c])))
  {
    hide Xor, Lone;
    var n := |d|;
    var x, y, z := Lone(n, a, d[a]), Lone(n, b, d[b]), Lone(n, c, d[c]);
    forall i | 0 <= i < n ensures d[i] == Xor(x[i], Xor(y[i], z[i]))
    {
      XorSelf(d[i]);
      XorSelf(0);
    }
    assert forall i | 0 <= i < n :: XorAll(x, XorAll(y, z))[i] == d[i];
  }

  lemma ValueOfThree(m: Mat, j: nat, d: Symbols, a: nat, b: nat, c: nat)
    requires IsPower(j, m) && OnlyAt(d, a, b, c) && Value(m, d) == 0
    ensures Cancel(j, |d| - 1 - a, |d| - 1 - b, |d| - 1 - c, d[a], d[b], d[c])
  {
    hide Iter, Ap, Value, IsPower, Xor, Lone;
    var n := |d|;
    var x, y, z := Lone(n, a, d[a]), Lone(n, b, d[b]), Lone(n, c, d[c]);
    ThreeLone(d, a, b, c);
    ValueLinear(m, x, XorAll(y, z));
    ValueLinear(m, y, z);
    LoneValue(m, j, n, a, d[a]);
    LoneValue(m, j, n, b, d[b]);
    LoneValue(m, j, n, c, d[c]);
    XorZero(Value(m, x), Value(m, XorAll(y, z)));
  }

  /** A difference in three places within 1023 of each other leaves a remainder. */
  lemma ThreeNonzero(d: Symbols, a: nat, b: nat, c: nat)
    requires Five(d) && OnlyAt(d, a, b, c) && c - a < 1023 && From(0, d) == 0
    ensures d[a] == 0 && d[b] == 0 && d[c] == 0
  {
    hide Iter, Ap, Value, IsPower, Xor, Root, From, Groups, Cancel;
    Root997();
    Root998();
    Root999();
    RootPowers();
    RemainderValue(M997, d);
    RemainderValue(M998, d);
    RemainderValue(M999, d);
    ValueOfNothing(M997);
    ValueOfNothing(M998);
    ValueOfNothing(M999);
    ValueOfThree(M997, 997, d, a, b, c);
    ValueOfThree(M998, 998, d, a, b, c);
    ValueOfThree(M999, 999, d, a, b, c);
    FiveSmall(d[a], d[b], d[c]);
    NoneCancel(997, |d| - 1 - a, |d| - 1 - b, |d| - 1 - c, d[a], d[b], d[c]);
  }

  lemma FiveSmall(x: bv32, y: bv32, z: bv32)
    requires x < 32 && y < 32 && z < 32
    ensures x < 1024 && y < 1024 && z < 1024
  {
  }

  /**
   * Lists of any length that differ in no more than three places, all within 1023 positions, have different remainders,
   * so at most one of them verifies.
   */
  lemma ThreeDetected(v: Symbols, w: Symbols, a: nat, b: nat, c: nat)
    requires Five(v) && Five(w) && |v| == |w| && v != w && a < b < c < |v| && c - a < 1023
    requires forall i | 0 <= i < |v| && v[i] != w[i] :: i == a || i == b || i == c
    ensures From(1, v) != From(1, w)
  {
    hide From, Xor, Five;
    FromLinear(1, 1, v, w);
    XorSelf(1);
    DifferenceIs(v, w);
    var d := XorAll(v, w);
    var i := FirstDifference(v, w);
    if From(1, v) == From(1, w) {
      XorZero(From(1, v), From(1, w));
      ThreeNonzero(d, a, b, c);
    }
  }
}
