/** Fixed-width unsigned integers held as an array of 32-bit limbs, least significant first. */
module Arith {
  import opened Powers
  import opened Limbs

  class BaseUint {
    const pn: array<Limb>

    ghost function Num(): nat
      reads pn
    {
      Value(pn[..])
    }

    constructor (width: nat)
      ensures fresh(pn) && pn.Length == width && Num() == 0
    {
      pn := new Limb[width](_ => 0);
      new;
      ZeroValue(pn[..]);
    }

    constructor Copy(b: BaseUint)
      ensures fresh(pn) && pn.Length == b.pn.Length && pn[..] == b.pn[..] && Num() == b.Num()
    {
      pn := new Limb[b.pn.Length](i requires 0 <= i < b.pn.Length reads b.pn => b.pn[i]);
      new;
      assert pn[..] == b.pn[..];
    }

    lemma NumIs(b: BaseUint)
      ensures b.Num() == Value(b.pn[..]) && |b.pn[..]| == b.pn.Length
    {
    }

    method Clear()
      modifies pn
      ensures Num() == 0 && forall j | 0 <= j < pn.Length :: pn[j] == 0
    {
      for i := 0 to pn.Length
        invariant forall j | 0 <= j < i :: pn[j] == 0
      {
        pn[i] := 0;
      }
      ZeroValue(pn[..]);
    }

    method Set64(b: nat)
      requires pn.Length >= 2 && b < BASE * BASE
      modifies pn
      ensures Num() == b
    {
      hide Value, BasePow;
      Clear();
      ValueUpdate(pn[..], 0, b % BASE);
      pn[0] := b % BASE;
      ValueUpdate(pn[..], 1, b / BASE);
      pn[1] := b / BASE;
      SmallBasePows();
    }

    // ---- addition, negation, subtraction ----

    method Add(b: BaseUint)
      requires b.pn.Length == pn.Length
      modifies pn
      ensures Num() == (old(Num()) + old(b.Num())) % BasePow(pn.Length)
    {
      hide Value, BasePow;
      ghost var x, y, w := pn[..], b.pn[..], pn.Length;
      var carry := 0;
      Nothing(x, y, pn[..]);
      for i := 0 to pn.Length
        invariant 0 <= carry <= 1 && pn[i..] == x[i..] && b.pn[i..] == y[i..]
        invariant Value(pn[..i]) + carry * BasePow(i) == Value(x[..i]) + Value(y[..i])
      {
        assert pn[i] == x[i..][0] == x[i] && b.pn[i] == y[i..][0] == y[i];
        var n := carry + pn[i] + b.pn[i];
        ghost var low := pn[..i];
        pn[i] := n % BASE;
        assert pn[..i + 1] == low + [n % BASE];
        AddStep(low, x, y, i, carry, n);
        carry := n / BASE;
      }
      Whole(pn[..], w);
      Whole(x, w);
      Whole(y, w);
      Wraps(pn[..], carry, Value(x) + Value(y));
    }

    method Increment()
      modifies pn
      ensures Num() == (old(Num()) + 1) % BasePow(pn.Length)
    {
      hide Value, BasePow;
      ghost var x, w := Num(), pn.Length;
      ValueBound(pn[..]);
      OneBasePow();
      var i := 0;
      while i < pn.Length
        invariant 0 <= i <= w && Num() + BasePow(i) == x + 1
      {
        ghost var was := pn[..];
        pn[i] := (pn[i] + 1) % BASE;
        assert pn[..] == was[i := (was[i] + 1) % BASE];
        IncrementStep(was, i);
        if pn[i] != 0 {
          Wraps(pn[..], 0, x + 1);
          return;
        }
        i := i + 1;
      }
      Wraps(pn[..], 1, x + 1);
    }

    method Complement() returns (r: BaseUint)
      ensures fresh(r) && fresh(r.pn) && r.pn.Length == pn.Length
      ensures r.Num() == BasePow(pn.Length) - 1 - Num()
    {
      hide Value, BasePow;
      r := new BaseUint(pn.Length);
      ghost var w := pn.Length;
      Nothing(pn[..], r.pn[..], []);
      OneBasePow();
      for i := 0 to pn.Length
        invariant pn[..] == old(pn[..]) && Value(r.pn[..i]) + Value(pn[..i]) + 1 == BasePow(i)
      {
        ghost var low := r.pn[..i];
        r.pn[i] := BASE - 1 - pn[i];
        assert r.pn[..i + 1] == low + [BASE - 1 - pn[i]];
        ComplementStep(low, pn[..], i);
      }
      Whole(pn[..], w);
      Whole(r.pn[..], w);
    }

    method Negate() returns (r: BaseUint)
      ensures fresh(r) && fresh(r.pn) && r.pn.Length == pn.Length
      ensures r.Num() == (BasePow(pn.Length) - Num()) % BasePow(pn.Length)
    {
      r := Complement();
      r.Increment();
    }

    /** Modulo the width, and the plain difference when it is not negative. */
    method Subtract(b: BaseUint)
      requires b.pn.Length == pn.Length
      modifies pn
      ensures Num() == (old(Num()) - old(b.Num())) % BasePow(pn.Length)
      ensures old(Num()) >= old(b.Num()) ==> Num() == old(Num()) - old(b.Num())
    {
      hide Value, BasePow;
      ghost var x, y := Num(), b.Num();
      ValueBound(pn[..]);
      ValueBound(b.pn[..]);
      var n := b.Negate();
      Add(n);
      DifferenceMod(x, y, BasePow(pn.Length));
    }

    // ---- comparison and size ----

    method CompareTo(b: BaseUint) returns (r: int)
      requires b.pn.Length == pn.Length
      ensures r == (if Num() < b.Num() then -1 else if Num() > b.Num() then 1 else 0)
    {
      hide Value, BasePow;
      var i := pn.Length;
      while i > 0
        invariant 0 <= i <= pn.Length && pn[i..] == b.pn[i..]
      {
        i := i - 1;
        if pn[i] < b.pn[i] {
          TopDecides(pn[..], b.pn[..], i);
          return -1;
        }
        if pn[i] > b.pn[i] {
          TopDecides(b.pn[..], pn[..], i);
          return 1;
        }
      }
      assert pn[..] == pn[0..] && b.pn[..] == b.pn[0..];
      return 0;
    }

    /** One more than the position of the highest set bit; zero for zero. */
    method Bits() returns (r: nat)
      ensures IsBits(Num(), r) && r <= 32 * pn.Length
    {
      hide Value, BasePow;
      var pos := pn.Length;
      while pos > 0
        invariant 0 <= pos <= pn.Length && forall j | pos <= j < pn.Length :: pn[j] == 0
      {
        pos := pos - 1;
        if pn[pos] != 0 {
          var nbits := 31;
          Pow32();
          while nbits > 0
            invariant 0 <= nbits <= 31 && pn[pos] < Pow2(nbits + 1)
          {
            if pn[pos] / Pow2(nbits) % 2 == 1 {
              TopLimb(pn[..], pos, nbits);
              return 32 * pos + nbits + 1;
            }
            TopBitClear(pn[pos], nbits);
            nbits := nbits - 1;
          }
          TopLimb(pn[..], pos, 0);
          return 32 * pos + 1;
        }
      }
      ZeroValue(pn[..]);
      return 0;
    }

    method Low64() returns (r: nat)
      requires pn.Length >= 2
      ensures r == Num() % (BASE * BASE)
    {
      hide Value, BasePow, Or;
      r := Or(pn[0], pn[1] * BASE);
      LowTwo(pn[..]);
    }

    // ---- shifts ----

    /** Sets the bits of `y` in one limb where none of them is set yet; `s` separates the two. */
    method OrInto(j: nat, y: Limb, ghost s: nat)
      requires j < pn.Length && pn[j] + y < BASE
      requires (pn[j] < Pow2(s) && y % Pow2(s) == 0) || (y < Pow2(s) && pn[j] % Pow2(s) == 0)
      modifies pn
      ensures pn[..] == old(pn[..])[j := old(pn[j]) + y]
      ensures Num() == old(Num()) + y * BasePow(j)
    {
      if pn[j] < Pow2(s) && y % Pow2(s) == 0 {
        OrDisjoint(pn[j], y, s);
      } else {
        OrDisjoint(y, pn[j], s);
      }
      ValueUpdate(pn[..], j, pn[j] + y);
      pn[j] := Or(pn[j], y);
      assert pn[..] == old(pn[..])[j := old(pn[j]) + y];
    }

    /** One limb of a left shift: its low part joins limb `j`, its high part starts the next; what is past the top is
        lost. */
    method PlaceLeft(j: nat, hi: Limb, lo: Limb, s: nat) returns (ghost lost: nat)
      requires (j < pn.Length ==> pn[j] < Pow2(s)) && forall m | j < m < pn.Length :: pn[m] == 0
      requires hi < Pow2(s) && lo % Pow2(s) == 0 && lo + Pow2(s) <= BASE && (s == 0 ==> hi == 0)
      modifies pn
      ensures (j + 1 < pn.Length ==> pn[j + 1] < Pow2(s)) && forall m | j + 1 < m < pn.Length :: pn[m] == 0
      ensures Num() + lost * BasePow(pn.Length) == old(Num()) + hi * BasePow(j + 1) + lo * BasePow(j)
    {
      hide Value, BasePow, Pow2, Or, Num;
      lost := 0;
      if j + 1 < pn.Length && s != 0 {
        ZeroMod(s);
        OrInto(j + 1, hi, s);
      }
      if j < pn.Length {
        OrInto(j, lo, s);
        if j + 1 == pn.Length {
          lost := hi;
        }
      } else {
        lost := PastTop(hi, lo, j, pn.Length);
      }
    }

    method ShiftLeft(shift: nat)
      modifies pn
      ensures Num() == old(Num()) * Pow2(shift) % BasePow(pn.Length)
    {
      hide *;
      var a := new BaseUint.Copy(this);
      ghost var x, w := a.pn[..], pn.Length;
      Clear();
      NumIs(a);
      var k, s := shift / 32, shift % 32;
      ghost var q: nat := 0;
      LeftStarts(x, k, s, w);
      for i := 0 to pn.Length
        invariant a.pn[..] == x && forall m | i + k < m < w :: pn[m] == 0
        invariant i + k < w ==> pn[i + k] < Pow2(s)
        invariant LeftSoFar(x, i, shift, Num(), q, w)
      {
        ghost var was := Num();
        LeftParts(x[i], s);
        ghost var lost := PlaceLeft(i + k, Shr(a.pn[i], 32 - s), Shl(a.pn[i], s), s);
        LeftStep(x, i, k, s, was, Num(), q, lost, w);
        q := q + lost;
      }
      NumIs(this);
      LeftEnds(x, shift, pn[..], q);
    }

    /** One limb of a right shift by `s` bits and `k` limbs; returns what falls off the bottom. */
    method PlaceRight(i: nat, k: nat, hi: Limb, lo: Limb, s: nat)
      requires i < pn.Length + k && s < 32
      requires (0 < i - k ==> pn[i - k - 1] < Pow2(32 - s)) && forall m | 0 <= m < pn.Length && i - k <= m :: pn[m] == 0
      requires hi < Pow2(32 - s) && lo % Pow2(32 - s) == 0 && lo + Pow2(32 - s) <= BASE && (s == 0 ==> lo == 0)
      modifies pn
      ensures (0 <= i - k ==> pn[i - k] < Pow2(32 - s)) && forall m | 0 <= m < pn.Length && i - k < m :: pn[m] == 0
      ensures Num() == old(Num()) + ((if i > k then lo * BasePow(i - k - 1) else 0) + (if i >= k
                then hi * BasePow(i - k) else 0))
    {
      hide Value, BasePow, Pow2, Or, Num;
      if i - k - 1 >= 0 && s != 0 {
        OrInto(i - k - 1, lo, 32 - s);
      }
      if i - k >= 0 {
        ZeroMod(32 - s);
        OrInto(i - k, hi, 32 - s);
      }
    }

    method ShiftRight(shift: nat)
      modifies pn
      ensures Num() == old(Num()) / Pow2(shift)
    {
      hide *;
      var a := new BaseUint.Copy(this);
      ghost var x, w := a.pn[..], pn.Length;
      Clear();
      NumIs(a);
      var k, s := shift / 32, shift % 32;
      ghost var r: int := 0;
      RightStarts(x, k, s);
      for i := 0 to pn.Length
        invariant a.pn[..] == x && forall m | 0 <= m < w && i - k <= m :: pn[m] == 0
        invariant 0 < i - k ==> pn[i - k - 1] < Pow2(32 - s)
        invariant RightSoFar(x, i, k, s, Num(), r)
      {
        ghost var was := Num();
        LeftParts(x[i], 32 - s);
        PlaceRight(i, k, Shr(a.pn[i], s), Shl(a.pn[i], 32 - s), s);
        GainIs(x[i], i, k, s);
        r := RightTerm(x, i, k, s, was, r);
      }
      RightEnds(x, k, s, Num(), r);
    }

    // ---- multiplication ----

    method MultiplySmall(b: Limb)
      modifies pn
      ensures Num() == old(Num()) * b % BasePow(pn.Length)
    {
      hide Value, BasePow;
      ghost var x, w := pn[..], pn.Length;
      var carry := 0;
      ValueNone(x);
      for i := 0 to pn.Length
        invariant 0 <= carry < BASE && pn[i..] == x[i..]
        invariant Value(pn[..i]) + carry * BasePow(i) == Value(x[..i]) * b
      {
        assert pn[i] == x[i..][0] == x[i];
        var n := carry + b * pn[i];
        SmallProduct(b, pn[i], carry);
        ghost var low := pn[..i];
        pn[i] := n % BASE;
        assert pn[..i + 1] == low + [n % BASE];
        MultiplyStep(low, x, b, i, carry, n);
        carry := n / BASE;
      }
      Whole(pn[..], w);
      Whole(x, w);
      Wraps(pn[..], carry, Value(x) * b);
    }

    /** Adds one row of the product, limb by limb; returns the carry past the top. An operand
        that is this very number has been cleared, and stays so. */
    method MultiplyRow(a: BaseUint, b: BaseUint, j: nat, ghost base: nat, ghost x: seq<Limb>, ghost y: seq<Limb>)
      returns (carry: nat)
      requires j < pn.Length == a.pn.Length == b.pn.Length && a.pn != pn && a.pn[..] == x && b.pn[..] == y &&
               Num() == base
      requires b.pn == pn ==> forall k | 0 <= k < |y| :: y[k] == 0
      modifies pn
      ensures Row(x, y, j, pn.Length - j, base, Num(), carry) && b.pn[..] == y
    {
      hide Row, Value, BasePow, Num;
      carry := 0;
      var i := 0;
      RowStarts(x, y, j, base);
      while i + j < pn.Length
        invariant a.pn[..] == x && b.pn[..] == y && 0 <= i <= pn.Length - j
        invariant 0 <= carry < BASE && Row(x, y, j, i, base, Num(), carry) && (b.pn == pn ==> carry == 0)
      {
        ghost var was := pn[..];
        NumIs(this);
        var n := carry + pn[i + j] + (a.pn[j] as int) * b.pn[i];
        RowBound(a.pn[j], b.pn[i], pn[i + j], carry);
        var digit: Limb := n % BASE;
        pn[i + j] := digit;
        assert pn[..] == was[i + j := digit];
        if b.pn == pn {
          assert was[i + j] == 0 && y[i] == 0 && digit == 0;
          assert pn[..] == was;
        }
        NumIs(this);
        RowStep(x, y, j, i, base, was, carry, n);
        carry := n / BASE;
        i := i + 1;
      }
    }

    /** Schoolbook multiplication, row by row. A number multiplied by itself in place is
        cleared before it is read, so nothing is left of it. */
    method Multiply(b: BaseUint)
      requires b.pn.Length == pn.Length
      modifies pn
      ensures b.pn != pn ==> Num() == old(Num()) * b.Num() % BasePow(pn.Length)
      ensures b.pn == pn ==> Num() == 0
    {
      hide *;
      var a := new BaseUint.Copy(this);
      Clear();
      ghost var x, y, w, q := a.pn[..], b.pn[..], pn.Length, 0;
      NumIs(a);
      NumIs(b);
      RowsStart(x, y, w);
      for j := 0 to pn.Length
        invariant a.pn[..] == x && b.pn[..] == y && Rows(x, y, j, Num(), q, w)
      {
        ghost var base := Num();
        var carry := MultiplyRow(a, b, j, base, x, y);
        q := RowEnds(x, y, j, base, Num(), carry, q);
      }
      NumIs(this);
      RowsEnd(x, y, pn[..], q);
      if b.pn == pn {
        ZeroValue(y);
      }
    }

    // ---- division ----

    /** Shift-and-subtract long division: the quotient rounded down, or an error for a zero divisor. */
    method Divide(b: BaseUint) returns (ok: bool)
      requires b.pn.Length == pn.Length
      modifies pn
      ensures ok <==> old(b.Num()) != 0
      ensures ok ==> Num() == old(Num()) / old(b.Num())
      ensures !ok ==> Num() == 0
    {
      hide *;
      var div := new BaseUint.Copy(b);
      var num := new BaseUint.Copy(this);
      ghost var n, d, w := num.Num(), div.Num(), pn.Length;
      Clear();
      var numBits := num.Bits();
      var divBits := div.Bits();
      NoBits(d, divBits);
      if divBits == 0 {
        return false;
      }
      ok := true;
      if divBits > numBits {
        BitsLess(n, numBits, d, divBits);
        return;
      }
      var shift: int := numBits - divBits;
      div.ShiftLeft(shift);
      Aligned(n, numBits, d, divBits, w);
      NothingBelow(pn[..], shift + 1);
      while shift >= 0
        invariant -1 <= shift < 32 * w && ClearBelow(pn[..], shift + 1)
        invariant Dividing(n, d, shift, Num(), num.Num(), div.Num())
      {
        ghost var q, was, rest, part := Num(), pn[..], num.Num(), div.Num();
        var c := num.CompareTo(div);
        if c >= 0 {
          num.Subtract(div);
          BelowBit(was, shift);
          OrInto(shift / 32, Pow2(shift % 32), shift % 32 + 1);
          SetBelow(was, shift);
          TakeBit(n, d, shift, q, rest, part);
        } else {
          WeakenBelow(was, shift);
          LeaveBit(n, d, shift, q, rest, part);
        }
        div.ShiftRight(1);
        shift := shift - 1;
      }
      Divided(n, d, Num(), num.Num(), div.Num());
    }
  }

  // ---- the arithmetic of the steps ----

  lemma SmallBasePows()
    ensures BasePow(0) == 1 && BasePow(1) == BASE && BasePow(2) == BASE * BASE
  {
  }

  lemma OneBasePow()
    ensures BasePow(0) == 1
  {
  }

  lemma ValueNone(s: seq<Limb>)
    ensures Value(s[..0]) == 0
  {
  }

  lemma Nothing(x: seq<Limb>, y: seq<Limb>, z: seq<Limb>)
    ensures Value(x[..0]) == 0 && Value(y[..0]) == 0 && Value(z[..0]) == 0
  {
  }

  lemma Whole(s: seq<Limb>, w: nat)
    requires w == |s|
    ensures s[..w] == s
  {
  }

  lemma Append(s: seq<Limb>, d: Limb)
    ensures Value(s + [d]) == Value(s) + d * BasePow(|s|)
  {
    assert (s + [d])[..|s|] == s;
  }

  /** A number within the width that differs from `total` by whole widths is `total` wrapped. */
  lemma Wraps(s: seq<Limb>, q: int, total: int)
    requires Value(s) + q * BasePow(|s|) == total
    ensures Value(s) == total % BasePow(|s|)
  {
    ValueBound(s);
    assert (q + 1) * BasePow(|s|) == q * BasePow(|s|) + BasePow(|s|);
    QuotientIs(total, BasePow(|s|), q);
  }

  lemma CarryStep(n: nat, p: nat)
    ensures (n % BASE) * p + (n / BASE) * (BASE * p) == n * p
  {
    MulAssoc(n / BASE, BASE, p);
    assert n == (n / BASE) * BASE + n % BASE;
  }

  lemma AddStep(low: seq<Limb>, x: seq<Limb>, y: seq<Limb>, i: nat, carry: nat, n: nat)
    requires i == |low| < |x| == |y| && n == carry + x[i] + y[i]
    requires Value(low) + carry * BasePow(i) == Value(x[..i]) + Value(y[..i])
    ensures Value(low + [n % BASE]) + (n / BASE) * BasePow(i + 1) == Value(x[..i + 1]) + Value(y[..i + 1])
  {
    hide Value, BasePow;
    Append(low, n % BASE);
    ValueNext(x, i);
    ValueNext(y, i);
    BasePowNext(i);
    CarryStep(n, BasePow(i));
    Spread(carry, x[i], y[i], BasePow(i));
  }

  lemma ComplementStep(low: seq<Limb>, x: seq<Limb>, i: nat)
    requires i == |low| < |x| && Value(low) + Value(x[..i]) + 1 == BasePow(i)
    ensures Value(low + [BASE - 1 - x[i]]) + Value(x[..i + 1]) + 1 == BasePow(i + 1)
  {
    hide Value;
    Append(low, BASE - 1 - x[i]);
    ValueNext(x, i);
    assert (BASE - 1 - x[i]) * BasePow(i) + x[i] * BasePow(i) + BasePow(i) == BASE * BasePow(i);
  }

  lemma MultiplyStep(low: seq<Limb>, x: seq<Limb>, b: Limb, i: nat, carry: nat, n: nat)
    requires i == |low| < |x| && n == carry + b * x[i]
    requires Value(low) + carry * BasePow(i) == Value(x[..i]) * b
    ensures Value(low + [n % BASE]) + (n / BASE) * BasePow(i + 1) == Value(x[..i + 1]) * b
  {
    hide Value, BasePow;
    Append(low, n % BASE);
    ValueNext(x, i);
    BasePowNext(i);
    CarryStep(n, BasePow(i));
    MultiplyDistributes(n, carry, b, x[i], BasePow(i), Value(x[..i]));
  }

  lemma MultiplyDistributes(n: int, carry: int, b: int, x: int, p: int, v: int)
    requires n == carry + b * x
    ensures n * p == carry * p + (x * p) * b && (v + x * p) * b == v * b + (x * p) * b
  {
    assert (b * x) * p == (x * p) * b;
  }

  lemma BasePowNext(i: nat)
    ensures BasePow(i + 1) == BASE * BasePow(i)
  {
  }

  lemma IncrementStep(s: seq<Limb>, i: nat)
    requires i < |s|
    ensures var t := s[i := (s[i] + 1) % BASE];
            if s[i] == BASE - 1 then t[i] == 0 && Value(t) + BasePow(i + 1) == Value(s) + BasePow(i)
            else t[i] != 0 && Value(t) == Value(s) + BasePow(i)
  {
    hide Value, BasePow;
    ValueUpdate(s, i, (s[i] + 1) % BASE);
    BasePowNext(i);
  }

  // ---- schoolbook multiplication ----

  /** The first `j` rows are summed, up to `q` whole widths. */
  ghost predicate Rows(x: seq<Limb>, y: seq<Limb>, j: nat, num: nat, q: nat, w: nat)
    requires j <= |x|
  {
    Value(x[..j]) * Value(y) == num + q * BasePow(w)
  }

  /** Row `j` is added to `base` as far as limb `i`. */
  ghost predicate Row(x: seq<Limb>, y: seq<Limb>, j: nat, i: nat, base: nat, num: nat, carry: nat)
    requires j < |x| && i <= |y|
  {
    num + carry * BasePow(i + j) == base + (x[j] * BasePow(j)) * Value(y[..i])
  }

  lemma RowsStart(x: seq<Limb>, y: seq<Limb>, w: nat)
    ensures Rows(x, y, 0, 0, 0, w)
  {
    ValueNone(x);
  }

  lemma RowStarts(x: seq<Limb>, y: seq<Limb>, j: nat, base: nat)
    requires j < |x|
    ensures Row(x, y, j, 0, base, base, 0)
  {
    ValueNone(y);
  }

  lemma RowBound(a: Limb, b: Limb, p: Limb, carry: nat)
    requires carry < BASE
    ensures 0 <= carry + p + a * b && (carry + p + a * b) / BASE < BASE
  {
    LimbProduct(a, b);
  }

  lemma LimbProduct(a: Limb, b: Limb)
    ensures 0 <= a * b <= (BASE - 1) * (BASE - 1)
  {
    MulLe(a, BASE - 1, b);
  }

  lemma RowStep(x: seq<Limb>, y: seq<Limb>, j: nat, i: nat, base: nat, s: seq<Limb>, carry: nat, n: nat)
    requires j < |x| && i < |y| && i + j < |s| && n == carry + s[i + j] + (x[j] as int) * y[i]
    requires Row(x, y, j, i, base, Value(s), carry)
    ensures Row(x, y, j, i + 1, base, Value(s[i + j := n % BASE]), n / BASE)
  {
    hide Value, BasePow;
    var p := BasePow(i + j);
    ValueUpdate(s, i + j, n % BASE);
    ValueNext(y, i);
    BasePowSum(j, i);
    BasePowNext(i + j);
    CarryStep(n, p);
    RowSum(x[j], y[i], BasePow(j), BasePow(i), Value(y[..i]), n, carry, s[i + j], n % BASE);
  }

  lemma RowSum(a: int, b: int, pj: int, pi: int, v: int, n: int, carry: int, was: int, d: int)
    requires n == carry + was + a * b
    ensures (a * pj) * (v + b * pi) == (a * pj) * v + (a * b) * (pj * pi)
    ensures n * (pj * pi) == carry * (pj * pi) + was * (pj * pi) + (a * b) * (pj * pi)
    ensures (d - was) * (pj * pi) == d * (pj * pi) - was * (pj * pi)
  {
    Regroup(a, pj, b, pi);
    Spread(carry, was, a * b, pj * pi);
  }

  lemma RowEnds(x: seq<Limb>, y: seq<Limb>, j: nat, base: nat, num: nat, carry: nat, q: nat) returns (q': nat)
    requires j < |x| == |y| && Rows(x, y, j, base, q, |x|) && Row(x, y, j, |x| - j, base, num, carry)
    ensures Rows(x, y, j + 1, num, q', |x|)
  {
    hide Value, BasePow;
    var w := |x|;
    var t := LowLimbs(y, w - j);
    BasePowSum(j, w - j);
    ValueNext(x, j);
    q' := q + carry + x[j] * t;
    RowsSum(Value(x[..j]), x[j], BasePow(j), Value(y[..w - j]), t, BasePow(w - j), q, carry, BasePow(w));
    RowsTotal(Value(x[..j]) * Value(y), base, q * BasePow(w), num, carry * BasePow(w),
      (x[j] * BasePow(j)) * Value(y[..w - j]), (x[j] * t) * BasePow(w));
  }

  lemma RowsTotal(was: int, base: int, lost: int, num: int, carried: int, row: int, past: int)
    requires was == base + lost && num + carried == base + row
    ensures was + row + past == num + (lost + carried + past)
  {
  }

  lemma RowsSum(a: int, x: int, pj: int, v: int, t: int, pr: int, q: int, carry: int, pw: int)
    requires pw == pj * pr
    ensures (a + x * pj) * (v + t * pr) == a * (v + t * pr) + (x * pj) * v + (x * t) * pw
    ensures (q + carry + x * t) * pw == q * pw + carry * pw + (x * t) * pw
  {
    Regroup(x, pj, t, pr);
    Spread(q, carry, x * t, pw);
    Spread(a, x * pj, 0, v + t * pr);
    Spread(v, t * pr, 0, x * pj);
  }

  lemma RowsEnd(x: seq<Limb>, y: seq<Limb>, s: seq<Limb>, q: nat)
    requires |s| == |x| && Rows(x, y, |x|, Value(s), q, |x|)
    ensures Value(s) == Value(x) * Value(y) % BasePow(|x|)
  {
    Whole(x, |x|);
    Wraps(s, q, Value(x) * Value(y));
  }

  lemma SmallProduct(b: Limb, x: Limb, carry: nat)
    requires carry < BASE
    ensures 0 <= carry + b * x && (carry + b * x) / BASE < BASE
  {
    LimbProduct(b, x);
  }

  lemma DifferenceMod(x: nat, y: nat, m: nat)
    requires x < m && y < m
    ensures (x + (m - y) % m) % m == (x - y) % m
    ensures x >= y ==> (x - y) % m == x - y
  {
    QuotientIs(m - y, m, if y == 0 then 1 else 0);
    var d := if x >= y then x - y else x - y + m;
    QuotientIs(x - y, m, if x >= y then 0 else -1);
    if y == 0 || x < y {
      QuotientIs(x + (m - y) % m, m, 0);
    } else {
      QuotientIs(x + (m - y) % m, m, 1);
    }
  }

  /** The highest limb that differs decides. */
  lemma {:induction false} TopDecides(x: seq<Limb>, y: seq<Limb>, i: nat)
    requires i < |x| == |y| && x[i] < y[i] && x[i + 1..] == y[i + 1..]
    ensures Value(x) < Value(y)
    decreases |x|
  {
    var n := |x| - 1;
    if i == n {
      ValueBound(x[..n]);
      MulLe(x[n] + 1, y[n], BasePow(n));
      assert (x[n] + 1) * BasePow(n) == x[n] * BasePow(n) + BasePow(n);
    } else {
      assert x[i + 1..][n - i - 1] == x[n] && y[i + 1..][n - i - 1] == y[n];
      assert x[..n][i + 1..] == x[i + 1..][..n - i - 1] && y[..n][i + 1..] == y[i + 1..][..n - i - 1];
      TopDecides(x[..n], y[..n], i);
    }
  }

  // ---- sizes in bits ----

  /** `r` bits are enough and fewer are not. */
  ghost predicate IsBits(n: nat, r: nat) {
    n < Pow2(r) && (r > 0 ==> Pow2(r - 1) <= n)
  }

  lemma TopBitClear(x: nat, k: nat)
    requires x < Pow2(k + 1) && x / Pow2(k) % 2 != 1
    ensures x < Pow2(k)
  {
    if x >= Pow2(k) {
      assert x < 2 * Pow2(k);
      QuotientIs(x, Pow2(k), 1);
    }
  }

  lemma {:induction false} ZerosAbove(s: seq<Limb>, n: nat)
    requires n <= |s| && forall j | n <= j < |s| :: s[j] == 0
    ensures Value(s) == Value(s[..n])
    decreases |s|
  {
    if n == |s| {
      assert s[..n] == s;
    } else {
      ZerosAbove(s[..|s| - 1], n);
      assert s[..|s| - 1][..n] == s[..n];
    }
  }

  lemma TopLimb(s: seq<Limb>, pos: nat, nbits: nat)
    requires pos < |s| && (forall j | pos < j < |s| :: s[j] == 0) && s[pos] != 0 && nbits < 32
    requires s[pos] < Pow2(nbits + 1) && (nbits == 0 || s[pos] / Pow2(nbits) % 2 == 1)
    ensures IsBits(Value(s), 32 * pos + nbits + 1)
  {
    hide Value, BasePow, Pow2;
    ZerosAbove(s, pos + 1);
    ValueNext(s, pos);
    ValueBound(s[..pos]);
    BasePowIs(pos);
    Pow2Sum(nbits, 32 * pos);
    Pow2Sum(nbits + 1, 32 * pos);
    LeadingBit(s[pos], nbits);
    Scaled(s[pos], Pow2(nbits), Pow2(nbits + 1), BasePow(pos));
  }

  lemma Scaled(x: int, lo: int, hi: int, p: nat)
    requires lo <= x < hi
    ensures lo * p <= x * p && x * p + p <= hi * p
  {
    MulLe(lo, x, p);
    MulLe(x + 1, hi, p);
  }

  lemma LeadingBit(x: nat, k: nat)
    requires x != 0 && (k == 0 || x / Pow2(k) % 2 == 1)
    ensures Pow2(k) <= x
  {
    if x < Pow2(k) {
      QuotientIs(x, Pow2(k), 0);
    }
  }

  lemma NoBits(d: nat, db: nat)
    requires IsBits(d, db)
    ensures db == 0 <==> d == 0
  {
  }

  lemma BitsLess(n: nat, nb: nat, d: nat, db: nat)
    requires IsBits(n, nb) && IsBits(d, db) && nb < db
    ensures d > 0 && n / d == 0
  {
    Pow2Grows(nb, db - 1);
    QuotientIs(n, d, 0);
  }

  /** The two low limbs are the number modulo 2^64. */
  lemma LowTwo(s: seq<Limb>)
    requires |s| >= 2
    ensures Or(s[0], s[1] * BASE) == Value(s) % (BASE * BASE)
  {
    hide Value, BasePow, Or, Pow2;
    LowWords(s[0], s[1]);
    var q := LowLimbs(s, 2);
    ValueNext(s, 0);
    ValueNext(s, 1);
    ValueNone(s);
    SmallBasePows();
    TwoLimbs(s[0], s[1]);
    QuotientIs(Value(s), BASE * BASE, q);
  }

  lemma TwoLimbs(a: Limb, b: Limb)
    ensures 0 <= a + b * BASE < BASE * BASE
  {
  }

  lemma LowWords(a: Limb, b: Limb)
    ensures Or(a, b * BASE) == a + b * BASE
  {
    hide Pow2, Or;
    Pow32();
    OrDisjoint(a, b * BASE, 32);
  }

  // ---- shifting ----

  /** The two shifts of a 32-bit word. */
  function Shr(x: Limb, s: nat): Limb {
    ShrBound(x, Pow2(s));
    x / Pow2(s)
  }

  function Shl(x: Limb, s: nat): Limb {
    x * Pow2(s) % BASE
  }

  lemma ShrBound(x: Limb, m: nat)
    requires m > 0
    ensures 0 <= x / m <= x
  {
    var q, r := x / m, x % m;
    assert x == q * m + r;
    if q < 0 {
      MulLe(q, -1, m);
    } else {
      MulLe(1, m, q);
    }
  }

  lemma ZeroMod(s: nat)
    ensures Pow2(s) >= 1 && 0 % Pow2(s) == 0
  {
  }

  /** A limb times 2^s as a high and a low part that share no bit with their neighbours. */
  lemma LeftParts(x: Limb, s: nat)
    requires s <= 32
    ensures var hi, lo := Shr(x, 32 - s), Shl(x, s);
            && 0 <= hi < Pow2(s) <= BASE && lo % Pow2(s) == 0 && lo + Pow2(s) <= BASE && (s == 0 ==> hi == 0) &&
               (s == 32 ==> lo == 0)
            && x * Pow2(s) == hi * BASE + lo
  {
    hide Pow2;
    Pow32();
    Pow2Sum(s, 32 - s);
    PowZero();
    Parts(x, Pow2(s), Pow2(32 - s));
  }

  lemma PowZero()
    ensures Pow2(0) == 1
  {
  }

  lemma Parts(x: Limb, p: nat, u: nat)
    requires p * u == BASE && p > 0 && u > 0
    ensures 0 <= x / u < p <= BASE && (x * p % BASE) % p == 0 && x * p % BASE + p <= BASE
    ensures x * p == (x / u) * BASE + x * p % BASE && (u == 1 ==> x * p % BASE == 0)
  {
    var hi, r := x / u, x % u;
    PartsProduct(x, hi, r, p, u);
    QuotientIs(x * p, BASE, hi);
    QuotientIs(r * p, p, r);
    PartsBound(x, hi, r, p, u);
  }

  lemma PartsProduct(x: int, hi: int, r: int, p: int, u: int)
    requires p * u == BASE && p > 0 && x == hi * u + r && 0 <= r < u
    ensures x * p == hi * BASE + r * p && 0 <= r * p && r * p + p <= BASE && (r + 1) * p == r * p + p
  {
    assert (hi * u) * p == hi * (p * u);
    MulLe(r + 1, u, p);
  }

  lemma PartsBound(x: int, hi: int, r: int, p: int, u: int)
    requires p * u == BASE && 0 < u && 0 < p && x == hi * u + r && 0 <= r < u && 0 <= x < BASE
    ensures 0 <= hi < p <= BASE
  {
    if hi >= p {
      MulLe(p, hi, u);
    }
    if hi < 0 {
      MulLe(hi, -1, u);
    }
    MulLe(1, u, p);
  }

  /** `num` is the shifted low limbs with `q` whole widths lost. */
  ghost predicate LeftSoFar(x: seq<Limb>, i: nat, shift: nat, num: nat, q: nat, w: nat)
    requires i <= |x|
  {
    Value(x[..i]) * Pow2(shift) == num + q * BasePow(w)
  }

  lemma LeftStarts(x: seq<Limb>, k: nat, s: nat, w: nat)
    ensures LeftSoFar(x, 0, 32 * k + s, 0, 0, w) && Pow2(s) > 0
  {
    ValueNone(x);
  }

  lemma LeftStep(x: seq<Limb>, i: nat, k: nat, s: nat, num: nat, num': nat, q: nat, lost: nat, w: nat)
    requires i < |x| && s < 32 && LeftSoFar(x, i, 32 * k + s, num, q, w)
    requires num' + lost * BasePow(w) == num + Shr(x[i], 32 - s) * BasePow(i + k + 1) + Shl(x[i], s) * BasePow(i + k)
    ensures LeftSoFar(x, i + 1, 32 * k + s, num', q + lost, w)
  {
    hide Value, Pow2, BasePow, Shl, Shr;
    var hi, lo := Shr(x[i], 32 - s), Shl(x[i], s);
    LeftParts(x[i], s);
    ValueNext(x, i);
    BasePowIs(k);
    Pow2Sum(s, 32 * k);
    BasePowSum(i, k);
    BasePowNext(i + k);
    LeftSum(Value(x[..i]), x[i], hi, lo, BasePow(i), Pow2(s), BasePow(k));
    assert (q + lost) * BasePow(w) == q * BasePow(w) + lost * BasePow(w);
  }

  lemma LeftEnds(x: seq<Limb>, shift: nat, s: seq<Limb>, q: nat)
    requires |s| == |x| && LeftSoFar(x, |x|, shift, Value(s), q, |x|)
    ensures Value(s) == Value(x) * Pow2(shift) % BasePow(|x|)
  {
    Whole(x, |x|);
    Wraps(s, q, Value(x) * Pow2(shift));
  }

  lemma LeftSum(v: int, x: int, hi: int, lo: int, a: int, b: int, c: int)
    requires x * b == hi * BASE + lo
    ensures (v + x * a) * (b * c) == v * (b * c) + hi * (BASE * (a * c)) + lo * (a * c)
  {
    Regroup(x, a, b, c);
    MulAssoc(hi, BASE, a * c);
  }

  lemma Regroup(x: int, a: int, b: int, c: int)
    ensures (x * a) * (b * c) == (x * b) * (a * c)
  {
    MulAssoc(x, a, b * c);
    MulAssoc(a, b, c);
    MulAssoc(b, a, c);
    MulAssoc(x, b, a * c);
  }

  /** What lies wholly past the top counts whole widths. */
  lemma PastTop(hi: nat, lo: nat, j: nat, w: nat) returns (lost: nat)
    requires j >= w
    ensures lost * BasePow(w) == hi * BasePow(j + 1) + lo * BasePow(j)
  {
    BasePowSum(j + 1 - w, w);
    BasePowSum(j - w, w);
    lost := hi * BasePow(j + 1 - w) + lo * BasePow(j - w);
    TwoTerms(hi * BasePow(j + 1 - w), lo, BasePow(j - w), BasePow(w));
    MulAssoc(hi, BasePow(j + 1 - w), BasePow(w));
  }

  /** A bound on what has fallen off the bottom after `i` limbs. */
  function Fallen(i: nat, k: nat, s: nat): nat {
    if i <= k then BasePow(i) else Pow2(32 * k + s)
  }

  lemma FallenAll(w: nat, k: nat, s: nat)
    ensures Fallen(w, k, s) <= Pow2(32 * k + s)
  {
    if w <= k {
      BasePowIs(w);
      Pow2Grows(32 * w, 32 * k + s);
    }
  }

  lemma FallsWhole(x: seq<Limb>, i: nat, r: int)
    requires i < |x| && 0 <= r < BasePow(i)
    ensures 0 <= r + x[i] * BasePow(i) < BasePow(i + 1)
  {
    MulLe(x[i], BASE - 1, BasePow(i));
    MulLe(0, x[i], BasePow(i));
    assert (BASE - 1) * BasePow(i) == BASE * BasePow(i) - BasePow(i);
  }

  /** The low bits that a shift drops. */
  function CutOff(x: Limb, s: nat): nat {
    x % Pow2(s)
  }

  /** The limb at the cut: its high part stays, its low part falls. */
  lemma FallsPart(x: Limb, s: nat, p: nat, r: int)
    requires 0 <= r < p
    ensures x * p == Shr(x, s) * (Pow2(s) * p) + CutOff(x, s) * p
    ensures 0 <= r + CutOff(x, s) * p < Pow2(s) * p
  {
    hide Pow2;
    CutLimb(x, x / Pow2(s), x % Pow2(s), Pow2(s), p);
    MulLe(0, x % Pow2(s), p);
  }

  lemma CutLimb(x: int, hi: int, lo: int, m: int, p: nat)
    requires x == hi * m + lo && lo < m
    ensures x * p == hi * (m * p) + lo * p && lo * p + p <= m * p
  {
    MulAssoc(hi, m, p);
    MulLe(lo + 1, m, p);
  }

  /** A limb above the cut stays whole, split over two limbs of the result. */
  lemma StaysWhole(x: Limb, s: nat, j: nat, k: nat)
    requires s < 32
    ensures var hi, lo := Shr(x, s), Shl(x, 32 - s);
            x * BasePow(j + 1 + k) == (lo * BasePow(j) + hi * BasePow(j + 1)) * Pow2(32 * k + s)
  {
    hide Pow2, BasePow, Shr, Shl;
    var hi, lo := Shr(x, s), Shl(x, 32 - s);
    LeftParts(x, 32 - s);
    BasePowIs(k);
    Pow2Sum(s, 32 * k);
    Pow2Sum(32 - s, s);
    Pow32();
    ShiftBack(x, hi, lo, Pow2(32 - s), Pow2(s));
    BasePowSum(j, k);
    BasePowSum(j + 1, k);
    BasePowSum(1, j + k);
    BasePowSum(1, j);
    SmallBasePows();
    Regroup(lo, BasePow(j), Pow2(s), BasePow(k));
    Regroup(hi, BasePow(j + 1), Pow2(s), BasePow(k));
    Collect(x, hi, lo, Pow2(s), BasePow(j + k));
  }

  lemma ShiftBack(x: int, hi: int, lo: int, t: int, s: int)
    requires x * t == hi * BASE + lo && t * s == BASE
    ensures x * BASE == (hi * s) * BASE + lo * s
  {
    MulAssoc(x, t, s);
    assert (hi * BASE + lo) * s == (hi * s) * BASE + lo * s;
  }

  lemma Collect(x: int, hi: int, lo: int, s: int, p: int)
    requires x * BASE == (hi * s) * BASE + lo * s
    ensures x * (BASE * p) == (lo * s) * p + (hi * s) * (BASE * p)
  {
    MulAssoc(x, BASE, p);
    MulAssoc(hi * s, BASE, p);
  }

  /** `num` is the low limbs shifted right, and `r` has fallen off. */
  ghost predicate RightSoFar(x: seq<Limb>, i: nat, k: nat, s: nat, num: int, r: int)
    requires i <= |x|
  {
    Value(x[..i]) == num * Pow2(32 * k + s) + r && 0 <= r < Fallen(i, k, s)
  }

  lemma RightStarts(x: seq<Limb>, k: nat, s: nat)
    ensures RightSoFar(x, 0, k, s, 0, 0)
  {
    ValueNone(x);
  }

  lemma RightEnds(x: seq<Limb>, k: nat, s: nat, num: int, r: int)
    requires RightSoFar(x, |x|, k, s, num, r)
    ensures num == Value(x) / Pow2(32 * k + s)
  {
    hide Value, Pow2, BasePow, Fallen;
    Whole(x, |x|);
    FallenAll(|x|, k, s);
    var m := Pow2(32 * k + s);
    assert (num + 1) * m == num * m + m;
    QuotientIs(Value(x), m, num);
  }

  function RightGain(x: Limb, i: nat, k: nat, s: nat): int
    requires s < 32
  {
    (if i > k then Shl(x, 32 - s) * BasePow(i - k - 1) else 0) + (if i >= k then Shr(x, s) * BasePow(i - k) else 0)
  }

  lemma GainIs(x: Limb, i: nat, k: nat, s: nat)
    requires s < 32
    ensures RightGain(x, i, k, s) == (if i > k then Shl(x, 32 - s) * BasePow(i - k - 1) else 0) + (if i >= k
              then Shr(x, s) * BasePow(i - k) else 0)
  {
  }

  lemma RightBelow(x: seq<Limb>, i: nat, k: nat, s: nat, was: int, r: int)
    requires i < |x| && i < k && s < 32 && RightSoFar(x, i, k, s, was, r)
    ensures RightSoFar(x, i + 1, k, s, was + RightGain(x[i], i, k, s), r + x[i] * BasePow(i))
  {
    hide Value, Pow2, BasePow, Shl, Shr;
    ValueNext(x, i);
    FallsWhole(x, i, r);
  }

  lemma RightCut(x: seq<Limb>, k: nat, s: nat, was: int, r: int)
    requires k < |x| && s < 32 && RightSoFar(x, k, k, s, was, r)
    ensures RightSoFar(x, k + 1, k, s, was + RightGain(x[k], k, k, s), r + CutOff(x[k], s) * BasePow(k))
  {
    hide Value, Pow2, BasePow, Shl, Shr;
    ValueNext(x, k);
    BasePowIs(k);
    Pow2Sum(s, 32 * k);
    FallsPart(x[k], s, BasePow(k), r);
    OneBasePow();
    assert RightGain(x[k], k, k, s) == Shr(x[k], s);
    Spread(was, Shr(x[k], s), 0, Pow2(32 * k + s));
  }

  lemma RightAbove(x: seq<Limb>, i: nat, k: nat, s: nat, was: int, r: int)
    requires k < i < |x| && s < 32 && RightSoFar(x, i, k, s, was, r)
    ensures RightSoFar(x, i + 1, k, s, was + RightGain(x[i], i, k, s), r)
  {
    hide Value, Pow2, BasePow, Shl, Shr;
    ValueNext(x, i);
    StaysWhole(x[i], s, i - k - 1, k);
    Spread(was, RightGain(x[i], i, k, s), 0, Pow2(32 * k + s));
  }

  lemma RightTerm(x: seq<Limb>, i: nat, k: nat, s: nat, was: int, r: int) returns (r': int)
    requires i < |x| && s < 32 && RightSoFar(x, i, k, s, was, r)
    ensures RightSoFar(x, i + 1, k, s, was + RightGain(x[i], i, k, s), r')
  {
    hide *;
    if i < k {
      RightBelow(x, i, k, s, was, r);
      r' := r + x[i] * BasePow(i);
    } else if i == k {
      RightCut(x, k, s, was, r);
      r' := r + CutOff(x[i], s) * BasePow(k);
    } else {
      RightAbove(x, i, k, s, was, r);
      r' := r;
    }
  }

  lemma Spread(a: int, b: int, c: int, m: int)
    ensures (a + c + b) * m == a * m + c * m + b * m && (c + b) * m == c * m + b * m && b * m == m * b
  {
  }

  // ---- long division ----

  lemma Aligned(n: nat, nb: nat, d: nat, db: nat, w: nat)
    requires IsBits(n, nb) && IsBits(d, db) && 0 < db <= nb <= 32 * w
    ensures Dividing(n, d, nb - db, 0, n, d * Pow2(nb - db) % BasePow(w))
  {
    hide Pow2, BasePow;
    var s := nb - db;
    Pow2Sum(db, s);
    Pow2Sum(db - 1, s + 1);
    MulLe(Pow2(db - 1), d, Pow2(s + 1));
    BasePowIs(w);
    Pow2Grows(nb, 32 * w);
    Scaled(d, 0, Pow2(db), Pow2(s));
    QuotientIs(d * Pow2(s), BasePow(w), 0);
  }

  /** No bit below `k` is set. */
  ghost predicate ClearBelow(s: seq<Limb>, k: nat) {
    forall j | 0 <= j < |s| :: ClearLimb(s[j], j, k)
  }

  ghost predicate ClearLimb(x: Limb, j: nat, k: nat) {
    (32 * j + 32 <= k ==> x == 0) && (32 * j <= k < 32 * j + 32 ==> x % Pow2(k - 32 * j) == 0)
  }

  lemma NothingBelow(s: seq<Limb>, k: nat)
    requires forall j | 0 <= j < |s| :: s[j] == 0
    ensures ClearBelow(s, k)
  {
    forall j | 0 <= j < |s| ensures ClearLimb(s[j], j, k)
    {
      if 32 * j <= k {
        ZeroMod(k - 32 * j);
      }
    }
  }

  lemma MultipleOfHalf(x: nat, t: nat)
    requires x % Pow2(t + 1) == 0
    ensures x % Pow2(t) == 0 && (x + Pow2(t)) % Pow2(t) == 0 && Pow2(t) < Pow2(t + 1)
  {
    var m, q := Pow2(t), x / Pow2(t + 1);
    assert x == q * (2 * m) == (2 * q) * m;
    QuotientIs(x, m, 2 * q);
    assert (2 * q + 1) * m == (2 * q) * m + m;
    QuotientIs(x + m, m, 2 * q + 1);
  }

  lemma BelowBit(s: seq<Limb>, k: nat)
    requires k < 32 * |s| && ClearBelow(s, k + 1)
    ensures var x, t := s[k / 32], k % 32;
            x % Pow2(t + 1) == 0 && x % Pow2(t) == 0 && (x + Pow2(t)) % Pow2(t) == 0 && x + Pow2(t) < BASE &&
            Pow2(t) < Pow2(t + 1)
  {
    hide Pow2;
    var j, t := k / 32, k % 32;
    var x := s[j];
    assert ClearLimb(x, j, k + 1);
    ZeroMod(t + 1);
    MultipleOfHalf(x, t);
    Pow32();
    Pow2Sum(31 - t, t + 1);
    BelowBase(x, Pow2(31 - t), Pow2(t + 1));
  }

  lemma BelowBase(x: Limb, u: nat, m: nat)
    requires u * m == BASE && m > 0 && x % m == 0
    ensures x + m <= BASE
  {
    var q := x / m;
    assert x == q * m;
    if q >= u {
      MulLe(u, q, m);
    } else {
      MulLe(q + 1, u, m);
    }
  }

  lemma LimbClear(x: Limb, y: Limb, j: nat, k: nat)
    requires ClearLimb(x, j, k + 1) && (j == k / 32 ==> y % Pow2(k % 32) == 0) && (j != k / 32 ==> x == y)
    ensures ClearLimb(y, j, k)
  {
    hide Pow2;
    if 32 * j <= k < 32 * j + 32 {
      assert j == k / 32 && k - 32 * j == k % 32;
    }
  }

  lemma SetBelow(s: seq<Limb>, k: nat)
    requires k < 32 * |s| && ClearBelow(s, k + 1) && s[k / 32] + Pow2(k % 32) < BASE
    ensures ClearBelow(s[k / 32 := s[k / 32] + Pow2(k % 32)], k)
  {
    hide Pow2, ClearLimb;
    var r := s[k / 32 := s[k / 32] + Pow2(k % 32)];
    BelowBit(s, k);
    forall j | 0 <= j < |s| ensures ClearLimb(r[j], j, k)
    {
      LimbClear(s[j], r[j], j, k);
    }
  }

  lemma WeakenBelow(s: seq<Limb>, k: nat)
    requires k < 32 * |s| && ClearBelow(s, k + 1)
    ensures ClearBelow(s, k)
  {
    hide Pow2, ClearLimb;
    BelowBit(s, k);
    forall j | 0 <= j < |s| ensures ClearLimb(s[j], j, k)
    {
      LimbClear(s[j], s[j], j, k);
    }
  }

  /** Long division with the bits from `shift` down still to come. */
  ghost predicate Dividing(n: nat, d: nat, shift: int, q: nat, rest: nat, part: nat)
    requires shift >= -1
  {
    n == q * d + rest && rest < d * Pow2(shift + 1) && (shift >= 0 ==> part == d * Pow2(shift))
  }

  lemma BitValue(k: nat)
    ensures Pow2(k % 32) * BasePow(k / 32) == Pow2(k)
  {
    hide BasePow, Pow2;
    BasePowIs(k / 32);
    Pow2Sum(k % 32, 32 * (k / 32));
  }

  lemma Halves(d: nat, k: nat)
    ensures d * Pow2(k + 1) == 2 * (d * Pow2(k)) && Pow2(1) == 2
    ensures k > 0 ==> d * Pow2(k) / Pow2(1) == d * Pow2(k - 1)
  {
    assert d * (2 * Pow2(k)) == 2 * (d * Pow2(k));
    assert Pow2(1) == 2;
    if k > 0 {
      assert d * (2 * Pow2(k - 1)) == 2 * (d * Pow2(k - 1));
    }
  }

  lemma TakeBit(n: nat, d: nat, shift: nat, q: nat, rest: nat, part: nat)
    requires Dividing(n, d, shift, q, rest, part) && rest >= part
    ensures Dividing(n, d, shift - 1, q + Pow2(shift % 32) * BasePow(shift / 32), rest - part, part / Pow2(1))
  {
    hide Pow2, BasePow;
    BitValue(shift);
    Halves(d, shift);
    Spread(q, Pow2(shift), 0, d);
  }

  lemma LeaveBit(n: nat, d: nat, shift: nat, q: nat, rest: nat, part: nat)
    requires Dividing(n, d, shift, q, rest, part) && rest < part
    ensures Dividing(n, d, shift - 1, q, rest, part / Pow2(1))
  {
    hide Pow2, BasePow;
    Halves(d, shift);
  }

  lemma Divided(n: nat, d: nat, q: nat, rest: nat, part: nat)
    requires d > 0 && Dividing(n, d, -1, q, rest, part)
    ensures q == n / d
  {
    assert rest < d;
    assert (q + 1) * d == q * d + d;
    QuotientIs(n, d, q);
  }
}
