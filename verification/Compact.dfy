/** The compact form of 256-bit targets: a byte count and a 23-bit mantissa, with a sign bit between them. */
module Compact {
  import opened Powers
  import opened Limbs
  import opened Arith

  const MANTISSAS := 0x80_0000
  const WIDTH := 8

  function Pow256(e: nat): (r: nat)
    ensures r >= 1
  {
    if e == 0 then 1 else 256 * Pow256(e - 1)
  }

  lemma {:induction false} Pow256Is(e: nat)
    ensures Pow256(e) == Pow2(8 * e)
  {
    if e > 0 {
      Pow256Is(e - 1);
      var m := 8 * (e - 1);
      Pow2Sum(8, m);
      Pow32();
    }
  }

  lemma {:induction false} Pow256Sum(a: nat, b: nat)
    ensures Pow256(a + b) == Pow256(a) * Pow256(b)
  {
    if a > 0 {
      Pow256Sum(a - 1, b);
      assert Pow256(a + b) == 256 * Pow256((a - 1) + b);
      MulAssoc(256, Pow256(a - 1), Pow256(b));
    }
  }

  lemma {:induction false} Pow256Grows(a: nat, b: nat)
    requires a <= b
    ensures Pow256(a) <= Pow256(b)
  {
    if a < b {
      Pow256Grows(a, b - 1);
    }
  }

  // ---- what a compact word stands for ----

  /** mantissa * 256^(exponent - 3), rounded down, before it is cut to 256 bits. */
  function Decoded(c: nat): nat {
    var size, word := c / 0x100_0000, c % MANTISSAS;
    if size <= 3 then Quotient(word, Pow256(3 - size)) else word * Pow256(size - 3)
  }

  function Quotient(a: nat, m: nat): (r: nat)
    requires m > 0
    ensures r == a / m && r <= a
  {
    QuotientBelow(a, m);
    a / m
  }

  predicate SignBit(c: nat) {
    c / MANTISSAS % 2 == 1
  }

  // ---- rounding to what the format can hold ----

  /** The number with the digits that do not fit a mantissa cleared. */
  function Rounded(x: nat): nat {
    if x < MANTISSAS then x else 256 * Rounded(x / 256)
  }

  lemma {:induction false} RoundedBelow(x: nat)
    ensures Rounded(x) <= x && (x >= MANTISSAS ==> Rounded(x) >= MANTISSAS)
  {
    if x >= MANTISSAS {
      RoundedBelow(x / 256);
    }
  }

  /** No mantissa and exponent lie strictly between the rounded number and the number. */
  lemma {:induction false} RoundedGreatest(x: nat, m: nat, e: nat)
    requires m < MANTISSAS && m * Pow256(e) <= x
    ensures m * Pow256(e) <= Rounded(x)
    decreases e
  {
    RoundedBelow(x);
    if x >= MANTISSAS && e > 0 {
      assert m * (256 * Pow256(e - 1)) == 256 * (m * Pow256(e - 1));
      RoundedGreatest(x / 256, m, e - 1);
    }
  }

  /** Every compact word stands for a mantissa times a power of 256. */
  lemma DecodedForm(c: nat) returns (m: nat, e: nat)
    ensures m < MANTISSAS && Decoded(c) == m * Pow256(e)
  {
    hide Pow256, Quotient;
    var size, word := c / 0x100_0000, c % MANTISSAS;
    if size <= 3 {
      m, e := Quotient(word, Pow256(3 - size)), 0;
      SmallPows();
    } else {
      m, e := word, size - 3;
    }
  }

  lemma QuotientBelow(a: nat, m: nat)
    requires m > 0
    ensures 0 <= a / m <= a
  {
    var q := a / m;
    assert a == q * m + a % m;
    if q < 0 {
      MulLe(q, -1, m);
    } else {
      MulLe(1, m, q);
    }
  }

  // ---- the encoder ----

  function Bytes(x: nat): nat {
    if x == 0 then 0 else 1 + Bytes(x / 256)
  }

  lemma {:induction false} BytesRange(x: nat)
    ensures x < Pow256(Bytes(x)) && (x > 0 ==> Pow256(Bytes(x) - 1) <= x)
  {
    if x > 0 {
      BytesRange(x / 256);
    }
  }

  lemma BytesUnique(x: nat, n: nat)
    requires x < Pow256(n) && (n > 0 ==> Pow256(n - 1) <= x)
    ensures n == Bytes(x)
  {
    BytesRange(x);
    if n < Bytes(x) {
      Pow256Grows(n, Bytes(x) - 1);
    } else if n > Bytes(x) {
      Pow256Grows(Bytes(x), n - 1);
    }
  }

  /** The number of bytes, from the number of bits. */
  lemma BytesFromBits(x: nat, bits: nat)
    requires IsBits(x, bits)
    ensures Bytes(x) == (bits + 7) / 8
  {
    hide Pow2, Pow256, Bytes;
    var n := (bits + 7) / 8;
    Pow256Is(n);
    Pow2Grows(bits, 8 * n);
    if n > 0 {
      Pow256Is(n - 1);
      Pow2Grows(8 * (n - 1), bits - 1);
    }
    BytesUnique(x, n);
  }

  /** The three leading bytes. */
  function Leading(x: nat): nat {
    var n := Bytes(x);
    if n <= 3 then x * Pow256(3 - n) else Quotient(x, Pow256(n - 3))
  }

  /** Byte count and mantissa; a mantissa that would reach the sign bit is moved down a byte. */
  function Mantissa(x: nat): nat {
    if Leading(x) >= MANTISSAS then Leading(x) / 256 else Leading(x)
  }

  function Exponent(x: nat): nat {
    if Leading(x) >= MANTISSAS then Bytes(x) + 1 else Bytes(x)
  }

  function Encoded(x: nat, negative: bool): nat {
    Exponent(x) * 0x100_0000 + (if negative && Mantissa(x) != 0 then MANTISSAS else 0) + Mantissa(x)
  }

  lemma LeadingRange(x: nat)
    ensures Leading(x) < 0x100_0000 && (x > 0 ==> Leading(x) >= 0x1_0000) && (x == 0 ==> Leading(x) == 0)
  {
    var n := Bytes(x);
    BytesRange(x);
    if n <= 3 {
      SmallPows();
    } else {
      Pow256Sum(3, n - 3);
      Pow256Sum(2, n - 3);
      SmallPows();
      QuotientRange(x, Pow256(n - 3), 0x1_0000, 0x100_0000);
    }
  }

  lemma SmallPows()
    ensures Pow256(0) == 1 && Pow256(1) == 256 && Pow256(2) == 0x1_0000 && Pow256(3) == 0x100_0000
  {
  }

  lemma QuotientRange(x: nat, m: nat, lo: nat, hi: nat)
    requires m > 0 && lo * m <= x < hi * m
    ensures lo <= x / m < hi
  {
    var q := x / m;
    assert x == q * m + x % m;
    if q < lo {
      MulLe(q + 1, lo, m);
    } else if q >= hi {
      MulLe(hi, q, m);
    }
  }

  lemma MantissaRange(x: nat)
    ensures Mantissa(x) < MANTISSAS && (Mantissa(x) == 0 <==> x == 0)
  {
    hide Leading;
    LeadingRange(x);
  }

  /** Dropping low bytes down to a mantissa is the rounding, wherever the mantissa ends. */
  lemma {:induction false} RoundedAt(x: nat, e: nat)
    requires x / Pow256(e) < MANTISSAS && (e > 0 ==> x / Pow256(e - 1) >= MANTISSAS)
    ensures Rounded(x) == x / Pow256(e) * Pow256(e)
    decreases e
  {
    hide Pow256;
    SmallPows();
    if e > 0 {
      DivideTwice(x, e);
      QuotientBelow(x, Pow256(e - 1));
      if e > 1 {
        DivideTwice(x, e - 1);
      }
      RoundedAt(x / 256, e - 1);
      NextPow(x / Pow256(e), e);
    }
  }

  lemma NextPow(q: nat, e: nat)
    requires e > 0
    ensures 256 * (q * Pow256(e - 1)) == q * Pow256(e)
  {
    assert q * (256 * Pow256(e - 1)) == 256 * (q * Pow256(e - 1));
  }

  lemma DivideTwice(x: nat, e: nat)
    requires e > 0
    ensures x / 256 / Pow256(e - 1) == x / Pow256(e)
  {
    var m, y := Pow256(e - 1), x / 256;
    var q := y / m;
    NestedQuotient(x, y, q, m);
    QuotientIs(x, 256 * m, q);
  }

  lemma NestedQuotient(x: int, y: int, q: int, m: int)
    requires m > 0 && q * m <= y < (q + 1) * m && 256 * y <= x < 256 * y + 256
    ensures q * (256 * m) <= x < (q + 1) * (256 * m)
  {
    assert q * (256 * m) == 256 * (q * m) && (q + 1) * (256 * m) == 256 * ((q + 1) * m);
  }

  /** Decoding an encoded number gives the number rounded down to what the format can hold. */
  lemma EncodedMeaning(x: nat, negative: bool)
    ensures Decoded(Encoded(x, negative)) == Rounded(x)
    ensures SignBit(Encoded(x, negative)) <==> negative && x != 0
  {
    hide Leading, Bytes, Rounded, Pow256;
    MantissaRange(x);
    var n, m := Exponent(x), Mantissa(x);
    var c := Encoded(x, negative);
    Fields(n, negative && m != 0, m);
    assert c / 0x100_0000 == n && c % MANTISSAS == m;
    MantissaRounds(x);
  }

  lemma Fields(n: nat, sign: bool, m: nat)
    requires m < MANTISSAS
    ensures var c := n * 0x100_0000 + (if sign then MANTISSAS else 0) + m;
            c / 0x100_0000 == n && c % MANTISSAS == m && (SignBit(c) <==> sign)
  {
    var c := n * 0x100_0000 + (if sign then MANTISSAS else 0) + m;
    var h := 2 * n + if sign then 1 else 0;
    assert c == h * MANTISSAS + m;
    QuotientIs(c, MANTISSAS, h);
    QuotientIs(c, 0x100_0000, n);
  }

  lemma MantissaRounds(x: nat)
    ensures var n, m := Exponent(x), Mantissa(x);
            Rounded(x) == if n <= 3 then m / Pow256(3 - n) else m * Pow256(n - 3)
  {
    LeadingRange(x);
    BytesRange(x);
    var n := Bytes(x);
    SmallPows();
    if n <= 3 {
      RoundedSmall(x);
    } else {
      var e := n - 3;
      ShorterIsLarge(x, n);
      if Leading(x) >= MANTISSAS {
        DivideLast(x, e);
        RoundedAt(x, e + 1);
      } else {
        RoundedAt(x, e);
      }
    }
  }

  lemma RoundedSmall(x: nat)
    requires Bytes(x) <= 3
    ensures var n, m := Exponent(x), Mantissa(x);
            Rounded(x) == if n <= 3 then m / Pow256(3 - n) else m * Pow256(n - 3)
  {
    hide Pow256, Bytes;
    SmallPows();
    BytesRange(x);
    assert x >= MANTISSAS ==> Rounded(x / 256) == x / 256;
  }

  /** One byte fewer removed leaves more than a mantissa. */
  lemma ShorterIsLarge(x: nat, n: nat)
    requires n > 3 && Pow256(n - 1) <= x
    ensures x / Pow256(n - 4) >= MANTISSAS
  {
    hide Pow256;
    Pow256Sum(3, n - 4);
    SmallPows();
    QuotientRange(x, Pow256(n - 4), 0x100_0000, x + 1);
  }

  lemma DivideLast(x: nat, e: nat)
    ensures x / Pow256(e) / 256 == x / Pow256(e + 1)
  {
    var m := Pow256(e);
    var y := x / m;
    var q := y / 256;
    LastQuotient(x, y, q, m);
    QuotientIs(x, 256 * m, q);
  }

  lemma LastQuotient(x: int, y: int, q: int, m: int)
    requires m > 0 && q * 256 <= y < q * 256 + 256 && y * m <= x < y * m + m
    ensures q * (256 * m) <= x < (q + 1) * (256 * m)
  {
    MulLe(q * 256, y, m);
    MulLe(y + 1, (q + 1) * 256, m);
  }

  // ---- what encoding and decoding promise together ----

  /** The result is the largest value some compact word stands for that is not above the number. */
  lemma LargestRepresentable(x: nat, c: nat)
    ensures Rounded(x) <= x && Decoded(Encoded(x, false)) == Rounded(x) && !SignBit(Encoded(x, false))
    ensures Decoded(c) <= x ==> Decoded(c) <= Rounded(x)
  {
    hide Decoded, Encoded, Rounded;
    EncodedMeaning(x, false);
    RoundedBelow(x);
    if Decoded(c) <= x {
      var m, e := DecodedForm(c);
      RoundedGreatest(x, m, e);
    }
  }

  /** What a compact word stands for survives another trip. */
  lemma DecodedIsFixed(c: nat)
    ensures Rounded(Decoded(c)) == Decoded(c)
  {
    hide Decoded, Rounded;
    LargestRepresentable(Decoded(c), c);
  }

  lemma RoundedMonotone(x: nat, y: nat)
    requires x <= y
    ensures Rounded(x) <= Rounded(y) && Rounded(Rounded(x)) == Rounded(x)
  {
    hide Decoded, Rounded, Encoded;
    LargestRepresentable(x, 0);
    LargestRepresentable(y, Encoded(x, false));
    DecodedIsFixed(Encoded(x, false));
  }

  // ---- the two conversions on limbs ----

  lemma Width256()
    ensures BasePow(WIDTH) == Pow256(32)
  {
    hide Pow2, Pow256, BasePow;
    BasePowIs(WIDTH);
    Pow256Is(32);
  }

  lemma Cancel(a: nat, b: nat, p: nat)
    requires p > 0
    ensures a * p >= b * p <==> a >= b
  {
    if a >= b {
      MulLe(b, a, p);
    } else {
      MulLe(a + 1, b, p);
      assert (a + 1) * p == a * p + p;
    }
  }

  /** The overflow test looks at the byte count and the leading mantissa bytes only. */
  lemma OverflowTest(size: nat, word: nat)
    requires size > 3 && word < MANTISSAS
    ensures word * Pow256(size - 3) >= Pow256(32) <==>
            word != 0 && (size > 34 || (word > 0xff && size > 33) || (word > 0xffff && size > 32))
  {
    hide Pow256;
    var p := Pow256(size - 3);
    if size >= 35 {
      Pow256Grows(32, size - 3);
      if word > 0 {
        MulLe(1, word, p);
      }
    } else {
      Pow256Sum(35 - size, size - 3);
      Cancel(word, Pow256(35 - size), p);
      SmallPows();
      if size <= 32 {
        Pow256Grows(3, 35 - size);
      }
    }
  }

  lemma SmallNeverOverflows(word: nat)
    requires word < MANTISSAS
    ensures word < Pow256(32)
  {
    hide Pow256;
    Pow256Grows(3, 32);
    SmallPows();
  }

  /** The flags are exact: negative for a nonzero value with the sign bit, overflow when the value needs more than 256
      bits. */
  method SetCompact(t: BaseUint, c: nat) returns (negative: bool, overflow: bool)
    requires t.pn.Length == WIDTH
    modifies t.pn
    ensures t.Num() == Decoded(c) % BasePow(WIDTH)
    ensures negative <==> Decoded(c) != 0 && SignBit(c)
    ensures overflow <==> Decoded(c) >= BasePow(WIDTH)
  {
    hide Pow2, Pow256, BasePow, Decoded, Quotient, SignBit, Bytes, Leading, Mantissa, Exponent, Encoded, Or, IsBits,
         BaseUint.Num;
    var size, word := c / 0x100_0000, c % MANTISSAS;
    DecodedIs(c);
    Width256();
    if size <= 3 {
      Pow256Is(3 - size);
      word := Quotient(word, Pow2(8 * (3 - size)));
      t.Set64(word);
      SmallNeverOverflows(word);
      QuotientIs(word, BasePow(WIDTH), 0);
    } else {
      t.Set64(word);
      t.ShiftLeft(8 * (size - 3));
      Pow256Is(size - 3);
      OverflowTest(size, word);
      ProductZero(word, Pow256(size - 3));
    }
    negative := word != 0 && SignBit(c);
    overflow := word != 0 && (size > 34 || (word > 0xff && size > 33) || (word > 0xffff && size > 32));
  }

  lemma DecodedIs(c: nat)
    ensures var size, word := c / 0x100_0000, c % MANTISSAS;
            Decoded(c) == if size <= 3 then Quotient(word, Pow256(3 - size)) else word * Pow256(size - 3)
    ensures 0 <= c / 0x100_0000 && 0 <= c % MANTISSAS < MANTISSAS < BASE * BASE
  {
  }

  lemma ProductZero(a: nat, p: nat)
    requires p > 0
    ensures a * p == 0 <==> a == 0
  {
    if a > 0 {
      MulLe(1, a, p);
    }
  }

  /** The byte count and the three leading bytes, as a 32-bit word. */
  method LeadingBytes(t: BaseUint) returns (size: nat, c: nat)
    requires t.pn.Length == WIDTH
    ensures size == Bytes(t.Num()) <= 32 && c == Leading(t.Num())
  {
    hide Pow2, Pow256, Bytes, Leading, IsBits, BaseUint.Num;
    ghost var x := t.Num();
    var bits := t.Bits();
    size := (bits + 7) / 8;
    BytesFromBits(x, bits);
    LeadingRange(x);
    LeadingIs(x);
    if size <= 3 {
      var low := t.Low64();
      c := low * Pow2(8 * (3 - size)) % BASE;
      Pow256Is(3 - size);
      SmallLow(x, Pow256(3 - size));
    } else {
      var bn := new BaseUint.Copy(t);
      bn.ShiftRight(8 * (size - 3));
      Pow256Is(size - 3);
      var low := bn.Low64();
      c := low % BASE;
      LowWord(bn.Num());
    }
  }

  method GetCompact(t: BaseUint, negative: bool) returns (c: nat)
    requires t.pn.Length == WIDTH
    ensures c == Encoded(t.Num(), negative)
  {
    hide Bytes, Leading, Mantissa, Exponent, Encoded, Or, BaseUint.Num;
    ghost var x := t.Num();
    var size;
    size, c := LeadingBytes(t);
    LeadingRange(x);
    if c / MANTISSAS % 2 == 1 {
      c := c / 256;
      size := size + 1;
    }
    EncodedIs(x, negative);
    MantissaRange(x);
    SizeFits(size, c);
    c := Or(c, size * 0x100_0000);
    if negative && c % MANTISSAS != 0 {
      SignFits(size, Mantissa(x));
      c := Or(c, MANTISSAS);
    }
  }

  lemma LeadingIs(x: nat)
    ensures var n := Bytes(x); Leading(x) == if n <= 3 then x * Pow256(3 - n) else x / Pow256(n - 3)
  {
  }

  lemma SmallLow(x: nat, p: nat)
    requires p > 0 && x * p < 0x100_0000
    ensures x % (BASE * BASE) * p % BASE == x * p
  {
    MulLe(1, p, x);
    assert x % (BASE * BASE) == x;
  }

  lemma LowWord(q: nat)
    requires q < 0x100_0000
    ensures q % (BASE * BASE) % BASE == q
  {
  }

  lemma EncodedIs(x: nat, negative: bool)
    ensures Encoded(x, negative) == Exponent(x) * 0x100_0000 + (if negative &&
              Mantissa(x) != 0 then MANTISSAS else 0) + Mantissa(x)
    ensures Mantissa(x) == if Leading(x) >= MANTISSAS then Leading(x) / 256 else Leading(x)
    ensures Exponent(x) == if Leading(x) >= MANTISSAS then Bytes(x) + 1 else Bytes(x)
  {
  }

  /** The two assertions of the encoder: the mantissa leaves the sign bit free, and the byte count fits its byte. */
  lemma SizeFits(size: nat, m: nat)
    requires size <= 33 && m < MANTISSAS
    ensures size < 256 && Or(m, size * 0x100_0000) == size * 0x100_0000 + m && (size * 0x100_0000 + m) % MANTISSAS == m
  {
    hide Pow2, Or;
    Pow32();
    OrDisjoint(m, size * 0x100_0000, 24);
  }

  lemma SignFits(size: nat, m: nat)
    requires m < MANTISSAS
    ensures Or(size * 0x100_0000 + m, MANTISSAS) == size * 0x100_0000 + MANTISSAS + m
  {
    hide Or;
    Pow23();
    OrBesides(m, MANTISSAS, size, 24);
    OrDisjoint(m, MANTISSAS, 23);
  }

  lemma Pow23()
    ensures Pow2(23) == MANTISSAS && Pow2(24) == 0x100_0000
  {
    hide Pow2;
    Pow32();
    Halves(1, 23);
  }

  /** "Or" below a multiple of 2^s leaves the multiple alone. */
  lemma {:induction false} OrBesides(x: nat, y: nat, h: nat, s: nat)
    requires x < Pow2(s) && y < Pow2(s)
    ensures Or(h * Pow2(s) + x, y) == h * Pow2(s) + Or(x, y)
    decreases s
  {
    if s == 0 {
      OrZero(h);
    } else {
      var m := Pow2(s - 1);
      assert h * Pow2(s) == 2 * (h * m);
      OrBesides(x / 2, y / 2, h, s - 1);
    }
  }

  /** Encoding and decoding in place: the largest representable value not above the number, with neither flag set. */
  method Requantize(t: BaseUint) returns (negative: bool, overflow: bool)
    requires t.pn.Length == WIDTH
    modifies t.pn
    ensures t.Num() == Rounded(old(t.Num())) && !negative && !overflow
  {
    hide Encoded, Decoded, Rounded, Value, BasePow;
    ghost var x := t.Num();
    ValueBound(t.pn[..]);
    var c := GetCompact(t, false);
    LargestRepresentable(x, c);
    negative, overflow := SetCompact(t, c);
    QuotientIs(Rounded(x), BasePow(WIDTH), 0);
  }
}
