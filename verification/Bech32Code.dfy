/** The Bech32 checksum: division of a list of 5-bit symbols by the generator polynomial, bit-packed in a 32-bit word.
    */
module Bech32Code {
  type Symbols = seq<bv32>

  function Xor(a: bv32, b: bv32): bv32 {
    a ^ b
  }

  /** Adds a multiple of the generator's tail when a bit of the leading symbol is set. */
  function AddIf(r: bv32, c0: bv32, bit: bv32, k: bv32): bv32 {
    if c0 & bit != 0 then Xor(r, k) else r
  }

  function Shifted(c: bv32): bv32 {
    (c & 0x1ffffff) << 5
  }

  function Leading(c: bv32): bv32 {
    c >> 25
  }

  /** The multiple of the generator's tail that the leading symbol calls for. */
  function Reduce(r: bv32, c0: bv32): bv32 {
    var r0 := AddIf(r, c0, 1, 0x3b6a57b2);
    var r1 := AddIf(r0, c0, 2, 0x26508e6d);
    var r2 := AddIf(r1, c0, 4, 0x1ea119fa);
    var r3 := AddIf(r2, c0, 8, 0x3d4233dd);
    AddIf(r3, c0, 16, 0x2a1462b3)
  }

  /** One step: times x, plus the next symbol, modulo the generator. */
  function Step(c: bv32, v: bv32): bv32 {
    Reduce(Xor(Shifted(c), v), Leading(c))
  }

  function From(c: bv32, v: Symbols): bv32 {
    if v == [] then c else Step(From(c, v[..|v| - 1]), v[|v| - 1])
  }

  predicate Five(v: Symbols) {
    forall i | 0 <= i < |v| :: v[i] < 32
  }

  method PolyMod(v: Symbols) returns (c: bv32)
    ensures c == From(1, v)
  {
    hide Step;
    c := 1;
    NoSymbols(1, v);
    for i := 0 to |v|
      invariant c == From(1, v[..i])
    {
      assert v[..i + 1][..i] == v[..i];
      c := NextRemainder(c, v[i]);
    }
    assert v[..|v|] == v;
  }

  method NextRemainder(c: bv32, v: bv32) returns (r: bv32)
    ensures r == Step(c, v)
  {
    hide AddIf;
    var c0 := c >> 25;
    r := ((c & 0x1ffffff) << 5) ^ v;
    r := AddIf(r, c0, 1, 0x3b6a57b2);
    r := AddIf(r, c0, 2, 0x26508e6d);
    r := AddIf(r, c0, 4, 0x1ea119fa);
    r := AddIf(r, c0, 8, 0x3d4233dd);
    r := AddIf(r, c0, 16, 0x2a1462b3);
  }

  lemma NoSymbols(c: bv32, v: Symbols)
    ensures From(c, v[..0]) == c
  {
  }

  // ---- the step is linear and loses nothing ----

  lemma XorPairs(a: bv32, b: bv32, c: bv32, d: bv32)
    ensures Xor(Xor(a, b), Xor(c, d)) == Xor(Xor(a, c), Xor(b, d))
  {
    hide Xor;
    XorAssoc(a, b, Xor(c, d));
    XorAssoc(b, c, d);
    XorComm(b, c);
    XorAssoc(c, b, d);
    XorAssoc(a, c, Xor(b, d));
  }

  lemma XorAssoc(a: bv32, b: bv32, c: bv32)
    ensures Xor(Xor(a, b), c) == Xor(a, Xor(b, c))
  {
  }

  lemma XorComm(a: bv32, b: bv32)
    ensures Xor(a, b) == Xor(b, a)
  {
  }

  lemma XorSelf(k: bv32)
    ensures Xor(k, k) == 0 && Xor(k, 0) == k && Xor(0, k) == k
  {
  }

  /** One of the ten lowest bits. */
  predicate OneHot(bit: bv32) {
    || bit == 1 || bit == 2 || bit == 4 || bit == 8 || bit == 16
    || bit == 32 || bit == 64 || bit == 128 || bit == 256 || bit == 512
  }

  lemma BitLinear(a: bv32, b: bv32, bit: bv32)
    requires OneHot(bit)
    ensures Xor(a, b) & bit != 0 <==> ((a & bit != 0) <==> (b & bit == 0))
  {
    AndLinear(a, b, bit);
    OneBit(a, bit);
    OneBit(b, bit);
    XorSelf(bit);
  }

  lemma AndLinear(a: bv32, b: bv32, m: bv32)
    ensures Xor(a, b) & m == Xor(a & m, b & m)
  {
  }

  lemma OneBit(a: bv32, bit: bv32)
    requires OneHot(bit)
    ensures a & bit == 0 || a & bit == bit
  {
  }

  lemma AddIfLinear(r: bv32, s: bv32, c: bv32, d: bv32, bit: bv32, k: bv32)
    requires OneHot(bit)
    ensures AddIf(Xor(r, s), Xor(c, d), bit, k) == Xor(AddIf(r, c, bit, k), AddIf(s, d, bit, k))
  {
    hide Xor;
    BitLinear(c, d, bit);
    XorPairs(r, s, k, k);
    XorPairs(r, s, k, 0);
    XorPairs(r, s, 0, k);
    XorSelf(k);
    XorSelf(r);
    XorSelf(s);
    XorSelf(Xor(r, s));
  }

  lemma ShiftedLinear(a: bv32, b: bv32)
    ensures Shifted(Xor(a, b)) == Xor(Shifted(a), Shifted(b)) && Leading(Xor(a, b)) == Xor(Leading(a), Leading(b))
  {
  }

  lemma ReduceLinear(r: bv32, s: bv32, c: bv32, d: bv32)
    ensures Reduce(Xor(r, s), Xor(c, d)) == Xor(Reduce(r, c), Reduce(s, d))
  {
    hide AddIf, Xor;
    AddIfLinear(r, s, c, d, 1, 0x3b6a57b2);
    var r0, s0 := AddIf(r, c, 1, 0x3b6a57b2), AddIf(s, d, 1, 0x3b6a57b2);
    AddIfLinear(r0, s0, c, d, 2, 0x26508e6d);
    var r1, s1 := AddIf(r0, c, 2, 0x26508e6d), AddIf(s0, d, 2, 0x26508e6d);
    AddIfLinear(r1, s1, c, d, 4, 0x1ea119fa);
    var r2, s2 := AddIf(r1, c, 4, 0x1ea119fa), AddIf(s1, d, 4, 0x1ea119fa);
    AddIfLinear(r2, s2, c, d, 8, 0x3d4233dd);
    var r3, s3 := AddIf(r2, c, 8, 0x3d4233dd), AddIf(s2, d, 8, 0x3d4233dd);
    AddIfLinear(r3, s3, c, d, 16, 0x2a1462b3);
  }

  lemma StepLinear(a: bv32, b: bv32, v: bv32, w: bv32)
    ensures Step(Xor(a, b), Xor(v, w)) == Xor(Step(a, v), Step(b, w))
  {
    hide Reduce, Shifted, Leading, Xor;
    ShiftedLinear(a, b);
    XorPairs(Shifted(a), Shifted(b), v, w);
    ReduceLinear(Xor(Shifted(a), v), Xor(Shifted(b), w), Leading(a), Leading(b));
  }

  lemma StepRange(c: bv32, v: bv32)
    requires c < 0x4000_0000 && v < 32
    ensures Step(c, v) < 0x4000_0000
  {
  }

  /** The generator has a nonzero constant term, so the step has no kernel. */
  lemma StepKeepsNonzero(c: bv32)
    requires c < 0x4000_0000 && c != 0
    ensures Step(c, 0) != 0
  {
  }

  lemma StepShort(c: bv32, v: bv32)
    requires c < 0x200_0000 && v < 32
    ensures Step(c, v) == (c << 5) ^ v
    ensures Step(c, v) == 0 <==> c == 0 && v == 0
  {
  }

  // ---- lists of symbols ----

  /** Symbol by symbol. */
  function XorAll(v: Symbols, w: Symbols): (r: Symbols)
    requires |v| == |w|
    ensures |r| == |v| && forall i | 0 <= i < |r| :: r[i] == Xor(v[i], w[i])
  {
    seq(|v|, i requires 0 <= i < |v| => Xor(v[i], w[i]))
  }

  lemma {:induction false} FromLinear(a: bv32, b: bv32, v: Symbols, w: Symbols)
    requires |v| == |w|
    ensures From(Xor(a, b), XorAll(v, w)) == Xor(From(a, v), From(b, w))
    decreases |v|
  {
    hide Step, Xor;
    if v != [] {
      var n := |v| - 1;
      FromLinear(a, b, v[..n], w[..n]);
      assert XorAll(v, w)[..n] == XorAll(v[..n], w[..n]);
      StepLinear(From(a, v[..n]), From(b, w[..n]), v[n], w[n]);
    }
  }

  lemma {:induction false} FromAppend(c: bv32, v: Symbols, w: Symbols)
    ensures From(c, v + w) == From(From(c, v), w)
    decreases |w|
  {
    hide Step;
    if w == [] {
      assert v + w == v;
    } else {
      var n := |w| - 1;
      FromAppend(c, v, w[..n]);
      assert (v + w)[..|v + w| - 1] == v + w[..n];
    }
  }

  lemma {:induction false} FromRange(c: bv32, v: Symbols)
    requires c < 0x4000_0000 && Five(v)
    ensures From(c, v) < 0x4000_0000
  {
    hide Step;
    if v != [] {
      FromRange(c, v[..|v| - 1]);
      StepRange(From(c, v[..|v| - 1]), v[|v| - 1]);
    }
  }

  function Zeros(n: nat): (r: Symbols)
    ensures |r| == n && forall i | 0 <= i < n :: r[i] == 0
  {
    seq(n, i => 0)
  }

  /** Trailing zeros move a remainder around and never lose it. */
  lemma {:induction false} ZerosKeepNonzero(c: bv32, n: nat)
    requires c < 0x4000_0000
    ensures From(c, Zeros(n)) < 0x4000_0000 && (From(c, Zeros(n)) == 0 <==> c == 0)
  {
    hide Step;
    if n > 0 {
      ZerosKeepNonzero(c, n - 1);
      assert Zeros(n)[..n - 1] == Zeros(n - 1);
      var d := From(c, Zeros(n - 1));
      if d != 0 {
        StepKeepsNonzero(d);
      }
      StepRange(d, 0);
      StepOfZero();
    }
  }

  lemma StepOfZero()
    ensures Step(0, 0) == 0
  {
  }

  function ShortBound(n: nat): bv32
    requires n <= 6
  {
    if n == 0 then 1 else if n == 1 then 0x20 else if n == 2 then 0x400 else if n == 3 then 0x8000
    else if n == 4 then 0x10_0000 else if n == 5 then 0x200_0000 else 0x4000_0000
  }

  lemma StepShortBound(c: bv32, v: bv32, n: nat)
    requires n < 6 && c < ShortBound(n) && v < 32
    ensures Step(c, v) < ShortBound(n + 1) && (Step(c, v) == 0 <==> c == 0 && v == 0)
  {
    hide Step;
    StepShort(c, v);
    ShortShift(c, v, n);
  }

  lemma ShortShift(c: bv32, v: bv32, n: nat)
    requires n < 6 && c < ShortBound(n) && v < 32
    ensures c < 0x200_0000 && (c << 5) ^ v < ShortBound(n + 1)
  {
  }

  /** Up to six symbols from nothing are just packed: the remainder is zero only when all of them are. */
  lemma {:induction false} ShortNonzero(d: Symbols)
    requires |d| <= 6 && Five(d)
    ensures From(0, d) < ShortBound(|d|) && (From(0, d) == 0 <==> forall i | 0 <= i < |d| :: d[i] == 0)
    decreases |d|
  {
    hide Step, ShortBound;
    BoundOfNone();
    if d != [] {
      var n := |d| - 1;
      ShortNonzero(d[..n]);
      StepShortBound(From(0, d[..n]), d[n], n);
      assert forall i | 0 <= i < n :: d[i] == d[..n][i];
    }
  }

  lemma BoundOfNone()
    ensures 0 < ShortBound(0)
  {
  }

  // ---- error detection ----

  /** The lists agree outside six consecutive positions from `p`. */
  predicate DifferWithin(v: Symbols, w: Symbols, p: nat) {
    |v| == |w| && forall i | 0 <= i < |v| && !(p <= i < p + 6) :: v[i] == w[i]
  }

  lemma XorZero(a: bv32, b: bv32)
    ensures Xor(a, b) == 0 <==> a == b
  {
    hide Xor;
    XorAssoc(a, b, b);
    XorSelf(a);
    XorSelf(b);
  }

  lemma XorFive(a: bv32, b: bv32)
    requires a < 32 && b < 32
    ensures Xor(a, b) < 32
  {
  }

  lemma ShortFits(c: bv32, n: nat)
    requires n <= 6 && c < ShortBound(n)
    ensures c < 0x4000_0000
  {
  }

  /** A difference confined to six consecutive positions leaves a remainder. */
  lemma BurstNonzero(d: Symbols, p: nat, i: nat)
    requires Five(d) && p <= i < p + 6 && i < |d| && d[i] != 0 && forall j | 0 <= j < |d| && !(p <= j < p + 6) ::
               d[j] == 0
    ensures From(0, d) != 0
  {
    hide From, Five;
    var q := if p + 6 <= |d| then p + 6 else |d|;
    var a, b, z := d[..p], d[p..q], d[q..];
    assert a == Zeros(p) && z == Zeros(|d| - q);
    assert b[i - p] == d[i];
    assert d == (a + b) + z;
    FromAppend(0, a + b, z);
    FromAppend(0, a, b);
    ZerosOfZero(p);
    FiveSlice(d, p, q);
    BurstPacked(b, i - p);
    StillNonzero(From(0, b), |d| - q);
  }

  lemma FiveSlice(d: Symbols, p: nat, q: nat)
    requires Five(d) && p <= q <= |d|
    ensures Five(d[p..q])
  {
  }

  lemma ZerosOfZero(n: nat)
    ensures From(0, Zeros(n)) == 0
  {
    ZerosKeepNonzero(0, n);
  }

  /** A nonzero 30-bit remainder. */
  predicate Remains(c: bv32) {
    0 < c < 0x4000_0000
  }

  lemma BurstPacked(b: Symbols, i: nat)
    requires |b| <= 6 && Five(b) && i < |b| && b[i] != 0
    ensures Remains(From(0, b))
  {
    hide From, Five;
    ShortNonzero(b);
    ShortFits(From(0, b), |b|);
  }

  lemma StillNonzero(c: bv32, n: nat)
    requires Remains(c)
    ensures From(c, Zeros(n)) != 0
  {
    hide From;
    ZerosKeepNonzero(c, n);
  }

  lemma DifferenceIs(v: Symbols, w: Symbols)
    requires |v| == |w| && Five(v) && Five(w)
    ensures Five(XorAll(v, w)) && forall j | 0 <= j < |v| :: XorAll(v, w)[j] == 0 <==> v[j] == w[j]
  {
    hide Xor;
    forall j | 0 <= j < |v| ensures XorAll(v, w)[j] < 32 && (XorAll(v, w)[j] == 0 <==> v[j] == w[j])
    {
      XorFive(v[j], w[j]);
      XorZero(v[j], w[j]);
    }
  }

  lemma {:induction false} FirstDifference(v: Symbols, w: Symbols) returns (i: nat)
    requires |v| == |w| && v != w
    ensures i < |v| && v[i] != w[i]
  {
    if v[|v| - 1] != w[|v| - 1] {
      i := |v| - 1;
    } else {
      assert v == v[..|v| - 1] + [v[|v| - 1]] && w == w[..|v| - 1] + [w[|v| - 1]];
      i := FirstDifference(v[..|v| - 1], w[..|v| - 1]);
    }
  }

  /**
   * Lists of any length that differ only inside six consecutive positions have different remainders, so at most one of
   * them verifies.
   */
  lemma BurstDetected(v: Symbols, w: Symbols, p: nat)
    requires Five(v) && Five(w) && DifferWithin(v, w, p) && v != w
    ensures From(1, v) != From(1, w)
  {
    hide From, Xor, Five;
    FromLinear(1, 1, v, w);
    XorSelf(1);
    DifferenceIs(v, w);
    var i := FirstDifference(v, w);
    BurstNonzero(XorAll(v, w), p, i);
    XorZero(From(1, v), From(1, w));
  }

  // ---- the checksum ----

  /** The i-th group: bits 5 * (5 - i) to 5 * (5 - i) + 4. */
  function Group(m: bv32, i: nat): bv32
    requires i < 6
  {
    (if i == 0 then m >> 25 else if i == 1 then m >> 20 else if i == 2 then m >> 15
     else if i == 3 then m >> 10 else if i == 4 then m >> 5 else m) & 31
  }

  /** The six 5-bit groups of a remainder, highest first. */
  function Groups(m: bv32): Symbols {
    [Group(m, 0), Group(m, 1), Group(m, 2), Group(m, 3), Group(m, 4), Group(m, 5)]
  }

  function Checksum(v: Symbols): Symbols {
    Groups(Xor(From(1, v + Zeros(6)), 1))
  }

  lemma GroupAt(m: bv32, i: nat)
    requires i < 6
    ensures |Groups(m)| == 6 && Groups(m)[i] == Group(m, i)
  {
    hide Group;
  }

  method CreateChecksum(v: Symbols) returns (r: Symbols)
    ensures r == Checksum(v)
  {
    hide Groups, Group, From;
    var mod := PolyMod(v + Zeros(6));
    mod := mod ^ 1;
    r := [];
    GroupAt(mod, 0);
    for i := 0 to 6
      invariant r == Groups(mod)[..i]
    {
      GroupAt(mod, i);
      r := r + [Group(mod, i)];
    }
    assert Groups(mod)[..6] == Groups(mod);
  }

  function ShiftIn(c: bv32, v: bv32): bv32 {
    (c << 5) ^ v
  }

  function Pack(g: Symbols): bv32
    requires |g| == 6
  {
    ShiftIn(ShiftIn(ShiftIn(ShiftIn(ShiftIn(ShiftIn(0, g[0]), g[1]), g[2]), g[3]), g[4]), g[5])
  }

  lemma GroupsPack(m: bv32)
    requires m < 0x4000_0000
    ensures Five(Groups(m)) && Pack(Groups(m)) == m
  {
  }

  lemma PackGroups(g: Symbols)
    requires |g| == 6 && Five(g)
    ensures Groups(Pack(g)) == g && Pack(g) < 0x4000_0000
  {
  }

  lemma FromPack(g: Symbols)
    requires |g| == 6 && Five(g)
    ensures From(0, g) == Pack(g)
  {
    hide From, ShiftIn, Five;
    NoSymbols(0, g);
    PackNext(g, 0);
    PackNext(g, 1);
    PackNext(g, 2);
    PackNext(g, 3);
    PackNext(g, 4);
    PackNext(g, 5);
    assert g[..6] == g;
  }

  lemma PackNext(g: Symbols, n: nat)
    requires n < |g| == 6 && Five(g)
    ensures From(0, g[..n + 1]) == ShiftIn(From(0, g[..n]), g[n])
  {
    hide Step, ShortBound, ShiftIn;
    assert g[..n + 1][..n] == g[..n];
    ShortNonzero(g[..n]);
    StepShiftsIn(From(0, g[..n]), g[n], n);
  }

  lemma StepShiftsIn(c: bv32, v: bv32, n: nat)
    requires n < 6 && c < ShortBound(n) && v < 32
    ensures Step(c, v) == ShiftIn(c, v)
  {
    hide Step;
    ShortShift(c, v, n);
    StepShort(c, v);
  }

  /** Appending the checksum makes the remainder one. */
  lemma ChecksumVerifies(v: Symbols)
    requires Five(v)
    ensures Five(Checksum(v)) && |Checksum(v)| == 6 && From(1, v + Checksum(v)) == 1
  {
    hide From, Xor, Groups, Pack, Five;
    RemainderOf(v);
    var m := Xor(From(1, v + Zeros(6)), 1);
    GroupsPack(m);
    LastSix(v, Groups(m));
    FromPack(Groups(m));
    XorAssoc(From(1, v + Zeros(6)), From(1, v + Zeros(6)), 1);
    XorSelf(From(1, v + Zeros(6)));
    XorSelf(1);
  }

  lemma RemainderOf(v: Symbols)
    requires Five(v)
    ensures From(1, v + Zeros(6)) < 0x4000_0000 && Xor(From(1, v + Zeros(6)), 1) < 0x4000_0000 &&
            |Groups(Xor(From(1, v + Zeros(6)), 1))| == 6
  {
    FromRange(1, v + Zeros(6));
    XorOne(From(1, v + Zeros(6)));
  }

  lemma XorOne(c: bv32)
    requires c < 0x4000_0000
    ensures Xor(c, 1) < 0x4000_0000
  {
  }

  /** Six symbols in place of zeros add their packed value to the remainder. */
  lemma LastSix(v: Symbols, g: Symbols)
    requires |g| == 6 && Five(g)
    ensures From(1, v + g) == Xor(From(1, v + Zeros(6)), From(0, g))
  {
    hide Step, Xor;
    var n := |v|;
    var base, extra := v + Zeros(6), Zeros(n) + g;
    forall i | 0 <= i < n + 6 ensures XorAll(base, extra)[i] == (v + g)[i]
    {
      XorSelf((v + g)[i]);
    }
    assert XorAll(base, extra) == v + g;
    FromLinear(1, 0, base, extra);
    XorSelf(1);
    FromAppend(0, Zeros(n), g);
    ZerosKeepNonzero(0, n);
  }

  /** Only the checksum makes the remainder one. */
  lemma ChecksumUnique(v: Symbols, g: Symbols)
    requires Five(v) && Five(g) && |g| == 6 && From(1, v + g) == 1
    ensures g == Checksum(v)
  {
    hide From, Xor, Groups, Pack, Five;
    var m := From(1, v + Zeros(6));
    LastSix(v, g);
    FromPack(g);
    PackGroups(g);
    XorAssoc(m, m, Pack(g));
    XorSelf(m);
    XorSelf(Pack(g));
  }
}
