/** The work a block adds to its chain, with the bonus rules for Hive and proof-of-work blocks. */
module BlockProof {
  import opened Powers
  import opened Limbs
  import opened Arith
  import opened Compact

  /** What the rules look at in one block; a chain lists them from the genesis block up. */
  datatype Header = Header(bits: nat, hive: bool, hiveDifficulty: real)

  datatype Params = Params(maxKPow: nat, powSplit1: real, powSplit2: real)

  // ---- the work of one target ----

  /** The expected number of hashes for a target. */
  ghost function Work(t: nat): nat {
    BasePow(WIDTH) / (t + 1)
  }

  /** The quotient without the unrepresentable 2^256. */
  lemma WorkIs(t: nat)
    requires t < BasePow(WIDTH)
    ensures (BasePow(WIDTH) - 1 - t) / (t + 1) + 1 == Work(t)
  {
    hide BasePow;
    var q := (BasePow(WIDTH) - 1 - t) / (t + 1);
    assert (q + 1) * (t + 1) == q * (t + 1) + (t + 1) && (q + 2) * (t + 1) == (q + 1) * (t + 1) + (t + 1);
    QuotientIs(BasePow(WIDTH), t + 1, q + 1);
  }

  /** ~t / (t + 1) + 1 on limbs. */
  method TargetWork(target: BaseUint) returns (r: BaseUint)
    requires target.pn.Length == WIDTH && 0 < target.Num() < BasePow(WIDTH) - 1
    ensures fresh(r) && fresh(r.pn) && r.pn.Length == WIDTH && r.Num() == Work(target.Num())
    ensures 1 <= r.Num() && 2 * r.Num() <= BasePow(WIDTH)
  {
    hide BasePow, BaseUint.Num, Work;
    ghost var t := target.Num();
    var one := new BaseUint(WIDTH);
    one.Set64(1);
    r := target.Complement();
    var below := new BaseUint.Copy(target);
    below.Add(one);
    NoWrap(t + 1);
    var ok := r.Divide(below);
    WorkSum(t, r.Num());
    r.Add(one);
  }

  lemma NoWrap(x: nat)
    requires x < BasePow(WIDTH)
    ensures x % BasePow(WIDTH) == x
  {
    hide BasePow;
    QuotientIs(x, BasePow(WIDTH), 0);
  }

  lemma WorkSum(t: nat, q: nat)
    requires 0 < t < BasePow(WIDTH) && q == (BasePow(WIDTH) - 1 - t) / (t + 1)
    ensures (q + 1) % BasePow(WIDTH) == Work(t)
    ensures 1 <= Work(t) && 2 * Work(t) <= BasePow(WIDTH)
  {
    hide BasePow, Work;
    WorkIs(t);
    WorkRange(t);
    NoWrap(q + 1);
  }

  lemma WorkRange(t: nat)
    requires 0 < t < BasePow(WIDTH)
    ensures 1 <= Work(t) && 2 * Work(t) <= BasePow(WIDTH)
    ensures t > 1 ==> 2 * Work(t) < BasePow(WIDTH)
    ensures Work(t) * t < BasePow(WIDTH)
  {
    hide BasePow;
    QuotientFacts(BasePow(WIDTH), t, Work(t));
  }

  lemma QuotientFacts(b: nat, t: nat, w: nat)
    requires 0 < t < b && w == b / (t + 1)
    ensures 1 <= w && 2 * w <= b && (t > 1 ==> 2 * w < b) && w * t < b
  {
    MulLe(1, t + 1, b + 1);
    QuotientRange(b, t + 1, 1, b + 1);
    ProductFacts(b, t, w, b % (t + 1));
  }

  lemma ProductFacts(b: int, t: int, w: int, r: int)
    requires b == w * (t + 1) + r && 0 <= r && 0 < t && 1 <= w
    ensures 2 * w <= b && (t > 1 ==> 2 * w < b) && w * t < b
  {
    assert w * (t + 1) == w * t + w;
    MulLe(1, t, w);
    if t > 1 {
      MulLe(2, t, w);
    }
  }

  /** The target a header announces, when it is one. */
  ghost predicate Targets(bits: nat) {
    0 < Decoded(bits) < BasePow(WIDTH) && !SignBit(bits)
  }

  ghost function HeaderWork(bits: nat): nat {
    if Targets(bits) then Work(Decoded(bits)) else 0
  }

  /** No compact word stands for the largest 256-bit number. */
  lemma NeverAllOnes(bits: nat)
    requires Decoded(bits) < BasePow(WIDTH)
    ensures Decoded(bits) < BasePow(WIDTH) - 1
  {
    hide Decoded, BasePow, Pow256;
    var m, e := DecodedForm(bits);
    Width256();
    if e == 0 {
      SmallPows();
      Pow256Grows(3, 32);
    } else {
      EvenPow(32);
      NextPow(m, e);
    }
  }

  lemma EvenPow(e: nat)
    requires e > 0
    ensures Pow256(e) == 256 * Pow256(e - 1)
  {
  }

  method HeaderProof(bits: nat) returns (r: BaseUint)
    ensures fresh(r) && fresh(r.pn) && r.pn.Length == WIDTH && r.Num() == HeaderWork(bits)
  {
    hide BasePow, BaseUint.Num, Decoded, SignBit, Work;
    r := new BaseUint(WIDTH);
    var target := new BaseUint(WIDTH);
    var negative, overflow := SetCompact(target, bits);
    if !overflow {
      QuotientIs(Decoded(bits), BasePow(WIDTH), 0);
    }
    var c := target.CompareTo(r);
    if negative || overflow || c == 0 {
      return;
    }
    NeverAllOnes(bits);
    r := TargetWork(target);
  }

  // ---- the rules ----

  /** The last proof-of-work block among the first `n`, as a count; zero if there is none. */
  function LastPow(chain: seq<Header>, n: nat): (r: nat)
    requires n <= |chain|
    ensures r <= n && (r > 0 ==> !chain[r - 1].hive) && forall i | r <= i < n :: chain[i].hive
  {
    if n == 0 || !chain[n - 1].hive then n else LastPow(chain, n - 1)
  }

  /** The proof-of-work blocks in a row at the end of the first `n`, counted up to `max`. */
  function SinceHive(chain: seq<Header>, n: nat, max: nat): (r: nat)
    requires n <= |chain|
    ensures r <= max && r <= n && (forall i | n - r <= i < n :: !chain[i].hive) &&
              (r < max && r < n ==> chain[n - r - 1].hive)
  {
    if n == 0 || max == 0 || chain[n - 1].hive then 0 else 1 + SinceHive(chain, n - 1, max - 1)
  }

  function LastDifficulty(chain: seq<Header>, n: nat, max: nat): real
    requires n <= |chain|
  {
    var r := SinceHive(chain, n, max);
    if r < max && r < n then chain[n - r - 1].hiveDifficulty else 0.0
  }

  /** The factor for a proof-of-work block: it falls with the distance to the last Hive block and its difficulty. */
  function Scale(p: Params, since: nat, difficulty: real): (k: nat)
    requires since <= p.maxKPow
    ensures 1 <= k && (k <= p.maxKPow - since || k == 1)
  {
    var k0 := p.maxKPow - since;
    var k1 := if difficulty < p.powSplit1 then k0 / 2 else k0;
    var k2 := if difficulty < p.powSplit2 then k1 / 2 else k1;
    if k2 < 1 then 1 else k2
  }

  /** The proof before it is cut to 256 bits. */
  ghost function Proof(chain: seq<Header>, p: Params, hive11: bool): nat
    requires chain != []
  {
    var n := |chain| - 1;
    var own := HeaderWork(chain[n].bits);
    if n == 0 || own == 0 then 0
    else if chain[n].hive then
      var r := LastPow(chain, n);
      own + if r > 0 then HeaderWork(chain[r - 1].bits) else 0
    else if hive11 then own * Scale(p, SinceHive(chain, n, p.maxKPow), LastDifficulty(chain, n, p.maxKPow))
    else own
  }

  method GetBlockProof(chain: seq<Header>, p: Params, hive11: bool) returns (r: BaseUint)
    requires chain != [] && p.maxKPow < BASE
    ensures fresh(r) && fresh(r.pn) && r.pn.Length == WIDTH
    ensures r.Num() == Proof(chain, p, hive11) % BasePow(WIDTH)
  {
    hide BasePow, BaseUint.Num, HeaderWork, Scale;
    var n := |chain| - 1;
    OwnWork(chain[n].bits);
    if n == 0 {
      r := new BaseUint(WIDTH);
      return;
    }
    var zero := new BaseUint(WIDTH);
    r := HeaderProof(chain[n].bits);
    var c := r.CompareTo(zero);
    if c == 0 {
      return;
    }
    if chain[n].hive {
      var m := FindPow(chain, n);
      if m > 0 {
        var prev := HeaderProof(chain[m - 1].bits);
        r.Add(prev);
      }
    } else if hive11 {
      var k := FindScale(chain, n, p);
      r.MultiplySmall(k);
    }
  }

  /** Walks back over Hive blocks to the last proof-of-work block. */
  method FindPow(chain: seq<Header>, n: nat) returns (m: nat)
    requires n <= |chain|
    ensures m == LastPow(chain, n)
  {
    m := n;
    while m > 0 && chain[m - 1].hive
      invariant 0 <= m <= n && LastPow(chain, n) == LastPow(chain, m)
    {
      m := m - 1;
    }
  }

  /** Walks back over at most maxKPow proof-of-work blocks to the last Hive block, and picks the factor. */
  method FindScale(chain: seq<Header>, n: nat, p: Params) returns (k: nat)
    requires n <= |chain|
    ensures k == Scale(p, SinceHive(chain, n, p.maxKPow), LastDifficulty(chain, n, p.maxKPow))
  {
    hide Scale;
    var m, since, difficulty := n, 0, 0.0;
    while m > 0 && since < p.maxKPow
      invariant 0 <= m <= n && since == n - m <= p.maxKPow && difficulty == 0.0
      invariant SinceHive(chain, n, p.maxKPow) == since + SinceHive(chain, m, p.maxKPow - since)
    {
      if chain[m - 1].hive {
        difficulty := chain[m - 1].hiveDifficulty;
        break;
      }
      m := m - 1;
      since := since + 1;
    }
    k := p.maxKPow - since;
    if difficulty < p.powSplit1 {
      k := k / 2;
    }
    if difficulty < p.powSplit2 {
      k := k / 2;
    }
    if k < 1 {
      k := 1;
    }
    ScaleIs(p, since, difficulty);
  }

  lemma ScaleIs(p: Params, since: nat, difficulty: real)
    requires since <= p.maxKPow
    ensures var k0 := p.maxKPow - since;
            var k1 := if difficulty < p.powSplit1 then k0 / 2 else k0;
            var k2 := if difficulty < p.powSplit2 then k1 / 2 else k1;
            Scale(p, since, difficulty) == if k2 < 1 then 1 else k2
  {
  }

  lemma OwnWork(bits: nat)
    ensures HeaderWork(bits) < BasePow(WIDTH) && HeaderWork(bits) % BasePow(WIDTH) == HeaderWork(bits) &&
            0 % BasePow(WIDTH) == 0
  {
    hide BasePow, Decoded, Work, SignBit;
    if Targets(bits) {
      WorkRange(Decoded(bits));
    }
    QuotientIs(HeaderWork(bits), BasePow(WIDTH), 0);
    QuotientIs(0, BasePow(WIDTH), 0);
  }

  /** What a proof-of-work block's work is multiplied by. */
  ghost function Factor(chain: seq<Header>, p: Params, hive11: bool): (k: nat)
    requires chain != []
    ensures 1 <= k && (k <= p.maxKPow || k == 1)
  {
    var n := |chain| - 1;
    if hive11 then Scale(p, SinceHive(chain, n, p.maxKPow), LastDifficulty(chain, n, p.maxKPow)) else 1
  }

  /** A proof-of-work block counts between once and maxKPow times its work. The product wraps
      exactly for targets that are small beside the factor. */
  lemma PowProofExact(chain: seq<Header>, p: Params, hive11: bool)
    requires |chain| > 1 && !chain[|chain| - 1].hive && 1 <= p.maxKPow < BASE && Targets(chain[|chain| - 1].bits)
    ensures var t := Decoded(chain[|chain| - 1].bits);
            var k := Factor(chain, p, hive11);
            && Work(t) <= Proof(chain, p, hive11) <= p.maxKPow * Work(t)
            && (Proof(chain, p, hive11) >= BasePow(WIDTH) <==>
                 k > t + 1 || (k == t + 1 && BasePow(WIDTH) % (t + 1) == 0))
  {
    hide BasePow, Decoded, SignBit, Work, Scale, SinceHive, LastDifficulty;
    var t, k := Decoded(chain[|chain| - 1].bits), Factor(chain, p, hive11);
    var w := Work(t);
    WorkRange(t);
    assert Proof(chain, p, hive11) == k * w;
    MulLe(1, k, w);
    MulLe(k, p.maxKPow, w);
    WorkWraps(t, k);
  }

  lemma WorkWraps(t: nat, k: nat)
    requires 0 < t < BasePow(WIDTH) && k < BASE
    ensures k * Work(t) >= BasePow(WIDTH) <==> k > t + 1 || (k == t + 1 && BasePow(WIDTH) % (t + 1) == 0)
  {
    hide BasePow;
    WorkRange(t);
    if k > t + 1 {
      WorkOfSmall(t);
    }
    MultipleReaches(BasePow(WIDTH), t + 1, Work(t), BasePow(WIDTH) % (t + 1), k);
  }

  lemma MultipleReaches(b: int, d: int, w: int, r: int, k: int)
    requires b == w * d + r && 0 <= r < d && 0 < w && (k > d ==> w >= d)
    ensures k * w >= b <==> k > d || (k == d && r == 0)
  {
    if k < d {
      MulLe(k, d - 1, w);
      assert (d - 1) * w == w * d - w;
    } else if k > d {
      MulLe(d + 1, k, w);
      assert (d + 1) * w == w * d + w;
    }
  }

  lemma WorkOfSmall(t: nat)
    requires t + 1 < BASE
    ensures Work(t) >= t + 1
  {
    BasePowSum(2, WIDTH - 2);
    assert BasePow(2) == BASE * BASE by {
      assert BasePow(1) == BASE * BasePow(0);
      assert BasePow(2) == BASE * BasePow(1);
    }
    AtLeastSquare(BasePow(WIDTH), t + 1, BasePow(WIDTH - 2));
  }

  lemma AtLeastSquare(b: nat, d: nat, c: nat)
    requires 1 <= d < BASE && c >= 1 && b == BASE * BASE * c
    ensures b / d >= d
  {
    MulLe(1, c, BASE * BASE);
    MulLe(d, BASE, d);
    MulLe(d, BASE, BASE);
    MulLe(1, d, b + 1);
    QuotientRange(b, d, d, b + 1);
  }

  /** A Hive block counts its own work and that of the proof-of-work block behind it; the sum wraps only when both
      targets are 1. */
  lemma HiveProofExact(chain: seq<Header>, p: Params, hive11: bool)
    requires |chain| > 1 && chain[|chain| - 1].hive && Targets(chain[|chain| - 1].bits)
    ensures var n := |chain| - 1;
            var r := LastPow(chain, n);
            Proof(chain, p, hive11) >= BasePow(WIDTH) <==>
              r > 0 && Decoded(chain[n].bits) == 1 && Decoded(chain[r - 1].bits) == 1 && !SignBit(chain[r - 1].bits)
  {
    hide BasePow, Decoded, SignBit, Work;
    var n := |chain| - 1;
    var r := LastPow(chain, n);
    WorkRange(Decoded(chain[n].bits));
    WorkOfOne();
    if r > 0 && Targets(chain[r - 1].bits) {
      WorkRange(Decoded(chain[r - 1].bits));
    }
  }

  lemma WorkOfOne()
    ensures 2 * Work(1) == BasePow(WIDTH) && 1 < BasePow(WIDTH)
  {
    hide BasePow;
    BasePowNext(7);
    var h := 0x8000_0000 * BasePow(7);
    QuotientIs(2 * h, 2, h);
  }
}
