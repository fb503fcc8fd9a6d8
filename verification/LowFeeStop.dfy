/** What a search that stops at a low fee has left behind, and a pool where that pays. */
module LowFeeStop {
  import opened Collections
  import opened Mempool
  import opened BlockAssembly
  import opened PackageScore
  import opened BlockTemplate

  function PackageRate(m: Modified): Rate {
    Rate(m.fees, m.size)
  }

  function OwnRate(p: Pool, t: Txid): Rate {
    Rate(p.modFee(t), p.size(t))
  }

  /** A transaction that pays less for itself than its package does as a whole. */
  predicate OwnBelow(p: Pool, x: Txid, m: Modified) {
    p.modFee(x) * m.size < m.fees * p.size(x)
  }

  /** An entry of the pool that is neither in the block nor refused. */
  ghost predicate Open(order: seq<Txid>, block: seq<Txid>, k: Track, x: Txid) {
    x in order && x !in block && x !in k.refused
  }

  /** Where a search may stop. */
  ghost predicate Stopped(p: Pool, rules: Rules, order: seq<Txid>, block: seq<Txid>, maxWeight: int, k: Track,
                          t: Txid) {
    p.Valid() && Sorted(p, order) && Tracking(p, rules, block, maxWeight, k) && BestOpen(p, order, block, k, t)
  }

  lemma TotalsSized(p: Pool, rules: Rules, block: seq<Txid>, maxWeight: int, k: Track, t: Txid)
    requires p.Valid() && Tracking(p, rules, block, maxWeight, k) && t in p.txs
    ensures Current(p, k.modified, t).size > 0 && p.size(t) > 0
  {
    hide Total, Pool.Valid, TakenOff, LeftOut;
    var m := Current(p, k.modified, t);
    OwnSize(p, t);
    if t in k.modified {
      assert EntryTracked(p, Elems(block), t, m, k.taken[t]);
      TrackedCounts(p, Elems(block), t, m, k.taken[t]);
      TotalRemove(p.size, p.Package(t) - Elems(block), t);
    } else {
      TotalRemove(p.size, p.Package(t), t);
    }
  }

  /**
   * Everything open has a package rate no higher than the score of the candidate at which the search stopped, and so no
   * higher than that candidate's own package rate, except for transactions whose own rate is below their package's; of
   * those the own rate is no higher.
   */
  lemma OpenRates(p: Pool, rules: Rules, order: seq<Txid>, block: seq<Txid>, maxWeight: int, k: Track, t: Txid, x: Txid)
    requires Stopped(p, rules, order, block, maxWeight, k, t) && Open(order, block, k, x)
    ensures var mt, mx := Current(p, k.modified, t), Current(p, k.modified, x);
            && (!NoBetter(PackageRate(mx), Score(p, t, mt)) ==>
                  OwnBelow(p, x, mx) && NoBetter(OwnRate(p, x), Score(p, t, mt)))
            && (!OwnBelow(p, x, mx) ==>
                  NoBetter(PackageRate(mx), Score(p, t, mt)) && NoBetter(PackageRate(mx), PackageRate(mt)))
  {
    hide Pool.Valid, Tracking, Before;
    var mt, mx := Current(p, k.modified, t), Current(p, k.modified, x);
    TotalsSized(p, rules, block, maxWeight, k, t);
    TotalsSized(p, rules, block, maxWeight, k, x);
    assert NoBetter(Score(p, x, mx), Score(p, t, mt));
    RatesFollow(p, t, mt, x, mx);
  }

  lemma RatesFollow(p: Pool, t: Txid, mt: Modified, x: Txid, mx: Modified)
    requires mt.size > 0 && mx.size > 0 && p.size(t) > 0 && p.size(x) > 0 && NoBetter(Score(p, x, mx), Score(p, t, mt))
    ensures !NoBetter(PackageRate(mx), Score(p, t, mt)) ==>
              OwnBelow(p, x, mx) && NoBetter(OwnRate(p, x), Score(p, t, mt))
    ensures !OwnBelow(p, x, mx) ==>
              NoBetter(PackageRate(mx), Score(p, t, mt)) && NoBetter(PackageRate(mx), PackageRate(mt))
  {
    var own, package, top := OwnRate(p, x), PackageRate(mx), Score(p, t, mt);
    ScoreIsSmaller(p, t, mt);
    ScoreIsSmaller(p, x, mx);
    hide Score, NoBetter;
    if Score(p, x, mx) == own && !OwnBelow(p, x, mx) {
      OwnAbove(own, package);
      NoBetterTrans(package, own, top);
    }
    if !OwnBelow(p, x, mx) {
      NoBetterTrans(package, top, PackageRate(mt));
    }
  }

  lemma OwnAbove(own: Rate, package: Rate)
    requires !(own.fee * package.size < package.fee * own.size)
    ensures NoBetter(package, own)
  {
  }

  /** Where nothing open pays less for itself than its package does, everything else has no higher fee rate. */
  lemma NothingElsePaysMore(p: Pool, rules: Rules, order: seq<Txid>, block: seq<Txid>, maxWeight: int, k: Track,
                            t: Txid)
    requires Stopped(p, rules, order, block, maxWeight, k, t)
    requires forall x | Open(order, block, k, x) :: !OwnBelow(p, x, Current(p, k.modified, x))
    ensures forall x | Open(order, block, k, x) ::
              NoBetter(PackageRate(Current(p, k.modified, x)), PackageRate(Current(p, k.modified, t)))
  {
    hide Stopped, OwnBelow, NoBetter;
    forall x | Open(order, block, k, x)
      ensures NoBetter(PackageRate(Current(p, k.modified, x)), PackageRate(Current(p, k.modified, t)))
    {
      OpenRates(p, rules, order, block, maxWeight, k, t, x);
    }
  }

  // ---- the minimum fee ----

  /** CFeeRate::GetFee for a rate in satoshis per 1000 bytes. */
  function FeeFor(rate: nat, size: int): int {
    var fee := rate * size / 1000;
    if fee == 0 && size != 0 && rate > 0 then 1 else fee
  }

  lemma FeeForBounds(rate: nat, size: nat)
    requires size > 0
    ensures var f := FeeFor(rate, size); 1000 * f <= rate * size || (f == 1 && rate > 0)
    ensures rate * size < 1000 * FeeFor(rate, size) + 1000
    ensures rate > 0 ==> rate * size > 0 && FeeFor(rate, size) >= 1
    ensures rate == 0 ==> FeeFor(rate, size) == 0
  {
    if rate > 0 {
      Scaled(1, rate, size);
    }
  }

  /**
   * A search that stopped at a fee below the minimum leaves a package that pays the minimum rate only behind a
   * transaction whose own rate is below its package's. Any other open package that would pass the test passes by
   * rounding alone: it is smaller, and its fee is the minimum rounded down.
   */
  lemma PayingOpen(p: Pool, rules: Rules, order: seq<Txid>, block: seq<Txid>, maxWeight: int, k: Track, t: Txid,
                   x: Txid, rate: nat)
    requires Stopped(p, rules, order, block, maxWeight, k, t) && Open(order, block, k, x)
    requires var mt := Current(p, k.modified, t); mt.fees < FeeFor(rate, mt.size)
    ensures var mt, mx := Current(p, k.modified, t), Current(p, k.modified, x);
            && (1000 * mx.fees >= rate * mx.size ==> OwnBelow(p, x, mx))
            && (mx.fees >= FeeFor(rate, mx.size) && !OwnBelow(p, x, mx) ==>
                  mx.size < mt.size && mx.fees == rate * mx.size / 1000 && 1000 * mx.fees < rate * mx.size)
  {
    OpenRates(p, rules, order, block, maxWeight, k, t, x);
    assert t in p.txs && x in p.txs && Tracking(p, rules, block, maxWeight, k);
    TotalsSized(p, rules, block, maxWeight, k, t);
    TotalsSized(p, rules, block, maxWeight, k, x);
    hide Stopped, Open, Score, OwnBelow;
    var mt, mx := Current(p, k.modified, t), Current(p, k.modified, x);
    if !OwnBelow(p, x, mx) {
      BelowMinimum(mt.fees, mt.size, mx.fees, mx.size, rate);
    }
  }

  lemma BelowMinimum(f: int, s: int, g: int, u: int, rate: nat)
    requires s > 0 && u > 0 && g * s <= f * u && f < FeeFor(rate, s)
    ensures 1000 * g < rate * u
    ensures g >= FeeFor(rate, u) ==> u < s && g == rate * u / 1000
  {
    FeeForBounds(rate, s);
    FeeForBounds(rate, u);
    var F := FeeFor(rate, u);
    hide FeeFor;
    if f <= 0 {
      NotAbove(f, s, g, u);
    } else {
      Gap(f, s, g, u, rate);
      if g >= F {
        assert rate * u - 1000 * g < 1000;
      }
    }
  }

  lemma NotAbove(f: int, s: int, g: int, u: int)
    requires s > 0 && u > 0 && g * s <= f * u && f <= 0
    ensures g <= 0 && (f < 0 ==> g < 0)
  {
    if g > 0 {
      Scaled(1, g, s);
      Scaled(f, 0, u);
    } else if f < 0 {
      Scaled(f, -1, u);
    }
  }

  lemma Gap(f: int, s: int, g: int, u: int, rate: nat)
    requires s > 0 && u > 0 && g * s <= f * u && 1000 * f <= rate * s - 1000
    ensures rate * u > 1000 * g && (u >= s ==> rate * u - 1000 * g >= 1000)
  {
    var d := rate * u - 1000 * g;
    Scaled(1000 * f, rate * s - 1000, u);
    assert (rate * s - 1000) * u == rate * u * s - 1000 * u;
    assert 1000 * f * u == 1000 * (f * u);
    assert d * s == rate * u * s - 1000 * (g * s);
    assert d * s >= 1000 * u;
    if d <= 0 {
      Scaled(d, 0, s);
    } else if u >= s && d < 1000 {
      Scaled(d, 999, s);
    }
  }

  // ---- a pool where the search stops too early ----

  /** Five transactions of 1000 bytes: 0 alone, and 3 on 1 and 2, which both rest on 4. */
  function Five(): Pool {
    Pool({Txid(0), Txid(1), Txid(2), Txid(3), Txid(4)},
         FiveAnc, t => 1000, t => 4000, t => 0, FiveFee, FiveFee,
         t => 1000 * FiveCount(t), t => 0, FiveFees, FiveCount,
         t => true, t => false, t => false)
  }

  function FiveAnc(t: Txid): set<Txid> {
    if t.hash == 1 || t.hash == 2 then {Txid(4)} else if t.hash == 3 then {Txid(1), Txid(2), Txid(4)} else {}
  }

  function FiveCount(t: Txid): nat {
    if t.hash == 1 || t.hash == 2 then 2 else if t.hash == 3 then 4 else 1
  }

  function FiveFee(t: Txid): int {
    if t.hash == 0 then 1100 else if t.hash == 3 then 900 else if t.hash == 4 then 0 else 2000
  }

  function FiveFees(t: Txid): int {
    if t.hash == 3 then 4900 else FiveFee(t)
  }

  /** The fee for 1000 bytes at each transaction's score. */
  function FiveScore(t: Txid): int {
    if t.hash == 1 || t.hash == 2 then 1000 else FiveFee(t)
  }

  lemma {:induction false} TotalOfEqual(f: Txid -> nat, c: nat, s: set<Txid>)
    requires forall t :: f(t) == c
    ensures Total(f, s) == c * |s|
    decreases |s|
  {
    if s != {} {
      var x := Pick(s);
      TotalOfEqual(f, c, s - {x});
      assert |s| == |s - {x}| + 1;
    }
  }

  lemma FivePackage(t: Txid)
    requires t.hash < 5
    ensures |FiveAnc(t) + {t}| == FiveCount(t) && t !in FiveAnc(t)
    ensures forall a | a in FiveAnc(t) :: a.hash < 5 && FiveAnc(a) <= FiveAnc(t)
  {
    var s := FiveAnc(t) + {t};
    if t.hash == 1 || t.hash == 2 {
      assert s == {t, Txid(4)};
    } else if t.hash == 3 {
      assert s == {Txid(1), Txid(2), Txid(3), Txid(4)};
    } else {
      assert s == {t};
    }
  }

  lemma FiveFeesAdd(t: Txid)
    requires t.hash < 5
    ensures FeeTotal(FiveFee, FiveAnc(t) + {t}) == FiveFees(t)
  {
    hide FeeTotal;
    var s := FiveAnc(t) + {t};
    FeeRemove(FiveFee, s, t);
    if t.hash == 1 || t.hash == 2 {
      assert s - {t} == {Txid(4)};
      OneFee(Txid(4));
    } else if t.hash == 3 {
      FeeRemove(FiveFee, s - {t}, Txid(1));
      FeeRemove(FiveFee, s - {t} - {Txid(1)}, Txid(2));
      assert s - {t} - {Txid(1)} - {Txid(2)} == {Txid(4)};
      OneFee(Txid(4));
    } else {
      assert s - {t} == {};
      NoFee();
    }
  }

  lemma NoFee()
    ensures FeeTotal(FiveFee, {}) == 0
  {
  }

  lemma OneFee(t: Txid)
    ensures FeeTotal(FiveFee, {t}) == FiveFee(t)
  {
    FeeRemove(FiveFee, {t}, t);
    assert {t} - {t} == {};
  }

  lemma FiveEntry(t: Txid)
    requires t.hash < 5
    ensures Five().EntryOk(t)
  {
    hide Total, FeeTotal, FiveAnc, FiveCount, FiveFee, FiveFees;
    var p := Five();
    FivePackage(t);
    TotalOfEqual(p.size, 1000, p.Package(t));
    TotalOfEqual(p.sigOps, 0, p.Package(t));
    FiveFeesAdd(t);
    forall a | a in FiveAnc(t) ensures a in p.txs
    {
      FiveMember(a);
    }
  }

  lemma FiveMember(t: Txid)
    ensures t in Five().txs <==> t.hash < 5
  {
    if t.hash < 5 {
      assert t == Txid(t.hash);
      assert t.hash == 0 || t.hash == 1 || t.hash == 2 || t.hash == 3 || t.hash == 4;
    }
  }

  lemma FiveValid()
    ensures Five().Valid()
  {
    hide Pool.EntryOk;
    forall t | t in Five().txs ensures Five().EntryOk(t)
    {
      FiveMember(t);
      FiveEntry(t);
    }
  }

  lemma FiveScoreIs(t: Txid)
    requires t.hash < 5
    ensures var r := Score(Five(), t, PoolTotals(Five(), t)); r.size > 0 && r.fee * 1000 == FiveScore(t) * r.size
  {
  }

  lemma FiveSorted(a: Txid, b: Txid)
    requires a.hash < b.hash < 5
    ensures Before(Five(), a, PoolTotals(Five(), a), b, PoolTotals(Five(), b))
  {
    hide Score, PoolTotals, Five;
    FiveScoreIs(a);
    FiveScoreIs(b);
    var x, y := Score(Five(), a, PoolTotals(Five(), a)), Score(Five(), b, PoolTotals(Five(), b));
    assert FiveScore(a) >= FiveScore(b);
    RatesCompare(x.fee, x.size, y.fee, y.size, FiveScore(a), FiveScore(b));
  }

  lemma RatesCompare(f: int, s: int, g: int, u: int, a: int, b: int)
    requires s > 0 && u > 0 && f * 1000 == a * s && g * 1000 == b * u && a >= b
    ensures f * u >= s * g
  {
    Scaled(b, a, s * u);
    assert f * u * 1000 == a * (s * u);
    assert s * g * 1000 == b * (s * u);
  }

  function FiveOrder(): seq<Txid> {
    [Txid(0), Txid(1), Txid(2), Txid(3), Txid(4)]
  }

  lemma FiveByScore()
    ensures Sorted(Five(), FiveOrder())
  {
    hide Before, Score;
    var p, order := Five(), FiveOrder();
    forall i, j | 0 <= i < j < |order|
      ensures Before(p, order[i], PoolTotals(p, order[i]), order[j], PoolTotals(p, order[j]))
    {
      FiveSorted(order[i], order[j]);
    }
  }

  const FIVE_WEIGHT := 3996000

  lemma NoneModified(p: Pool, modified: ModifiedMap, taken: Taken)
    requires Tracked(p, {}, modified, taken)
    ensures modified == map[]
  {
    forall d: Txid, m: Modified, off: seq<Txid> ensures !EntryTracked(p, {}, d, m, off)
    {
      if off != [] {
        assert off[0] in off;
      }
    }
    hide EntryTracked;
    assert modified.Keys == {};
  }

  /** Before anything is in the block, nothing has been refused, and every entry has the pool's totals. */
  lemma FiveAtStart(rules: Rules, k: Track)
    requires rules == Rules(true, true) && Tracking(Five(), rules, [], FIVE_WEIGHT, k)
    ensures k.modified == map[] && forall t: Txid | t.hash < 5 :: t !in k.refused
  {
    hide Five, LeftOut, Tracked;
    assert Elems([]) == {};
    NoneModified(Five(), k.modified, k.taken);
    forall t: Txid | t.hash < 5 ensures t !in k.refused
    {
      FiveFits(rules, t);
    }
  }

  lemma FiveTotals(t: Txid)
    requires t.hash < 5
    ensures var p := Five();
            && Total(p.size, p.Package(t)) == 1000 * FiveCount(t) <= 4000 && Total(p.sigOps, p.Package(t)) == 0
            && Total(p.weight, {}) == 0 && Total(p.sigOps, {}) == 0
  {
    hide Total, FiveAnc, FiveCount, FiveFee, FiveFees;
    var p := Five();
    FivePackage(t);
    CountAtMost(t);
    TotalOfEqual(p.size, 1000, p.Package(t));
    TotalOfEqual(p.sigOps, 0, p.Package(t));
    TotalOfEqual(p.sigOps, 0, {});
    TotalOfEqual(p.weight, 4000, {});
  }

  lemma FiveAllowed(t: Txid)
    ensures !Barred(Five(), Rules(true, true), t)
  {
  }

  lemma FiveFits(rules: Rules, t: Txid)
    requires rules == Rules(true, true) && t.hash < 5
    ensures !LeftOut(Five(), rules, [], FIVE_WEIGHT, t)
  {
    hide Total, Five, Barred;
    var p := Five();
    FiveTotals(t);
    FiveAllowed(t);
    var none: seq<Txid> := [];
    assert Elems(none) == {} && p.Package(t) - {} == p.Package(t);
    assert !Overfull(p, {}, FIVE_WEIGHT, t);
    hide Overfull;
    forall k: nat | k <= |none| ensures !Overfull(p, Elems(none[..k]), FIVE_WEIGHT, t)
    {
      assert none[..k] == none;
    }
  }

  lemma CountAtMost(t: Txid)
    ensures FiveCount(t) <= 4
  {
  }

  /** The best open candidate of the empty block is the first one. */
  lemma FiveBest(rules: Rules, k: Track, t: Txid)
    requires rules == Rules(true, true) && Tracking(Five(), rules, [], FIVE_WEIGHT, k) &&
             BestOpen(Five(), FiveOrder(), [], k, t)
    ensures t == Txid(0) && Current(Five(), k.modified, t) == PoolTotals(Five(), Txid(0))
  {
    FiveAtStart(rules, k);
    FiveMember(t);
    hide Tracking;
    var x := Txid(0);
    assert x in FiveOrder();
    FiveScoreIs(t);
    FiveScoreIs(x);
    hide Score, Five;
    var a, b := Score(Five(), x, PoolTotals(Five(), x)), Score(Five(), t, PoolTotals(Five(), t));
    assert NoBetter(a, b);
    ScoresFollow(a.fee, a.size, b.fee, b.size, FiveScore(x), FiveScore(t));
  }

  lemma ScoresFollow(f: int, s: int, g: int, u: int, a: int, b: int)
    requires s > 0 && u > 0 && f * 1000 == a * s && g * 1000 == b * u && f * u <= g * s
    ensures a <= b
  {
    assert a * (s * u) == f * u * 1000;
    assert b * (s * u) == g * s * 1000;
    Scaled(1, s, u);
    Cancel(a, b, s * u);
  }

  /** Nothing is picked: the first pick would be the best candidate, which does not pay. */
  lemma FiveNoPicks(rules: Rules, minFee: int -> int, block: seq<Txid>, picks: seq<Selection>)
    requires rules == Rules(true, true) && minFee(1000) == 1200
    requires PicksOk(Five(), rules, minFee, FiveOrder(), FIVE_WEIGHT, 0, block, picks)
    ensures block == [] && picks == []
  {
    if picks != [] {
      var first := picks[0];
      assert PickOk(Five(), rules, minFee, FiveOrder(), FIVE_WEIGHT, block, first, End(block, picks, 0));
      assert block[..0] == [];
      FiveBest(rules, first.track, first.t);
    }
  }

  lemma FiveEmpty(p: Pool, block: seq<Txid>, inBlock: set<Txid>, weight: int, sigOps: int, fees: int)
    requires TotalsOk(p, block, inBlock, weight, sigOps, fees) && inBlock == {}
    ensures weight == COINBASE_WEIGHT
  {
  }

  /**
   * The search over these five transactions stops at once, with an empty block, because the best score pays 1100 for
   * 1000 bytes. The package of transaction 3, still open, pays 4900 for 4000 bytes, more than the minimum of 1200 for
   * 1000.
   */
  method StopsBeforeAPayingPackage() returns (a: Assembler, ghost k: Track)
    ensures a.Valid() && a.pool == Five() && a.block == []
    ensures Stopped(Five(), a.rules, FiveOrder(), [], FIVE_WEIGHT, k, Txid(0)) && Open(FiveOrder(), [], k, Txid(3))
    ensures var m := Current(Five(), k.modified, Txid(0)); m.fees < FeeFor(1200, m.size)
    ensures var m := Current(Five(), k.modified, Txid(3));
            m.fees >= FeeFor(1200, m.size) && OwnBelow(Five(), Txid(3), m)
  {
    hide Pool.Valid, ContentOk, TotalsOk, Sorted, Tracking, BestOpen, PicksOk, Score;
    FiveValid();
    FiveByScore();
    var rules := Rules(true, true);
    a := new Assembler(Five(), rules, FIVE_WEIGHT, size => FeeFor(1200, size));
    var n, updated, stop;
    ghost var picks;
    n, updated, stop, picks, k := a.AddPackageTxs(FiveOrder());
    FiveNoPicks(a.rules, a.minFee, a.block, picks);
    BlockElems(a.pool, a.rules, a.block, a.inBlock);
    assert a.inBlock == {};
    FiveEmpty(a.pool, a.block, a.inBlock, a.nBlockWeight, a.nBlockSigOpsCost, a.nFees);
    FiveAtStart(rules, k);
    assert FiveOrder()[0] in FiveOrder() && FiveOrder()[3] in FiveOrder();
    FiveBest(rules, k, stop.t);
  }
}
