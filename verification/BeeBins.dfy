/** Sharing the bees of the mature BCTs out over bins, one for each mining thread. */
module BeeBins {
  datatype Bct = Bct(txid: nat, honey: nat, community: bool, count: nat, mature: bool)
  datatype Range = Range(txid: nat, honey: nat, community: bool, offset: nat, count: nat)
  datatype Bee = Bee(txid: nat, number: nat)

  type Bin = seq<Range>

  // ---- the bees of ranges, bins and BCTs, in order ----

  function BeesFrom(txid: nat, offset: nat, count: nat): (r: seq<Bee>)
    ensures |r| == count
  {
    seq(count, k requires 0 <= k < count => Bee(txid, offset + k))
  }

  function RangeBees(r: Range): seq<Bee> {
    BeesFrom(r.txid, r.offset, r.count)
  }

  function BinBees(bin: Bin): seq<Bee> {
    if bin == [] then [] else BinBees(bin[..|bin| - 1]) + RangeBees(bin[|bin| - 1])
  }

  function BinsBees(bins: seq<Bin>): seq<Bee> {
    if bins == [] then [] else BinsBees(bins[..|bins| - 1]) + BinBees(bins[|bins| - 1])
  }

  /** Every bee of every mature BCT. */
  function MatureBees(bcts: seq<Bct>): seq<Bee> {
    if bcts == [] then []
    else
      var b := bcts[|bcts| - 1];
      MatureBees(bcts[..|bcts| - 1]) + if b.mature then BeesFrom(b.txid, 0, b.count) else []
  }

  lemma BinAppend(bin: Bin, r: Range)
    ensures BinBees(bin + [r]) == BinBees(bin) + RangeBees(r)
  {
    assert (bin + [r])[..|bin|] == bin;
  }

  lemma BinsAppend(bins: seq<Bin>, bin: Bin)
    ensures BinsBees(bins + [bin]) == BinsBees(bins) + BinBees(bin)
  {
    assert (bins + [bin])[..|bins|] == bins;
  }

  lemma MatureNext(bcts: seq<Bct>, i: nat)
    requires i < |bcts|
    ensures MatureBees(bcts[..i + 1]) == MatureBees(bcts[..i]) + if bcts[i].mature
            then BeesFrom(bcts[i].txid, 0, bcts[i].count) else []
  {
    assert bcts[..i + 1][..i] == bcts[..i];
  }

  lemma BeesSplit(txid: nat, offset: nat, a: nat, b: nat)
    ensures BeesFrom(txid, offset, a) + BeesFrom(txid, offset + a, b) == BeesFrom(txid, offset, a + b)
  {
  }

  // ---- what the binning keeps ----

  /** The bees before bee `offset` of BCT `i`. */
  function Before(bcts: seq<Bct>, i: nat, offset: nat): seq<Bee>
    requires i <= |bcts|
  {
    MatureBees(bcts[..i]) + if i < |bcts| then BeesFrom(bcts[i].txid, 0, offset) else []
  }

  /** A range is part of a mature BCT, with that BCT's addresses. */
  ghost predicate PartOf(bcts: seq<Bct>, r: Range) {
    exists i :: 0 <= i < |bcts| && FromBct(bcts[i], r)
  }

  ghost predicate FromBct(b: Bct, r: Range) {
    b.mature && r.txid == b.txid && r.honey == b.honey && r.community == b.community && r.offset + r.count <= b.count
  }

  ghost predicate AllPartOf(bcts: seq<Bct>, bin: Bin) {
    forall k | 0 <= k < |bin| :: PartOf(bcts, bin[k])
  }

  lemma TakeRange(bcts: seq<Bct>, i: nat, offset: nat, n: nat)
    requires i < |bcts| && bcts[i].mature && offset + n <= bcts[i].count
    ensures var r := Range(bcts[i].txid, bcts[i].honey, bcts[i].community, offset, n);
            && PartOf(bcts, r) && Before(bcts, i, offset) + RangeBees(r) == Before(bcts, i, offset + n)
            && (offset + n == bcts[i].count ==> Before(bcts, i, offset) + RangeBees(r) == Before(bcts, i + 1, 0))
  {
    var b := bcts[i];
    assert FromBct(b, Range(b.txid, b.honey, b.community, offset, n));
    BeesSplit(b.txid, 0, offset, n);
    MatureNext(bcts, i);
  }

  lemma SkipUnripe(bcts: seq<Bct>, i: nat)
    requires i < |bcts| && !bcts[i].mature
    ensures Before(bcts, i, 0) == Before(bcts, i + 1, 0)
  {
    MatureNext(bcts, i);
  }

  /** The next mature BCT at or after `i`. */
  method NextMature(bcts: seq<Bct>, i: nat) returns (j: nat)
    requires i < |bcts|
    ensures i < j <= |bcts| && (j < |bcts| ==> bcts[j].mature) && Before(bcts, j, 0) == Before(bcts, i + 1, 0)
  {
    hide Before;
    j := i + 1;
    while j < |bcts| && !bcts[j].mature
      invariant i < j <= |bcts| && Before(bcts, j, 0) == Before(bcts, i + 1, 0)
    {
      SkipUnripe(bcts, j);
      j := j + 1;
    }
  }

  /** How the bees that have been placed fill the bins: all but a last one exactly. */
  ghost predicate FullBins(bins: seq<Bin>, perBin: nat) {
    forall k | 0 <= k < |bins| :: |BinBees(bins[k])| == perBin
  }

  /** One bin: it takes bees in order until it is full or there are none left. */
  method FillBin(bcts: seq<Bct>, i: nat, offset: nat, perBin: nat) returns (bin: Bin, i': nat, offset': nat)
    requires i < |bcts| && bcts[i].mature && offset <= bcts[i].count && perBin > 0
    ensures i <= i' <= |bcts| && (i' < |bcts| ==> bcts[i'].mature && offset' < bcts[i'].count) &&
              (i' == |bcts| ==> offset' == 0)
    ensures Before(bcts, i, offset) + BinBees(bin) == Before(bcts, i', offset') && AllPartOf(bcts, bin)
    ensures |BinBees(bin)| <= perBin && (i' < |bcts| ==> |BinBees(bin)| == perBin)
    ensures i' == |bcts| && offset < bcts[i].count ==> |BinBees(bin)| >= 1
    ensures i' > i || offset' > offset
  {
    hide Before, BinBees, PartOf;
    bin, i', offset' := [], i, offset;
    NoRanges(bcts, i, offset);
    var inBin := 0;
    while i' < |bcts|
      invariant i <= i' <= |bcts| && (i' < |bcts| ==> bcts[i'].mature && offset' <= bcts[i'].count) &&
                  (i' == |bcts| ==> offset' == 0)
      invariant Before(bcts, i, offset) + BinBees(bin) == Before(bcts, i', offset') && AllPartOf(bcts, bin)
      invariant inBin == |BinBees(bin)| <= perBin && (i' == i ==> offset' == offset && inBin == 0)
      invariant i' > i && offset < bcts[i].count ==> inBin >= 1
      invariant i' > i ==> offset' == 0
    {
      var b := bcts[i'];
      var spaceLeft := perBin - inBin;
      if b.count - offset' <= spaceLeft {
        var r := Range(b.txid, b.honey, b.community, offset', b.count - offset');
        TakeRange(bcts, i', offset', b.count - offset');
        Joined(Before(bcts, i, offset), BinBees(bin), RangeBees(r));
        BinAppend(bin, r);
        bin := bin + [r];
        inBin := inBin + (b.count - offset');
        offset' := 0;
        i' := NextMature(bcts, i');
      } else {
        var r := Range(b.txid, b.honey, b.community, offset', spaceLeft);
        TakeRange(bcts, i', offset', spaceLeft);
        Joined(Before(bcts, i, offset), BinBees(bin), RangeBees(r));
        BinAppend(bin, r);
        bin := bin + [r];
        offset' := offset' + spaceLeft;
        return;
      }
    }
  }

  lemma Joined(a: seq<Bee>, b: seq<Bee>, c: seq<Bee>)
    ensures (a + b) + c == a + (b + c)
  {
  }

  lemma NoRanges(bcts: seq<Bct>, i: nat, offset: nat)
    requires i <= |bcts|
    ensures BinBees([]) == [] && Before(bcts, i, offset) + BinBees([]) == Before(bcts, i, offset)
  {
  }

  /**
   * The bins hold every bee of every mature BCT once and in order, in ranges that carry the right addresses; every bin
   * but the last holds exactly `perBin` bees.
   */
  method Binning(bcts: seq<Bct>, perBin: nat) returns (bins: seq<Bin>)
    requires bcts != [] && bcts[0].mature && perBin > 0
    ensures BinsBees(bins) == MatureBees(bcts)
    ensures forall k | 0 <= k < |bins| :: AllPartOf(bcts, bins[k])
    ensures bins != [] && FullBins(bins[..|bins| - 1], perBin) && |BinBees(bins[|bins| - 1])| <= perBin
    ensures |bins| > 1 ==> |BinBees(bins[|bins| - 1])| >= 1
  {
    hide Before, BinBees, BinsBees, AllPartOf;
    bins := [];
    var i: nat, offset: nat := 0, 0;
    NothingBefore(bcts);
    while i < |bcts|
      invariant 0 <= i <= |bcts| && (i < |bcts| ==> bcts[i].mature && offset <= bcts[i].count) &&
                  (i == |bcts| ==> offset == 0)
      invariant bins != [] && i < |bcts| ==> offset < bcts[i].count
      invariant BinsBees(bins) == Before(bcts, i, offset) && forall k | 0 <= k < |bins| :: AllPartOf(bcts, bins[k])
      invariant i < |bcts| ==> FullBins(bins, perBin)
      invariant i == |bcts| ==>
                  bins != [] && FullBins(bins[..|bins| - 1], perBin) && |BinBees(bins[|bins| - 1])| <= perBin
      invariant i == |bcts| && |bins| > 1 ==> |BinBees(bins[|bins| - 1])| >= 1
      decreases |bcts| - i, if i < |bcts| then bcts[i].count - offset else 0
    {
      var bin;
      ghost var was := bins;
      bin, i, offset := FillBin(bcts, i, offset, perBin);
      BinsAppend(bins, bin);
      bins := bins + [bin];
      assert bins[..|bins| - 1] == was;
    }
    EverythingBefore(bcts);
  }

  lemma NothingBefore(bcts: seq<Bct>)
    ensures BinsBees([]) == [] && Before(bcts, 0, 0) == []
  {
  }

  lemma EverythingBefore(bcts: seq<Bct>)
    ensures Before(bcts, |bcts|, 0) == MatureBees(bcts)
  {
    assert bcts[..|bcts|] == bcts;
  }

  // ---- how many bins ----

  lemma {:induction false} FullBinsHold(bins: seq<Bin>, perBin: nat)
    requires FullBins(bins, perBin)
    ensures |BinsBees(bins)| == |bins| * perBin
  {
    hide BinBees;
    if bins != [] {
      var init := bins[..|bins| - 1];
      FullBinsHold(init, perBin);
      assert |bins| * perBin == |init| * perBin + perBin;
    }
  }

  /** With bins of the exact ceiling there are no more bins than threads. */
  lemma AtMostThreads(bins: seq<Bin>, perBin: nat, threads: nat)
    requires bins != [] && FullBins(bins[..|bins| - 1], perBin) && (|bins| > 1 ==> |BinBees(bins[|bins| - 1])| >= 1)
    requires threads > 0 && |BinsBees(bins)| <= threads * perBin
    ensures |bins| <= threads
  {
    hide BinBees;
    var n := |bins| - 1;
    FullBinsHold(bins[..n], perBin);
    if n >= threads && n > 0 {
      MulGrows(threads, n, perBin);
    }
  }

  lemma MulGrows(a: nat, b: nat, c: nat)
    requires a <= b
    ensures a * c <= b * c
  {
    assert b * c - a * c == (b - a) * c;
  }

  /** The mature BCTs of the wallet, and how many bees they have. */
  method MatureOnly(wallet: seq<Bct>) returns (bcts: seq<Bct>, total: nat)
    ensures MatureBees(bcts) == MatureBees(wallet) && total == |MatureBees(wallet)|
    ensures forall i | 0 <= i < |bcts| :: bcts[i].mature && bcts[i] in wallet
  {
    bcts, total := [], 0;
    for i := 0 to |wallet|
      invariant MatureBees(bcts) == MatureBees(wallet[..i]) && total == |MatureBees(wallet[..i])|
      invariant forall j | 0 <= j < |bcts| :: bcts[j].mature && bcts[j] in wallet
    {
      MatureNext(wallet, i);
      if wallet[i].mature {
        assert (bcts + [wallet[i]])[..|bcts|] == bcts;
        bcts := bcts + [wallet[i]];
        total := total + wallet[i].count;
      }
    }
    assert wallet[..|wallet|] == wallet;
  }

  /** The wallet's mature bees shared out: nothing lost or doubled, and no more bins than threads. */
  method ShareOut(wallet: seq<Bct>, threads: nat) returns (bins: seq<Bin>)
    requires threads > 0
    ensures BinsBees(bins) == MatureBees(wallet) && |bins| <= threads
  {
    hide BinBees, BinsBees, MatureBees;
    var bcts, total := MatureOnly(wallet);
    if bcts == [] || total == 0 {
      NoBees(MatureBees(wallet));
      return [];
    }
    var perBin := (total + threads - 1) / threads;
    CeilingIs(total, threads);
    bins := Binning(bcts, perBin);
    AtMostThreads(bins, perBin, threads);
  }

  lemma NoBees(bees: seq<Bee>)
    ensures BinsBees([]) == [] && MatureBees([]) == [] && (|bees| == 0 ==> bees == [])
  {
  }

  lemma CeilingIs(total: nat, threads: nat)
    requires total > 0 && threads > 0
    ensures (total + threads - 1) / threads > 0 && total <= threads * ((total + threads - 1) / threads)
  {
    var q := (total + threads - 1) / threads;
    assert total + threads - 1 == q * threads + (total + threads - 1) % threads;
  }

  /** Each bee of the mature BCTs is in exactly one place of exactly one bin, when transaction ids are distinct. */
  lemma {:induction false} EachBeeOnce(bcts: seq<Bct>)
    requires forall i, j | 0 <= i < j < |bcts| :: bcts[i].txid != bcts[j].txid
    ensures forall x, y | 0 <= x < y < |MatureBees(bcts)| :: MatureBees(bcts)[x] != MatureBees(bcts)[y]
    ensures forall bee :: bee in MatureBees(bcts) <==> Owned(bcts, bee)
  {
    if bcts != [] {
      var n := |bcts| - 1;
      var init, b := bcts[..n], bcts[n];
      EachBeeOnce(init);
      var more := if b.mature then BeesFrom(b.txid, 0, b.count) else [];
      forall bee | bee in MatureBees(init) ensures bee.txid != b.txid
      {
        assert Owned(init, bee);
        var i :| 0 <= i < |init| && init[i].mature && bee.txid == init[i].txid && bee.number < init[i].count;
        assert bcts[i] == init[i];
      }
      forall bee ensures bee in MatureBees(bcts) <==> Owned(bcts, bee)
      {
        OwnedNext(bcts, bee);
        assert bee in MatureBees(bcts) <==> bee in MatureBees(init) || bee in more;
        if b.mature && bee.txid == b.txid && bee.number < b.count {
          assert more[bee.number] == bee;
        }
      }
    }
  }

  ghost predicate Owned(bcts: seq<Bct>, bee: Bee) {
    exists i :: 0 <= i < |bcts| && bcts[i].mature && bee.txid == bcts[i].txid && bee.number < bcts[i].count
  }

  lemma OwnedNext(bcts: seq<Bct>, bee: Bee)
    requires bcts != []
    ensures var b := bcts[|bcts| - 1];
            Owned(bcts, bee) <==>
              Owned(bcts[..|bcts| - 1], bee) || (b.mature && bee.txid == b.txid && bee.number < b.count)
  {
    var init := bcts[..|bcts| - 1];
    if Owned(init, bee) {
      var i :| 0 <= i < |init| && init[i].mature && bee.txid == init[i].txid && bee.number < init[i].count;
      assert bcts[i] == init[i];
    }
    if Owned(bcts, bee) {
      var i :| 0 <= i < |bcts| && bcts[i].mature && bee.txid == bcts[i].txid && bee.number < bcts[i].count;
      assert i < |init| ==> init[i] == bcts[i];
    }
  }
}
