/** The block under construction, and the selection loop that fills it. */
module BlockTemplate {
  import opened Mempool
  import opened BlockAssembly
  import opened PackageScore

  // ---- sorting a package ----

  /** The order of CompareTxIterByAncestorCount: fewer ancestors first, ties by hash. */
  predicate Earlier(p: Pool, a: Txid, b: Txid) {
    p.countWithAncestors(a) < p.countWithAncestors(b) ||
    (p.countWithAncestors(a) == p.countWithAncestors(b) && a.hash < b.hash)
  }

  ghost predicate SortedPackage(p: Pool, package: set<Txid>, sorted: seq<Txid>) {
    && (forall t :: t in sorted <==> t in package)
    && (forall i, j | 0 <= i < j < |sorted| :: Earlier(p, sorted[i], sorted[j]))
  }

  method First(p: Pool, s: set<Txid>) returns (x: Txid)
    requires s != {}
    ensures x in s && forall y | y in s && y != x :: Earlier(p, x, y)
  {
    x :| x in s;
    var todo := s - {x};
    while todo != {}
      invariant x in s && x !in todo && todo <= s
      invariant forall y | y in s && y !in todo && y != x :: Earlier(p, x, y)
    {
      var y :| y in todo;
      todo := todo - {y};
      if Earlier(p, y, x) {
        x := y;
      }
    }
  }

  method SortForBlock(p: Pool, package: set<Txid>) returns (sorted: seq<Txid>)
    ensures SortedPackage(p, package, sorted)
  {
    sorted := [];
    var todo := package;
    while todo != {}
      invariant todo <= package
      invariant forall t :: t in sorted <==> t in package && t !in todo
      invariant forall i, j | 0 <= i < j < |sorted| :: Earlier(p, sorted[i], sorted[j])
      invariant forall i, t | 0 <= i < |sorted| && t in todo :: Earlier(p, sorted[i], t)
    {
      hide Earlier;
      var x := First(p, todo);
      todo := todo - {x};
      sorted := sorted + [x];
    }
  }

  // ---- the block ----

  datatype Rules = Rules(includeWitness: bool, includeBcts: bool) {
    predicate Allows(p: Pool, t: Txid) {
      p.isFinal(t) && (includeWitness || !p.hasWitness(t)) && (includeBcts || !p.isBct(t))
    }
  }

  function FeeSum(p: Pool, block: seq<Txid>): int {
    if block == [] then 0 else FeeSum(p, block[..|block| - 1]) + p.fee(block[|block| - 1])
  }

  /** The content of a block: closed under ancestors, in order, nothing twice, all allowed. */
  ghost predicate ContentOk(p: Pool, rules: Rules, block: seq<Txid>, inBlock: set<Txid>) {
    && Closed(p, inBlock) && Ordered(p, block) && (forall t :: t in inBlock <==> t in block)
    && forall t | t in inBlock :: rules.Allows(p, t)
  }

  /** The running totals are exact. */
  ghost predicate TotalsOk(p: Pool, block: seq<Txid>, inBlock: set<Txid>, weight: int, sigOps: int, fees: int) {
    && weight == COINBASE_WEIGHT + Total(p.weight, inBlock)
    && sigOps == COINBASE_SIGOPS + Total(p.sigOps, inBlock)
    && fees == FeeSum(p, block)
  }

  /** One more transaction whose ancestors are all there. */
  lemma AppendKeeps(p: Pool, rules: Rules, block: seq<Txid>, inBlock: set<Txid>, weight: int, sigOps: int, fees: int,
                    t: Txid)
    requires ContentOk(p, rules, block, inBlock) && TotalsOk(p, block, inBlock, weight, sigOps, fees)
    requires t in p.txs && t !in inBlock && p.anc(t) <= inBlock && rules.Allows(p, t)
    ensures ContentOk(p, rules, block + [t], inBlock + {t})
    ensures TotalsOk(p, block + [t], inBlock + {t}, weight + p.weight(t), sigOps + p.sigOps(t), fees + p.fee(t))
  {
    hide ContentOk, TotalsOk;
    AppendContent(p, rules, block, inBlock, t);
    AppendTotals(p, block, inBlock, weight, sigOps, fees, t);
  }

  lemma AppendContent(p: Pool, rules: Rules, block: seq<Txid>, inBlock: set<Txid>, t: Txid)
    requires ContentOk(p, rules, block, inBlock) && t in p.txs && t !in inBlock && p.anc(t) <= inBlock &&
             rules.Allows(p, t)
    ensures ContentOk(p, rules, block + [t], inBlock + {t})
  {
    hide Ordered, Rules.Allows;
    assert (block + [t])[..|block|] == block;
    AppendOrdered(p, block, t);
  }

  lemma AppendTotals(p: Pool, block: seq<Txid>, inBlock: set<Txid>, weight: int, sigOps: int, fees: int, t: Txid)
    requires TotalsOk(p, block, inBlock, weight, sigOps, fees) && t !in inBlock
    ensures TotalsOk(p, block + [t], inBlock + {t}, weight + p.weight(t), sigOps + p.sigOps(t), fees + p.fee(t))
  {
    hide Total;
    TotalAdd(p.weight, inBlock, t);
    TotalAdd(p.sigOps, inBlock, t);
    assert (block + [t])[..|block|] == block;
  }

  lemma AppendOrdered(p: Pool, block: seq<Txid>, t: Txid)
    requires Ordered(p, block) && t !in block && forall a | a in p.anc(t) :: a in block
    ensures Ordered(p, block + [t])
  {
    var block' := block + [t];
    forall i, a | 0 <= i < |block'| && a in p.anc(block'[i]) ensures a in block'[..i]
    {
      if i < |block| {
        assert block'[i] == block[i] && block'[..i] == block[..i];
      } else {
        assert block'[..i] == block;
      }
    }
  }

  /** A package may go in as a whole: its ancestors outside the block are in it, and it fits. */
  ghost predicate Fits(p: Pool, rules: Rules, inBlock: set<Txid>, package: set<Txid>, weight: int, sigOps: int,
                       maxWeight: int) {
    && package <= p.txs && package !! inBlock
    && (forall t | t in package :: p.anc(t) <= inBlock + package && rules.Allows(p, t))
    && weight + Total(p.weight, package) <= maxWeight && sigOps + Total(p.sigOps, package) < MAX_BLOCK_SIGOPS_COST
  }

  /** The first transaction of a sorted package has no ancestor in the package. */
  lemma NoAncestorBefore(p: Pool, package: set<Txid>, sorted: seq<Txid>, a: Txid)
    requires p.Valid() && package <= p.txs && SortedPackage(p, package, sorted) && sorted != [] && a in p.anc(sorted[0])
    ensures a !in package
  {
    var t := sorted[0];
    assert t in package;
    AncestorCount(p, a, t);
    forall x | x in package ensures p.countWithAncestors(t) <= p.countWithAncestors(x)
    {
      assert x in sorted;
      var i :| 0 <= i < |sorted| && sorted[i] == x;
      assert i > 0 ==> Earlier(p, sorted[0], sorted[i]);
    }
  }

  /** So it can be added, and the rest of the package still fits. */
  lemma FirstOfPackage(p: Pool, rules: Rules, inBlock: set<Txid>, package: set<Txid>, sorted: seq<Txid>, weight: int,
                       sigOps: int, maxWeight: int)
    requires p.Valid() && Fits(p, rules, inBlock, package, weight, sigOps, maxWeight) &&
             SortedPackage(p, package, sorted) && sorted != []
    ensures var t := sorted[0];
            && t in p.txs && t !in inBlock && p.anc(t) <= inBlock && rules.Allows(p, t)
            && weight + p.weight(t) <= maxWeight && sigOps + p.sigOps(t) < MAX_BLOCK_SIGOPS_COST
            && Fits(p, rules, inBlock + {t}, package - {t}, weight + p.weight(t), sigOps + p.sigOps(t), maxWeight)
            && SortedPackage(p, package - {t}, sorted[1..])
  {
    hide Total, Pool.Valid, Rules.Allows;
    var t := sorted[0];
    assert t in package;
    forall a | a in p.anc(t) ensures a in inBlock
    {
      assert p.anc(t) <= inBlock + package;
      NoAncestorBefore(p, package, sorted, a);
    }
    SortedRest(p, package, sorted);
    hide SortedPackage;
    TotalRemove(p.weight, package, t);
    TotalRemove(p.sigOps, package, t);
    assert inBlock + {t} + (package - {t}) == inBlock + package;
  }

  lemma SortedRest(p: Pool, package: set<Txid>, sorted: seq<Txid>)
    requires SortedPackage(p, package, sorted) && sorted != []
    ensures SortedPackage(p, package - {sorted[0]}, sorted[1..])
  {
    forall t ensures t in sorted[1..] <==> t in package - {sorted[0]}
    {
      assert t in sorted <==> t == sorted[0] || t in sorted[1..];
      if t in sorted[1..] {
        var i :| 0 <= i < |sorted[1..]| && sorted[1..][i] == t;
        assert Earlier(p, sorted[0], sorted[i + 1]);
      }
    }
  }

  /** What is left of a package fits whenever TestPackage accepts totals that count enough. */
  lemma PackageFits(p: Pool, rules: Rules, inBlock: set<Txid>, t: Txid, m: Modified, weight: int, sigOps: int,
                    maxWeight: int)
    requires p.Valid() && Closed(p, inBlock) && CountsEnough(p, inBlock, t, m)
    requires weight + WITNESS_SCALE_FACTOR * m.size < maxWeight && sigOps + m.sigOps < MAX_BLOCK_SIGOPS_COST
    requires forall x | x in p.Package(t) - inBlock :: rules.Allows(p, x)
    ensures Fits(p, rules, inBlock, p.Package(t) - inBlock, weight, sigOps, maxWeight)
  {
    hide Total, Rules.Allows;
    var package := p.Package(t) - inBlock;
    assert p.EntryOk(t);
    WeightBySize(p, package);
    forall x | x in package ensures p.anc(x) <= inBlock + package
    {
      assert p.anc(x) <= p.Package(t);
    }
  }

  function Clamped(option: int): int {
    var atMost := if option < MAX_BLOCK_WEIGHT - 4000 then option else MAX_BLOCK_WEIGHT - 4000;
    if atMost < 4000 then 4000 else atMost
  }

  class Assembler {
    const pool: Pool
    const rules: Rules
    const nBlockMaxWeight: int
    const minFee: int -> int

    var block: seq<Txid>
    var inBlock: set<Txid>
    var nBlockWeight: int
    var nBlockSigOpsCost: int
    var nBlockTx: nat
    var nFees: int

    ghost predicate Valid()
      reads this
    {
      && pool.Valid() && ContentOk(pool, rules, block, inBlock)
      && TotalsOk(pool, block, inBlock, nBlockWeight, nBlockSigOpsCost, nFees) && nBlockTx == |block|
      && nBlockWeight <= nBlockMaxWeight && nBlockSigOpsCost < MAX_BLOCK_SIGOPS_COST
    }

    /** resetBlock, with the options clamped as the assembler's constructor does. */
    constructor (p: Pool, r: Rules, maxWeight: int, fee: int -> int)
      requires p.Valid()
      ensures Valid() && block == [] && pool == p && rules == r && minFee == fee &&
              nBlockMaxWeight == Clamped(maxWeight)
    {
      pool, rules, minFee, nBlockMaxWeight := p, r, fee, Clamped(maxWeight);
      block, inBlock, nBlockTx, nFees := [], {}, 0, 0;
      nBlockWeight, nBlockSigOpsCost := COINBASE_WEIGHT, COINBASE_SIGOPS;
    }

    predicate TestPackage(packageSize: int, packageSigOps: int)
      reads this
    {
      nBlockWeight + WITNESS_SCALE_FACTOR * packageSize < nBlockMaxWeight &&
      nBlockSigOpsCost + packageSigOps < MAX_BLOCK_SIGOPS_COST
    }

    method TestPackageTransactions(package: set<Txid>) returns (ok: bool)
      ensures ok <==> forall t | t in package :: rules.Allows(pool, t)
    {
      var todo := package;
      while todo != {}
        invariant todo <= package && forall t | t in package && t !in todo :: rules.Allows(pool, t)
      {
        var t :| t in todo;
        todo := todo - {t};
        if !pool.isFinal(t) {
          return false;
        }
        if !rules.includeWitness && pool.hasWitness(t) {
          return false;
        }
        if !rules.includeBcts && pool.isBct(t) {
          return false;
        }
      }
      return true;
    }

    method AddToBlock(t: Txid)
      requires Valid() && t in pool.txs && t !in inBlock && pool.anc(t) <= inBlock && rules.Allows(pool, t)
      requires nBlockWeight + pool.weight(t) <= nBlockMaxWeight &&
               nBlockSigOpsCost + pool.sigOps(t) < MAX_BLOCK_SIGOPS_COST
      modifies this
      ensures Valid() && block == old(block) + [t] && inBlock == old(inBlock) + {t}
      ensures nBlockWeight == old(nBlockWeight) + pool.weight(t) &&
              nBlockSigOpsCost == old(nBlockSigOpsCost) + pool.sigOps(t)
    {
      hide ContentOk, TotalsOk, Pool.Valid, Rules.Allows;
      AppendKeeps(pool, rules, block, inBlock, nBlockWeight, nBlockSigOpsCost, nFees, t);
      block := block + [t];
      nBlockWeight := nBlockWeight + pool.weight(t);
      nBlockTx := nBlockTx + 1;
      nBlockSigOpsCost := nBlockSigOpsCost + pool.sigOps(t);
      nFees := nFees + pool.fee(t);
      inBlock := inBlock + {t};
    }

    /** Adds a whole package in sorted order and drops its members from the modified set. */
    method AddPackage(package: set<Txid>, modified: ModifiedMap) returns (modified': ModifiedMap)
      requires Valid() && Fits(pool, rules, inBlock, package, nBlockWeight, nBlockSigOpsCost, nBlockMaxWeight)
      modifies this
      ensures Valid() && inBlock == old(inBlock) + package && old(block) <= block
      ensures nBlockWeight >= old(nBlockWeight) && nBlockSigOpsCost >= old(nBlockSigOpsCost)
      ensures modified' == modified - package
    {
      hide ContentOk, TotalsOk, Fits, Pool.Valid, SortedPackage;
      var sorted := SortForBlock(pool, package);
      modified' := modified;
      ghost var rest, was := package, inBlock;
      assert modified' == modified - (package - rest) && inBlock + rest == was + package;
      var i := 0;
      while i < |sorted|
        invariant 0 <= i <= |sorted| && Valid() && rest <= package
        invariant Fits(pool, rules, inBlock, rest, nBlockWeight, nBlockSigOpsCost, nBlockMaxWeight)
        invariant SortedPackage(pool, rest, sorted[i..])
        invariant inBlock + rest == was + package && old(block) <= block
        invariant nBlockWeight >= old(nBlockWeight) && nBlockSigOpsCost >= old(nBlockSigOpsCost)
        invariant modified' == modified - (package - rest)
      {
        var t := sorted[i];
        FirstOfPackage(pool, rules, inBlock, rest, sorted[i..], nBlockWeight, nBlockSigOpsCost, nBlockMaxWeight);
        SortedMember(pool, rest, sorted[i..]);
        MoveOver(inBlock, rest, package, was, t);
        ErasedToo(modified, package, rest, t);
        AddToBlock(t);
        modified' := modified' - {t};
        rest := rest - {t};
        i := i + 1;
      }
      SortedEmpty(pool, rest, sorted[i..]);
    }

    /** The candidate's package, if it fits and is allowed, goes into the block. */
    method TryPackage(iter: Txid, m: Modified, modified: ModifiedMap, ghost taken: Taken, ghost refused: set<Txid>)
      returns (added: bool, modified': ModifiedMap, updated: nat, ghost taken': Taken)
      requires Valid() && CountsEnough(pool, inBlock, iter, m) && TestPackage(m.size, m.sigOps)
      requires Tracked(pool, inBlock, modified, taken) && AllTaken(pool, inBlock, inBlock + refused, taken)
      modifies this
      ensures Valid() && old(block) <= block
      ensures Tracked(pool, inBlock, modified', taken') && AllTaken(pool, inBlock, inBlock + refused, taken')
      ensures added ==>
                inBlock == old(inBlock) + (pool.Package(iter) - old(inBlock)) && iter in inBlock &&
                iter !in old(inBlock)
      ensures added ==> modified.Keys <= modified'.Keys + inBlock
      ensures !added ==> modified' == modified && taken' == taken && unchanged(this) && Barred(pool, rules, iter)
    {
      hide ContentOk, TotalsOk, Fits, Pool.Valid, Tracked, AllTaken, Closed, Rules.Allows, Dependents;
      CandidateFacts(pool, rules, block, inBlock, iter, m);
      var ancestors := pool.anc(iter);
      ancestors := ancestors - inBlock;
      ancestors := ancestors + {iter};
      assert ancestors == pool.Package(iter) - inBlock;
      added := TestPackageTransactions(ancestors);
      updated := 0;
      if !added {
        BarredBy(pool, rules, iter, inBlock);
        modified', taken' := modified, taken;
        return;
      }
      PackageFits(pool, rules, inBlock, iter, m, nBlockWeight, nBlockSigOpsCost, nBlockMaxWeight);
      ghost var was := inBlock;
      RestTracked(pool, was, refused, modified, taken, ancestors);
      modified' := AddPackage(ancestors, modified);
      modified', updated, taken' := UpdatePackagesForAdded(pool, ancestors, modified', was, taken - ancestors, refused);
    }

    /**
     * addPackageTxs: `order` lists the pool, best score first. `picks` are the packages taken, each the best of all
     * that were still open and paying enough; `track` is where the search stands in the end. It ends with nothing left
     * to look at, with a block that is nearly full, or at a candidate that is the best open one and pays too little.
     */
    method AddPackageTxs(order: seq<Txid>)
      returns (packagesSelected: nat, descendantsUpdated: nat, stop: Stop, ghost picks: seq<Selection>,
               ghost track: Track)
      requires Valid() && Sorted(pool, order)
      modifies this
      ensures Valid() && old(block) <= block && packagesSelected == |picks|
      ensures PicksOk(pool, rules, minFee, order, nBlockMaxWeight, |old(block)|, block, picks)
      ensures Tracking(pool, rules, block, nBlockMaxWeight, track)
      ensures match stop
              case Exhausted => forall t | t in order :: t in block || t in track.refused
              case NearlyFull => nBlockWeight > nBlockMaxWeight - 4000
              case LowFee(t) =>
                && BestOpen(pool, order, block, track, t)
                && var m := Current(pool, track.modified, t); m.fees < minFee(m.size)
    {
      hide ContentOk, TotalsOk, Pool.Valid, Tracked, AllTaken, CountsEnough, LeftOut, Settled, Barred, Sorted,
           ByScore, Sized, Top, Score, Current, Tracking, BestOpen, PicksOk, PickOk, Elems, Distinct, PoolTotals,
             Total, Closed, Dependents;
      packagesSelected, descendantsUpdated, stop, picks := 0, 0, Exhausted, [];
      SortedByScore(pool, order);
      var failedTx: set<Txid> := {};
      StartFacts(pool, rules, block, inBlock);
      ghost var refused: set<Txid> := {};
      var modified, updated;
      ghost var taken;
      modified, updated, taken := UpdatePackagesForAdded(pool, inBlock, map[], {}, map[], refused);
      TrackingStarts(pool, rules, block, inBlock, nBlockMaxWeight, modified, taken);
      var mi := 0;
      var consecutiveFailed := 0;
      NoPicks(pool, rules, minFee, order, nBlockMaxWeight, block);
      NothingSettled(order, inBlock, modified.Keys);
      while mi < |order| || modified.Keys != {}
        invariant 0 <= mi <= |order| && Valid() && old(block) <= block && packagesSelected == |picks|
        invariant Tracking(pool, rules, block, nBlockMaxWeight, Track(modified, taken, refused))
        invariant Settled(order, mi, inBlock, modified.Keys, refused) && failedTx <= refused
        invariant PicksOk(pool, rules, minFee, order, nBlockMaxWeight, |old(block)|, block, picks)
        decreases pool.txs - inBlock, |order| - mi, modified.Keys
      {
        BlockElems(pool, rules, block, inBlock);
        if mi < |order| && (order[mi] in modified || order[mi] in inBlock || order[mi] in failedTx) {
          SettledNext(order, mi, inBlock, modified.Keys, refused);
          mi := mi + 1;
          continue;
        }
        TrackingParts(pool, rules, block, nBlockMaxWeight, modified, taken, refused);
        ModifiedSized(pool, inBlock, modified, taken);
        var usingModified, iter, m := Choose(pool, order, mi, modified);
        track := Track(modified, taken, refused);
        ChosenIsBest(pool, rules, order, mi, block, nBlockMaxWeight, track, usingModified, iter, m);
        if !usingModified {
          mi := mi + 1;
        }
        assert iter !in inBlock;
        if m.fees < minFee(m.size) {
          stop := LowFee(iter);
          return;
        }
        if !TestPackage(m.size, m.sigOps) {
          TooLarge(pool, rules, block, inBlock, nBlockWeight, nBlockSigOpsCost, nFees, nBlockMaxWeight, track, iter, m);
          Refuse(pool, rules, block, nBlockMaxWeight, track, iter);
          SettledRefused(order, mi, inBlock, modified.Keys, refused, iter, usingModified);
          if usingModified {
            modified, taken := modified - {iter}, taken - {iter};
            failedTx := failedTx + {iter};
          }
          refused := refused + {iter};
          consecutiveFailed := consecutiveFailed + 1;
          if consecutiveFailed > MAX_CONSECUTIVE_FAILURES && nBlockWeight > nBlockMaxWeight - 4000 {
            stop, track := NearlyFull, Track(modified, taken, refused);
            return;
          }
          continue;
        }
        var added, n;
        ghost var was, wasIn, keys, off := block, inBlock, modified.Keys, taken;
        added, modified, n, taken := TryPackage(iter, m, modified, off, refused);
        if !added {
          BarredLeftOut(pool, rules, block, nBlockMaxWeight, iter);
          Refuse(pool, rules, block, nBlockMaxWeight, track, iter);
          SettledRefused(order, mi, inBlock, modified.Keys, refused, iter, usingModified);
          if usingModified {
            modified, taken := modified - {iter}, taken - {iter};
            failedTx := failedTx + {iter};
          }
          refused := refused + {iter};
          continue;
        }
        BlockElems(pool, rules, block, inBlock);
        TrackingGrows(pool, rules, was, block, inBlock, nBlockMaxWeight, track, modified, taken);
        SettledGrows(order, mi, wasIn, inBlock, keys, modified.Keys, refused, iter, usingModified);
        PickMade(pool, rules, minFee, order, nBlockMaxWeight, |old(block)|, was, block, wasIn, inBlock, picks, track,
          iter);
        picks := picks + [Selection(|was|, iter, track)];
        consecutiveFailed := 0;
        packagesSelected := packagesSelected + 1;
        descendantsUpdated := descendantsUpdated + n;
      }
      track := Track(modified, taken, refused);
      BlockElems(pool, rules, block, inBlock);
      AllSettled(order, mi, block, inBlock, modified.Keys, refused);
    }
  }

  // ---- where the search stands ----

  /** The modified entries, what was taken off each, and the entries that were refused at some time. */
  datatype Track = Track(modified: ModifiedMap, taken: Taken, refused: set<Txid>)

  /** A package that was taken: the size of the block before, its last transaction, and where the search stood. */
  datatype Selection = Selection(at: nat, t: Txid, track: Track)

  /** Why the search ends: no candidates, little room, or a candidate that pays less than the minimum. */
  datatype Stop = Exhausted | NearlyFull | LowFee(t: Txid)

  /** Some transaction of the package may not be in the block at all. */
  ghost predicate Barred(p: Pool, rules: Rules, t: Txid) {
    exists x :: x in p.Package(t) && !rules.Allows(p, x)
  }

  /** With the missing part of the package, a block would have been over a limit. */
  ghost predicate Overfull(p: Pool, inBlock: set<Txid>, maxWeight: int, t: Txid) {
    var missing := p.Package(t) - inBlock;
    || COINBASE_WEIGHT + Total(p.weight, inBlock) + WITNESS_SCALE_FACTOR * Total(p.size, missing) >= maxWeight
    || COINBASE_SIGOPS + Total(p.sigOps, inBlock) + Total(p.sigOps, missing) >= MAX_BLOCK_SIGOPS_COST
  }

  /** The package is barred, or at some time what was missing of it was too much for the block as it was then. */
  ghost predicate LeftOut(p: Pool, rules: Rules, block: seq<Txid>, maxWeight: int, t: Txid) {
    Barred(p, rules, t) || exists k: nat :: k <= |block| && Overfull(p, Elems(block[..k]), maxWeight, t)
  }

  /** Totals as they must be, and a reason for every refusal. */
  ghost predicate Tracking(p: Pool, rules: Rules, block: seq<Txid>, maxWeight: int, k: Track) {
    && Tracked(p, Elems(block), k.modified, k.taken) && AllTaken(p, Elems(block), Elems(block) + k.refused, k.taken)
    && forall x | x in k.refused :: LeftOut(p, rules, block, maxWeight, x)
  }

  /** A candidate that no entry of the pool beats, except those in the block and those refused. */
  ghost predicate BestOpen(p: Pool, order: seq<Txid>, block: seq<Txid>, k: Track, t: Txid) {
    && t in p.txs && t !in block && (t in order || t in k.modified)
    && forall x | x in order && x !in block && x !in k.refused ::
         NoBetter(Score(p, x, Current(p, k.modified, x)), Score(p, t, Current(p, k.modified, t)))
  }

  /** At its time the pick was the best open candidate and paid enough; exactly what was missing of its package went
      in. */
  ghost predicate PickOk(p: Pool, rules: Rules, minFee: int -> int, order: seq<Txid>, maxWeight: int,
                         block: seq<Txid>, pick: Selection, end: nat) {
    && pick.at < end <= |block|
    && var before := block[..pick.at];
       && Tracking(p, rules, before, maxWeight, pick.track) && BestOpen(p, order, before, pick.track, pick.t)
       && (var m := Current(p, pick.track.modified, pick.t); m.fees >= minFee(m.size))
       && Elems(block[pick.at..end]) == p.Package(pick.t) - Elems(before)
  }

  function End(block: seq<Txid>, picks: seq<Selection>, i: nat): nat {
    if i + 1 < |picks| then picks[i + 1].at else |block|
  }

  /** From `start` on the block is the packages picked, one after the other. */
  ghost predicate PicksOk(p: Pool, rules: Rules, minFee: int -> int, order: seq<Txid>, maxWeight: int, start: nat,
                          block: seq<Txid>, picks: seq<Selection>) {
    && start == (if picks == [] then |block| else picks[0].at)
    && forall i | 0 <= i < |picks| :: PickOk(p, rules, minFee, order, maxWeight, block, picks[i], End(block, picks, i))
  }

  lemma NoPicks(p: Pool, rules: Rules, minFee: int -> int, order: seq<Txid>, maxWeight: int, block: seq<Txid>)
    ensures PicksOk(p, rules, minFee, order, maxWeight, |block|, block, [])
  {
  }

  lemma SuffixElems(block: seq<Txid>, n: nat)
    requires n <= |block| && Distinct(block)
    ensures Elems(block[n..]) == Elems(block) - Elems(block[..n])
  {
    assert block == block[..n] + block[n..];
  }

  lemma PickKept(p: Pool, rules: Rules, minFee: int -> int, order: seq<Txid>, maxWeight: int, was: seq<Txid>,
                 block: seq<Txid>, pick: Selection, end: nat)
    requires PickOk(p, rules, minFee, order, maxWeight, was, pick, end) && was <= block
    ensures PickOk(p, rules, minFee, order, maxWeight, block, pick, end)
  {
    hide Tracking, BestOpen, Current, Elems;
    assert block[..pick.at] == was[..pick.at] && block[pick.at..end] == was[pick.at..end];
  }

  lemma PickMade(p: Pool, rules: Rules, minFee: int -> int, order: seq<Txid>, maxWeight: int, start: nat,
                 was: seq<Txid>, block: seq<Txid>,
                 wasIn: set<Txid>, inBlock: set<Txid>, picks: seq<Selection>, track: Track, t: Txid)
    requires PicksOk(p, rules, minFee, order, maxWeight, start, was, picks) && was <= block && Distinct(block)
    requires Elems(was) == wasIn && Elems(block) == inBlock == wasIn + (p.Package(t) - wasIn)
    requires Tracking(p, rules, was, maxWeight, track) && BestOpen(p, order, was, track, t)
    requires var m := Current(p, track.modified, t); m.fees >= minFee(m.size)
    ensures PicksOk(p, rules, minFee, order, maxWeight, start, block, picks + [Selection(|was|, t, track)])
  {
    hide Tracking, Current;
    var picks' := picks + [Selection(|was|, t, track)];
    assert block[..|was|] == was;
    SuffixElems(block, |was|);
    assert p.Package(t) - wasIn == inBlock - wasIn;
    NotYet(p, was, block, t);
    hide BestOpen, Elems, Distinct;
    forall i | 0 <= i < |picks'|
      ensures PickOk(p, rules, minFee, order, maxWeight, block, picks'[i], End(block, picks', i))
    {
      if i < |picks| {
        assert End(was, picks, i) == End(block, picks', i);
        PickKept(p, rules, minFee, order, maxWeight, was, block, picks[i], End(was, picks, i));
      }
    }
  }

  lemma NotYet(p: Pool, was: seq<Txid>, block: seq<Txid>, t: Txid)
    requires t !in was && Elems(block) == Elems(was) + (p.Package(t) - Elems(was)) && was <= block
    ensures |was| < |block|
  {
    assert t in Elems(block);
    assert |was| == |block| ==> was == block;
  }

  // ---- what the steps of the search keep ----

  lemma BlockElems(p: Pool, rules: Rules, block: seq<Txid>, inBlock: set<Txid>)
    requires ContentOk(p, rules, block, inBlock)
    ensures inBlock <= p.txs && Elems(block) == inBlock && Distinct(block) && forall t :: t in block <==> t in inBlock
  {
  }

  lemma StartFacts(p: Pool, rules: Rules, block: seq<Txid>, inBlock: set<Txid>)
    requires ContentOk(p, rules, block, inBlock)
    ensures inBlock <= p.txs && Closed(p, {}) && Tracked(p, {}, map[], map[]) &&
            AllTaken(p, {}, {} + inBlock + {}, map[])
  {
  }

  lemma TrackingStarts(p: Pool, rules: Rules, block: seq<Txid>, inBlock: set<Txid>, maxWeight: int,
                       modified: ModifiedMap, taken: Taken)
    requires ContentOk(p, rules, block, inBlock)
    requires Tracked(p, {} + inBlock, modified, taken) && AllTaken(p, {} + inBlock, {} + inBlock + {}, taken)
    ensures Tracking(p, rules, block, maxWeight, Track(modified, taken, {}))
  {
    hide Tracked, AllTaken;
    BlockElems(p, rules, block, inBlock);
    assert {} + inBlock == inBlock;
  }

  lemma TrackingParts(p: Pool, rules: Rules, block: seq<Txid>, maxWeight: int, modified: ModifiedMap, taken: Taken,
                      refused: set<Txid>)
    requires Tracking(p, rules, block, maxWeight, Track(modified, taken, refused))
    ensures Tracked(p, Elems(block), modified, taken) && AllTaken(p, Elems(block), Elems(block) + refused, taken)
  {
  }

  /** The candidate chosen is the best open one, with totals that count enough. */
  lemma ChosenIsBest(p: Pool, rules: Rules, order: seq<Txid>, mi: nat, block: seq<Txid>, maxWeight: int, k: Track,
                     usingModified: bool, t: Txid, m: Modified)
    requires p.Valid() && Sorted(p, order) && mi <= |order| && Tracking(p, rules, block, maxWeight, k)
    requires Settled(order, mi, Elems(block), k.modified.Keys, k.refused) && Top(p, order, mi, k.modified, t, m)
    requires mi < |order| ==> order[mi] !in k.modified && order[mi] !in Elems(block)
    requires if usingModified then t in k.modified && m == k.modified[t]
             else mi < |order| && t == order[mi] && m == PoolTotals(p, t)
    ensures BestOpen(p, order, block, k, t) && m == Current(p, k.modified, t) && t in p.txs && t !in Elems(block)
    ensures CountsEnough(p, Elems(block), t, m)
  {
    hide Score, NoBetter, Before, LeftOut, CountsEnough, TakenOff, Pool.Valid;
    if usingModified {
      assert EntryTracked(p, Elems(block), t, m, k.taken[t]);
      TrackedCounts(p, Elems(block), t, m, k.taken[t]);
    } else {
      assert t in order;
      TakenNone(p, t);
      TrackedCounts(p, Elems(block), t, m, []);
    }
    forall x | x in order && x !in block && x !in k.refused
      ensures NoBetter(Score(p, x, Current(p, k.modified, x)), Score(p, t, Current(p, k.modified, t)))
    {
      var i :| 0 <= i < |order| && order[i] == x;
      assert i < mi ==> x in k.modified;
    }
  }

  lemma TakenNone(p: Pool, t: Txid)
    ensures TakenOff(p, t, []) == PoolTotals(p, t)
  {
  }

  lemma LeftOutKept(p: Pool, rules: Rules, was: seq<Txid>, block: seq<Txid>, maxWeight: int, x: Txid)
    requires LeftOut(p, rules, was, maxWeight, x) && was <= block
    ensures LeftOut(p, rules, block, maxWeight, x)
  {
    hide Overfull, Barred, Elems;
    if !Barred(p, rules, x) {
      var k: nat :| k <= |was| && Overfull(p, Elems(was[..k]), maxWeight, x);
      assert block[..k] == was[..k];
    }
  }

  /** A refused candidate goes away, and is not kept up to date from then on. */
  lemma Refuse(p: Pool, rules: Rules, block: seq<Txid>, maxWeight: int, k: Track, t: Txid)
    requires Tracking(p, rules, block, maxWeight, k) && LeftOut(p, rules, block, maxWeight, t)
    ensures Tracking(p, rules, block, maxWeight, k.(refused := k.refused + {t}))
    ensures Tracking(p, rules, block, maxWeight, Track(k.modified - {t}, k.taken - {t}, k.refused + {t}))
  {
    hide LeftOut, EntryTracked, Elems;
  }

  lemma TrackingGrows(p: Pool, rules: Rules, was: seq<Txid>, block: seq<Txid>, inBlock: set<Txid>, maxWeight: int,
                      k: Track, modified: ModifiedMap, taken: Taken)
    requires Tracking(p, rules, was, maxWeight, k) && was <= block && Elems(block) == inBlock
    requires Tracked(p, inBlock, modified, taken) && AllTaken(p, inBlock, inBlock + k.refused, taken)
    ensures Tracking(p, rules, block, maxWeight, Track(modified, taken, k.refused))
  {
    hide LeftOut, Tracked, AllTaken, Elems;
    forall x | x in k.refused ensures LeftOut(p, rules, block, maxWeight, x)
    {
      LeftOutKept(p, rules, was, block, maxWeight, x);
    }
  }

  /** The candidates seen so far are in the block, to be considered again, or refused. */
  ghost predicate Settled(order: seq<Txid>, mi: nat, inBlock: set<Txid>, keys: set<Txid>, refused: set<Txid>) {
    forall i | 0 <= i < mi && i < |order| :: order[i] in inBlock || order[i] in keys || order[i] in refused
  }

  lemma NothingSettled(order: seq<Txid>, inBlock: set<Txid>, keys: set<Txid>)
    ensures Settled(order, 0, inBlock, keys, {})
  {
  }

  lemma SettledNext(order: seq<Txid>, mi: nat, inBlock: set<Txid>, keys: set<Txid>, refused: set<Txid>)
    requires Settled(order, mi, inBlock, keys, refused) && mi < |order|
    requires order[mi] in inBlock || order[mi] in keys || order[mi] in refused
    ensures Settled(order, mi + 1, inBlock, keys, refused)
  {
  }

  lemma SettledRefused(order: seq<Txid>, mi: nat, inBlock: set<Txid>, keys: set<Txid>, refused: set<Txid>, t: Txid,
                       usingModified: bool)
    requires mi <= |order| && if usingModified then Settled(order, mi, inBlock, keys, refused)
             else mi > 0 && order[mi - 1] == t && Settled(order, mi - 1, inBlock, keys, refused)
    ensures Settled(order, mi, inBlock, keys, refused + {t}) && Settled(order, mi, inBlock, keys - {t}, refused + {t})
  {
  }

  /** The block only grows, and a modified entry that goes away is in it. */
  lemma SettledGrows(order: seq<Txid>, mi: nat, was: set<Txid>, inBlock: set<Txid>, keys: set<Txid>, keys': set<Txid>,
                     refused: set<Txid>, t: Txid, usingModified: bool)
    requires mi <= |order| && if usingModified then Settled(order, mi, was, keys, refused)
             else mi > 0 && order[mi - 1] == t && Settled(order, mi - 1, was, keys, refused)
    requires was <= inBlock && keys <= keys' + inBlock && t in inBlock
    ensures Settled(order, mi, inBlock, keys', refused)
  {
  }

  lemma AllSettled(order: seq<Txid>, mi: nat, block: seq<Txid>, inBlock: set<Txid>, keys: set<Txid>, refused: set<Txid>)
    requires mi == |order| && keys == {} && Settled(order, mi, inBlock, keys, refused) && Elems(block) == inBlock
    ensures forall t | t in order :: t in block || t in refused
  {
  }

  lemma BarredBy(p: Pool, rules: Rules, t: Txid, inBlock: set<Txid>)
    requires !forall x | x in p.Package(t) - inBlock :: rules.Allows(p, x)
    ensures Barred(p, rules, t)
  {
    hide Rules.Allows;
    var x :| x in p.Package(t) - inBlock && !rules.Allows(p, x);
    assert x in p.Package(t) && !rules.Allows(p, x);
  }

  lemma BarredLeftOut(p: Pool, rules: Rules, block: seq<Txid>, maxWeight: int, t: Txid)
    requires Barred(p, rules, t)
    ensures LeftOut(p, rules, block, maxWeight, t)
  {
  }

  /** Totals that fail the size test are those of what is missing, unless the entry had been refused before. */
  lemma TooLarge(p: Pool, rules: Rules, block: seq<Txid>, inBlock: set<Txid>, weight: int, sigOps: int, fees: int,
                 maxWeight: int, k: Track, t: Txid, m: Modified)
    requires p.Valid() && Tracking(p, rules, block, maxWeight, k) && TotalsOk(p, block, inBlock, weight, sigOps, fees)
    requires Elems(block) == inBlock && t in p.txs && t !in inBlock && m == Current(p, k.modified, t)
    requires weight + WITNESS_SCALE_FACTOR * m.size >= maxWeight || sigOps + m.sigOps >= MAX_BLOCK_SIGOPS_COST
    ensures LeftOut(p, rules, block, maxWeight, t)
  {
    hide Total, Barred, Pool.Valid, Tracked, AllTaken, Elems, Current;
    if t !in k.refused {
      OpenTotals(p, inBlock, inBlock + k.refused, k.modified, k.taken, t);
      assert block[..|block|] == block;
      assert Overfull(p, Elems(block[..|block|]), maxWeight, t);
    }
  }

  lemma CandidateFacts(p: Pool, rules: Rules, block: seq<Txid>, inBlock: set<Txid>, iter: Txid, m: Modified)
    requires p.Valid() && ContentOk(p, rules, block, inBlock) && CountsEnough(p, inBlock, iter, m)
    ensures Closed(p, inBlock) && iter in p.txs && iter !in inBlock && p.Package(iter) <= p.txs
  {
    assert p.EntryOk(iter);
  }

  lemma RestTracked(p: Pool, inBlock: set<Txid>, refused: set<Txid>, modified: ModifiedMap, taken: Taken,
                    package: set<Txid>)
    requires Tracked(p, inBlock, modified, taken) && AllTaken(p, inBlock, inBlock + refused, taken)
    ensures Tracked(p, inBlock, modified - package, taken - package) && (modified - package).Keys !! package
    ensures AllTaken(p, inBlock, inBlock + package + refused, taken - package)
  {
    hide EntryTracked;
  }

  lemma SortedMember(p: Pool, package: set<Txid>, sorted: seq<Txid>)
    requires SortedPackage(p, package, sorted) && sorted != []
    ensures sorted[0] in package
  {
    assert sorted[0] in sorted;
  }

  lemma SortedEmpty(p: Pool, package: set<Txid>, sorted: seq<Txid>)
    requires SortedPackage(p, package, sorted) && sorted == []
    ensures package == {} && forall s: set<Txid> :: s + package == s && s - package == s
  {
    forall t ensures t !in package
    {
      assert t !in sorted;
    }
  }

  lemma MoveOver(inBlock: set<Txid>, rest: set<Txid>, package: set<Txid>, was: set<Txid>, t: Txid)
    requires inBlock + rest == was + package && t in rest
    ensures inBlock + {t} + (rest - {t}) == was + package
  {
    forall x ensures x in inBlock + {t} + (rest - {t}) <==> x in inBlock + rest {}
  }

  lemma ErasedToo(modified: ModifiedMap, package: set<Txid>, rest: set<Txid>, t: Txid)
    requires t in rest && rest <= package
    ensures modified - (package - rest) - {t} == modified - (package - (rest - {t}))
  {
    assert (package - rest) + {t} == package - (rest - {t});
  }
}
