/** Keeping the totals of packages up to date while their ancestors enter the block. */
module BlockAssembly {
  import opened Mempool

  const MAX_BLOCK_WEIGHT := 4000000
  const MAX_BLOCK_SIGOPS_COST := 80000
  const MAX_CONSECUTIVE_FAILURES := 1000
  const COINBASE_WEIGHT := 4000
  const COINBASE_SIGOPS := 400

  /** An entry's totals without the ancestors already in the block. */
  datatype Modified = Modified(size: int, fees: int, sigOps: int)

  type ModifiedMap = map<Txid, Modified>

  // ---- what a block has to be ----

  ghost predicate Closed(p: Pool, inBlock: set<Txid>) {
    inBlock <= p.txs && forall t | t in inBlock :: p.anc(t) <= inBlock
  }

  /** Every transaction once, and after all its ancestors. */
  ghost predicate Ordered(p: Pool, block: seq<Txid>) {
    && (forall i, j | 0 <= i < j < |block| :: block[i] != block[j])
    && (forall i, a | 0 <= i < |block| && a in p.anc(block[i]) :: a in block[..i])
  }

  // ---- what the totals of an entry are ----

  /** The totals the pool keeps for an entry. */
  function PoolTotals(p: Pool, t: Txid): Modified {
    Modified(p.sizeWithAncestors(t), p.modFeesWithAncestors(t), p.sigOpsWithAncestors(t))
  }

  /** The totals the search goes by. */
  function Current(p: Pool, modified: ModifiedMap, d: Txid): Modified {
    if d in modified then modified[d] else PoolTotals(p, d)
  }

  /** One ancestor less. Its modified fee comes off the first time, its plain fee later on. */
  function Less(p: Pool, m: Modified, it: Txid, again: bool): Modified {
    Modified(m.size - p.size(it), m.fees - (if again then p.fee(it) else p.modFee(it)), m.sigOps - p.sigOps(it))
  }

  /** The pool's totals of an entry with some transactions taken off in turn. */
  function TakenOff(p: Pool, d: Txid, taken: seq<Txid>): Modified {
    if taken == [] then PoolTotals(p, d)
    else
      var n := |taken| - 1;
      Less(p, TakenOff(p, d, taken[..n]), taken[n], n > 0)
  }

  /** What has been taken off each modified entry. */
  type Taken = map<Txid, seq<Txid>>

  function Off(taken: Taken, d: Txid): seq<Txid> {
    if d in taken then taken[d] else []
  }

  function Elems(s: seq<Txid>): set<Txid> {
    set t | t in s
  }

  ghost predicate Distinct(s: seq<Txid>) {
    forall i, j | 0 <= i < j < |s| :: s[i] != s[j]
  }

  /** A modified entry is the pool's, with some of its ancestors that are in the block taken off once each. */
  ghost predicate EntryTracked(p: Pool, inBlock: set<Txid>, d: Txid, m: Modified, taken: seq<Txid>) {
    && d in p.txs && d !in inBlock && taken != [] && Distinct(taken)
    && (forall a | a in taken :: a in p.anc(d) && a in inBlock)
    && m == TakenOff(p, d, taken)
  }

  ghost predicate Tracked(p: Pool, inBlock: set<Txid>, modified: ModifiedMap, taken: Taken) {
    && taken.Keys == modified.Keys
    && forall d | d in modified :: EntryTracked(p, inBlock, d, modified[d], taken[d])
  }

  /** Nothing in the block is still counted for an entry outside `skip`. */
  ghost predicate AllTaken(p: Pool, inBlock: set<Txid>, skip: set<Txid>, taken: Taken) {
    forall d, a | d in p.txs && d !in skip && a in p.anc(d) && a in inBlock :: a in Off(taken, d)
  }

  /** An entry's totals never undercount what it would add to the block, nor exceed the pool's totals for it. */
  ghost predicate CountsEnough(p: Pool, inBlock: set<Txid>, d: Txid, m: Modified) {
    && d in p.txs && d !in inBlock
    && m.size >= Total(p.size, p.Package(d) - inBlock)
    && m.sigOps >= Total(p.sigOps, p.Package(d) - inBlock)
    && m.size <= p.sizeWithAncestors(d) && m.sigOps <= p.sigOpsWithAncestors(d)
  }

  /** By how much the plain fees taken off miss the modified ones. */
  function Drift(p: Pool, taken: seq<Txid>): int {
    if |taken| <= 1 then 0
    else
      var n := |taken| - 1;
      Drift(p, taken[..n]) + p.modFee(taken[n]) - p.fee(taken[n])
  }

  /** Taking off in turn subtracts the totals of what is taken off, up to the drift of the fees. */
  lemma {:induction false} TakenTotals(p: Pool, d: Txid, taken: seq<Txid>)
    requires Distinct(taken)
    ensures var m := TakenOff(p, d, taken);
            && m.size == p.sizeWithAncestors(d) - Total(p.size, Elems(taken))
            && m.sigOps == p.sigOpsWithAncestors(d) - Total(p.sigOps, Elems(taken))
            && m.fees == p.modFeesWithAncestors(d) - FeeTotal(p.modFee, Elems(taken)) + Drift(p, taken)
  {
    if taken != [] {
      hide Total, FeeTotal;
      var n := |taken| - 1;
      var x := taken[n];
      TakenTotals(p, d, taken[..n]);
      LastElem(taken);
      TotalRemove(p.size, Elems(taken), x);
      TotalRemove(p.sigOps, Elems(taken), x);
      FeeRemove(p.modFee, Elems(taken), x);
    } else {
      assert Elems(taken) == {};
    }
  }

  lemma LastElem(s: seq<Txid>)
    requires Distinct(s) && s != []
    ensures s[|s| - 1] in Elems(s) && Elems(s[..|s| - 1]) == Elems(s) - {s[|s| - 1]}
  {
    var n := |s| - 1;
    forall t ensures t in s[..n] <==> t in s && t != s[n]
    {
      if t in s && t != s[n] {
        var i :| 0 <= i < |s| && s[i] == t;
        assert s[..n][i] == t;
      }
    }
  }

  lemma TrackedCounts(p: Pool, inBlock: set<Txid>, d: Txid, m: Modified, taken: seq<Txid>)
    requires p.Valid() && d in p.txs && d !in inBlock && Distinct(taken) && m == TakenOff(p, d, taken)
    requires forall a | a in taken :: a in p.anc(d) && a in inBlock
    ensures CountsEnough(p, inBlock, d, m)
  {
    hide Total, FeeTotal;
    TakenTotals(p, d, taken);
    assert p.EntryOk(d);
    var package, off := p.Package(d), Elems(taken);
    assert off <= package && package - inBlock <= package - off;
    TotalSubset(p.size, off, package);
    TotalSubset(p.sigOps, off, package);
    TotalSubset(p.size, package - inBlock, package - off);
    TotalSubset(p.sigOps, package - inBlock, package - off);
  }

  lemma OffIs(p: Pool, inBlock: set<Txid>, skip: set<Txid>, modified: ModifiedMap, taken: Taken, d: Txid)
    requires Tracked(p, inBlock, modified, taken) && AllTaken(p, inBlock, skip, taken)
    requires d in p.txs && d !in inBlock && d !in skip
    ensures var off := Off(taken, d);
            && Distinct(off) && Current(p, modified, d) == TakenOff(p, d, off)
            && Elems(off) <= p.Package(d) && p.Package(d) - Elems(off) == p.Package(d) - inBlock
  {
    if d in modified {
      assert EntryTracked(p, inBlock, d, modified[d], taken[d]);
    }
    assert Elems(Off(taken, d)) == p.anc(d) * inBlock;
  }

  /** The totals of an entry with nothing missed are those of what it would add; the fees drift with what was taken
      off. */
  lemma OpenTotals(p: Pool, inBlock: set<Txid>, skip: set<Txid>, modified: ModifiedMap, taken: Taken, d: Txid)
    requires p.Valid() && Tracked(p, inBlock, modified, taken) && AllTaken(p, inBlock, skip, taken)
    requires d in p.txs && d !in inBlock && d !in skip
    ensures var m, missing := Current(p, modified, d), p.Package(d) - inBlock;
            && m.size == Total(p.size, missing) && m.sigOps == Total(p.sigOps, missing)
            && m.fees == FeeTotal(p.modFee, missing) + Drift(p, Off(taken, d))
  {
    OffIs(p, inBlock, skip, modified, taken, d);
    var off, package := Off(taken, d), p.Package(d);
    hide Total, FeeTotal, Tracked, AllTaken, Off, Current, TakenOff, Drift, Elems;
    TakenTotals(p, d, off);
    assert p.EntryOk(d);
    TotalSubset(p.size, Elems(off), package);
    TotalSubset(p.sigOps, Elems(off), package);
    FeeSubset(p.modFee, Elems(off), package);
  }

  /** So the fees are right exactly when the plain fees taken off add up to the modified ones. */
  lemma FeesRight(p: Pool, inBlock: set<Txid>, skip: set<Txid>, modified: ModifiedMap, taken: Taken, d: Txid)
    requires p.Valid() && Tracked(p, inBlock, modified, taken) && AllTaken(p, inBlock, skip, taken)
    requires d in p.txs && d !in inBlock && d !in skip
    ensures Current(p, modified, d).fees == FeeTotal(p.modFee, p.Package(d) - inBlock) <==> Drift(p, Off(taken, d)) == 0
    ensures (forall t :: p.modFee(t) == p.fee(t)) ==> Drift(p, Off(taken, d)) == 0
  {
    OpenTotals(p, inBlock, skip, modified, taken, d);
    if forall t :: p.modFee(t) == p.fee(t) {
      NoDrift(p, Off(taken, d));
    }
  }

  lemma {:induction false} NoDrift(p: Pool, taken: seq<Txid>)
    requires forall t :: p.modFee(t) == p.fee(t)
    ensures Drift(p, taken) == 0
  {
    if |taken| > 1 {
      NoDrift(p, taken[..|taken| - 1]);
    }
  }

  // ---- UpdatePackagesForAdded ----

  /** `taken` is a history of an entry: empty exactly for one that is not modified. */
  ghost predicate Records(p: Pool, modified: ModifiedMap, d: Txid, taken: seq<Txid>) {
    Current(p, modified, d) == TakenOff(p, d, taken) && (taken == [] <==> d !in modified)
  }

  /** Takes one transaction off a descendant's current totals, and puts it at the end of its history. */
  method UpdateForParentInclusion(p: Pool, modified: ModifiedMap, it: Txid, desc: Txid) returns (modified': ModifiedMap)
    ensures modified'.Keys == modified.Keys + {desc} && forall d | d in modified && d != desc ::
              modified'[d] == modified[d]
    ensures var m, m' := Current(p, modified, desc), modified'[desc];
            && m.size - m'.size == p.size(it) && m.sigOps - m'.sigOps == p.sigOps(it)
            && m.fees - m'.fees == if desc in modified then p.fee(it) else p.modFee(it)
    ensures forall taken | Records(p, modified, desc, taken) :: Records(p, modified', desc, taken + [it])
  {
    if desc !in modified {
      modified' := modified[desc := Modified(p.sizeWithAncestors(desc) - p.size(it),
                                             p.modFeesWithAncestors(desc) - p.modFee(it),
                                             p.sigOpsWithAncestors(desc) - p.sigOps(it))];
    } else {
      var m := modified[desc];
      modified' := modified[desc := Modified(m.size - p.size(it), m.fees - p.fee(it), m.sigOps - p.sigOps(it))];
    }
    forall taken | Records(p, modified, desc, taken) ensures Records(p, modified', desc, taken + [it])
    {
      assert (taken + [it])[..|taken|] == taken;
    }
  }

  /** `modified'` is `modified` with `it` taken off exactly the entries of `changed`. */
  ghost predicate UpdatedOn(p: Pool, modified: ModifiedMap, modified': ModifiedMap, it: Txid, changed: set<Txid>) {
    && modified'.Keys == modified.Keys + changed
    && forall d | d in modified' ::
         modified'[d] == if d in changed then Less(p, Current(p, modified, d), it, d in modified) else modified[d]
  }

  /** Updates the descendants of one added transaction. */
  method UpdateDescendants(p: Pool, modified: ModifiedMap, added: set<Txid>, it: Txid)
    returns (modified': ModifiedMap, updated: nat)
    ensures UpdatedOn(p, modified, modified', it, p.Descendants(it) - added)
    ensures updated == |p.Descendants(it) - added|
  {
    hide UpdatedOn, Current, Pool.Descendants, Visited, Records;
    modified', updated := modified, 0;
    NothingUpdated(p, modified, it);
    VisitedEnds(p.Descendants(it), added);
    var all := p.Descendants(it);
    var todo := all;
    ghost var done: set<Txid> := {};
    while todo != {}
      invariant Visited(all, todo, added, done)
      invariant UpdatedOn(p, modified, modified', it, done)
      invariant updated == |done|
    {
      var desc :| desc in todo;
      VisitedStep(all, todo, added, done, desc);
      todo := todo - {desc};
      if desc !in added {
        updated := updated + 1;
        ghost var was := modified';
        modified' := UpdateForParentInclusion(p, modified', it, desc);
        UpdatedStep(p, modified, was, modified', it, done, desc);
        done := done + {desc};
      }
    }
  }

  /** A walk over `all` that skips `added` has done all but `todo`. */
  ghost predicate Visited(all: set<Txid>, todo: set<Txid>, added: set<Txid>, done: set<Txid>) {
    todo <= all && done == all - added - todo
  }

  lemma VisitedStep(all: set<Txid>, todo: set<Txid>, added: set<Txid>, done: set<Txid>, x: Txid)
    requires Visited(all, todo, added, done) && x in todo
    ensures x !in done && Visited(all, todo - {x}, added, if x in added then done else done + {x})
  {
    forall d ensures d in (if x in added then done else done + {x}) <==> d in all - added - (todo - {x}) {}
  }

  lemma VisitedEnds(all: set<Txid>, added: set<Txid>)
    ensures Visited(all, all, added, {})
    ensures forall done :: Visited(all, {}, added, done) ==> done == all - added
  {
    assert all - added - all == {};
    assert all - added - {} == all - added;
  }

  lemma NothingUpdated(p: Pool, modified: ModifiedMap, it: Txid)
    ensures UpdatedOn(p, modified, modified, it, {})
  {
  }

  lemma UpdatedStep(p: Pool, modified: ModifiedMap, was: ModifiedMap, m: ModifiedMap, it: Txid, done: set<Txid>,
                    d: Txid)
    requires UpdatedOn(p, modified, was, it, done) && d !in done
    requires m.Keys == was.Keys + {d} && forall x | x in was && x != d :: m[x] == was[x]
    requires var a, b := Current(p, was, d), m[d];
             && a.size - b.size == p.size(it) && a.sigOps - b.sigOps == p.sigOps(it)
             && a.fees - b.fees == if d in was then p.fee(it) else p.modFee(it)
    ensures UpdatedOn(p, modified, m, it, done + {d})
  {
  }

  /** The histories once `it` was taken off the entries of `changed`. */
  function Took(taken: Taken, it: Txid, changed: set<Txid>): Taken {
    map d | d in taken.Keys + changed :: if d in changed then Off(taken, d) + [it] else Off(taken, d)
  }

  /** Between two additions: the block holds `inBlock`, of the package `added` the transactions of
      `seen` have been taken off their descendants. */
  ghost predicate Updating(p: Pool, inBlock: set<Txid>, added: set<Txid>, seen: set<Txid>, refused: set<Txid>,
                           modified: ModifiedMap, taken: Taken)
  {
    && modified.Keys !! added && Tracked(p, inBlock + seen, modified, taken)
    && AllTaken(p, inBlock + seen, inBlock + added + refused, taken)
  }

  /** Taking one more transaction off keeps every history. */
  lemma UpdateKeeps(p: Pool, inBlock: set<Txid>, added: set<Txid>, seen: set<Txid>, refused: set<Txid>,
                    modified: ModifiedMap, taken: Taken, it: Txid, modified': ModifiedMap)
    requires p.Valid() && Closed(p, inBlock) && added <= p.txs && inBlock !! added
    requires Updating(p, inBlock, added, seen, refused, modified, taken) && seen <= added && it in added && it !in seen
    requires UpdatedOn(p, modified, modified', it, p.Descendants(it) - added)
    ensures Updating(p, inBlock, added, seen + {it}, refused, modified', Took(taken, it, p.Descendants(it) - added))
  {
    hide EntryTracked, TakenOff, Pool.Valid;
    var before, changed := inBlock + seen, p.Descendants(it) - added;
    var taken' := Took(taken, it, changed);
    assert inBlock + (seen + {it}) == before + {it};
    forall d | d in modified' ensures EntryTracked(p, before + {it}, d, modified'[d], taken'[d])
    {
      if d in modified {
        assert EntryTracked(p, before, d, modified[d], taken[d]);
      }
      if d in changed {
        // a block member's ancestors are in the block, so `d`, a descendant of `it`, is not
        assert d !in inBlock;
        TakesOne(p, before, modified, taken, it, d);
      } else {
        StillTracked(p, before, d, modified[d], taken[d], it);
      }
    }
  }

  lemma StillTracked(p: Pool, before: set<Txid>, d: Txid, m: Modified, taken: seq<Txid>, it: Txid)
    requires EntryTracked(p, before, d, m, taken) && d != it
    ensures EntryTracked(p, before + {it}, d, m, taken)
  {
  }

  lemma TakesOne(p: Pool, before: set<Txid>, modified: ModifiedMap, taken: Taken, it: Txid, d: Txid)
    requires d in p.txs && d !in before && d != it && it in p.anc(d) && it !in before && taken.Keys == modified.Keys
    requires d in modified ==> EntryTracked(p, before, d, modified[d], taken[d])
    ensures EntryTracked(p, before + {it}, d, Less(p, Current(p, modified, d), it, d in modified), Off(taken, d) + [it])
  {
    var off := Off(taken, d);
    assert (off + [it])[..|off|] == off;
    assert it !in off;
  }

  /** The entries that depend on something of `added`. */
  ghost function Dependents(p: Pool, added: set<Txid>, seen: set<Txid>): set<Txid> {
    set d | d in p.txs && d !in added && p.anc(d) * seen != {}
  }

  lemma DependentsGrow(p: Pool, added: set<Txid>, seen: set<Txid>, it: Txid)
    requires it in added
    ensures Dependents(p, added, seen + {it}) == Dependents(p, added, seen) + (p.Descendants(it) - added)
  {
    forall d
      ensures d in Dependents(p, added, seen + {it}) <==> d in Dependents(p, added, seen) + (p.Descendants(it) - added)
    {
      assert p.anc(d) * (seen + {it}) == p.anc(d) * seen + (if it in p.anc(d) then {it} else {});
    }
  }

  /** Takes everything added off everything that depends on it; `refused` are entries that need not be up to date. */
  method UpdatePackagesForAdded(p: Pool, added: set<Txid>, modified: ModifiedMap,
                                ghost inBlock: set<Txid>, ghost taken: Taken, ghost refused: set<Txid>)
    returns (modified': ModifiedMap, updated: nat, ghost taken': Taken)
    requires p.Valid() && Closed(p, inBlock) && added <= p.txs && inBlock !! added
    requires Tracked(p, inBlock, modified, taken) && AllTaken(p, inBlock, inBlock + added + refused, taken) &&
             modified.Keys !! added
    ensures Tracked(p, inBlock + added, modified', taken')
    ensures AllTaken(p, inBlock + added, inBlock + added + refused, taken')
    ensures modified'.Keys == modified.Keys + Dependents(p, added, added)
  {
    hide Dependents, UpdatedOn, Tracked, AllTaken, Pool.Descendants, Closed, Pool.Valid, Updating, Visited, Took;
    modified', updated, taken' := modified, 0, taken;
    var todo := added;
    ghost var seen: set<Txid> := {};
    UpdatingStarts(p, inBlock, added, refused, modified, taken);
    VisitedEnds(added, {});
    while todo != {}
      invariant Visited(added, todo, {}, seen)
      invariant Updating(p, inBlock, added, seen, refused, modified', taken')
      invariant modified'.Keys == modified.Keys + Dependents(p, added, seen)
    {
      ghost var was := modified';
      var it :| it in todo;
      VisitedStep(added, todo, {}, seen, it);
      VisitedIn(added, todo, seen, it);
      var n;
      modified', n := UpdateDescendants(p, modified', added, it);
      UpdateKeeps(p, inBlock, added, seen, refused, was, taken', it, modified');
      UpdatedKeys(p, was, modified', it, p.Descendants(it) - added);
      DependentsGrow(p, added, seen, it);
      Regroup(modified.Keys, Dependents(p, added, seen), p.Descendants(it) - added);
      taken' := Took(taken', it, p.Descendants(it) - added);
      todo := todo - {it};
      seen := seen + {it};
      updated := updated + n;
    }
    UpdatingEnds(p, inBlock, added, seen, refused, modified', taken');
  }

  lemma Regroup<T>(a: set<T>, b: set<T>, c: set<T>)
    ensures a + b + c == a + (b + c)
  {
  }

  lemma VisitedIn(all: set<Txid>, todo: set<Txid>, done: set<Txid>, x: Txid)
    requires Visited(all, todo, {}, done) && x in todo
    ensures x in all && done <= all
  {
  }

  lemma UpdatingStarts(p: Pool, inBlock: set<Txid>, added: set<Txid>, refused: set<Txid>, modified: ModifiedMap,
                       taken: Taken)
    requires Tracked(p, inBlock, modified, taken) && AllTaken(p, inBlock, inBlock + added + refused, taken) &&
             modified.Keys !! added
    ensures Updating(p, inBlock, added, {}, refused, modified, taken)
    ensures modified.Keys == modified.Keys + Dependents(p, added, {})
  {
    hide EntryTracked;
    assert inBlock + {} == inBlock;
    NoDependents(p, added);
  }

  lemma UpdatingEnds(p: Pool, inBlock: set<Txid>, added: set<Txid>, seen: set<Txid>, refused: set<Txid>,
                     modified: ModifiedMap, taken: Taken)
    requires Updating(p, inBlock, added, seen, refused, modified, taken) && Visited(added, {}, {}, seen)
    ensures seen == added && Tracked(p, inBlock + added, modified, taken)
    ensures AllTaken(p, inBlock + added, inBlock + added + refused, taken)
  {
    hide EntryTracked;
    assert added - {} - {} == added;
  }

  lemma NoDependents(p: Pool, added: set<Txid>)
    ensures Dependents(p, added, {}) == {}
  {
    forall d ensures d !in Dependents(p, added, {})
    {
      assert p.anc(d) * {} == {};
    }
  }

  lemma UpdatedKeys(p: Pool, modified: ModifiedMap, modified': ModifiedMap, it: Txid, changed: set<Txid>)
    requires UpdatedOn(p, modified, modified', it, changed)
    ensures modified'.Keys == modified.Keys + changed
  {
  }
}
