/** The score that orders packages: the smaller of a transaction's own fee rate and its package's. Products are exact.
    */
module PackageScore {
  import opened Mempool
  import opened BlockAssembly

  datatype Rate = Rate(fee: int, size: int)

  /** A rate that is not above another one. */
  predicate NoBetter(a: Rate, b: Rate) {
    a.fee * b.size <= b.fee * a.size
  }

  function Score(p: Pool, t: Txid, m: Modified): Rate {
    if p.modFee(t) * m.size > m.fees * p.size(t) then Rate(m.fees, m.size) else Rate(p.modFee(t), p.size(t))
  }

  /** CompareTxMemPoolEntryByAncestorFee: the higher score first, ties by hash. */
  predicate Before(p: Pool, a: Txid, ma: Modified, b: Txid, mb: Modified) {
    var x, y := Score(p, a, ma), Score(p, b, mb);
    if x.fee * y.size == x.size * y.fee then a.hash < b.hash else x.fee * y.size > x.size * y.fee
  }

  /** The score is the smaller rate of the two. */
  lemma ScoreIsSmaller(p: Pool, t: Txid, m: Modified)
    ensures NoBetter(Score(p, t, m), Rate(p.modFee(t), p.size(t))) && NoBetter(Score(p, t, m), Rate(m.fees, m.size))
    ensures Score(p, t, m) == Rate(p.modFee(t), p.size(t)) || Score(p, t, m) == Rate(m.fees, m.size)
  {
  }

  lemma Scaled(a: int, b: int, k: int)
    requires a <= b && k >= 0
    ensures a * k <= b * k
  {
    assert (b - a) * k >= 0;
  }

  lemma Cancel(a: int, b: int, k: int)
    requires a * k <= b * k && k > 0
    ensures a <= b
  {
  }

  lemma NoBetterTrans(a: Rate, b: Rate, c: Rate)
    requires NoBetter(a, b) && NoBetter(b, c) && a.size > 0 && b.size > 0 && c.size > 0
    ensures NoBetter(a, c)
    ensures c.fee * a.size == a.fee * c.size ==> NoBetter(c, b) && NoBetter(b, a)
  {
    Scaled(a.fee * b.size, b.fee * a.size, c.size);
    Scaled(b.fee * c.size, c.fee * b.size, a.size);
    assert a.fee * b.size * c.size == a.fee * c.size * b.size;
    assert b.fee * a.size * c.size == b.fee * c.size * a.size;
    assert c.fee * b.size * a.size == c.fee * a.size * b.size;
    Cancel(a.fee * c.size, c.fee * a.size, b.size);
    if c.fee * a.size == a.fee * c.size {
      Cancel(b.fee * a.size, a.fee * b.size, c.size);
      Cancel(c.fee * b.size, b.fee * c.size, a.size);
    }
  }

  lemma BeforeMeans(p: Pool, a: Txid, ma: Modified, b: Txid, mb: Modified)
    ensures Before(p, a, ma, b, mb) ==> NoBetter(Score(p, b, mb), Score(p, a, ma))
    ensures !Before(p, a, ma, b, mb) ==> NoBetter(Score(p, a, ma), Score(p, b, mb))
    ensures a != b && !Before(p, a, ma, b, mb) ==> Before(p, b, mb, a, ma)
  {
  }

  lemma BeforeTrans(p: Pool, a: Txid, ma: Modified, b: Txid, mb: Modified, c: Txid, mc: Modified)
    requires Before(p, a, ma, b, mb) && Before(p, b, mb, c, mc)
    requires Score(p, a, ma).size > 0 && Score(p, b, mb).size > 0 && Score(p, c, mc).size > 0
    ensures Before(p, a, ma, c, mc)
  {
    hide Score;
    var x, y, z := Score(p, a, ma), Score(p, b, mb), Score(p, c, mc);
    NoBetterTrans(z, y, x);
  }

  ghost predicate Sized(p: Pool, modified: ModifiedMap) {
    forall x | x in modified :: Score(p, x, modified[x]).size > 0
  }

  /** The first of the modified entries by score. */
  method Best(p: Pool, modified: ModifiedMap) returns (best: Txid)
    requires modified != map[] && Sized(p, modified)
    ensures best in modified && forall x | x in modified && x != best :: Before(p, best, modified[best], x, modified[x])
  {
    hide Before, Score;
    assert modified.Keys != {};
    best :| best in modified.Keys;
    var todo := modified.Keys - {best};
    while todo != {}
      invariant best in modified && best !in todo && todo <= modified.Keys
      invariant forall x | x in modified && x !in todo && x != best :: Before(p, best, modified[best], x, modified[x])
    {
      var y :| y in todo;
      todo := todo - {y};
      BeforeMeans(p, y, modified[y], best, modified[best]);
      if Before(p, y, modified[y], best, modified[best]) {
        forall x | x in modified && x !in todo && x != y ensures Before(p, y, modified[y], x, modified[x])
        {
          if x != best {
            BeforeTrans(p, y, modified[y], best, modified[best], x, modified[x]);
          }
        }
        best := y;
      }
    }
  }

  /** The pool's index: best score first. */
  ghost predicate Sorted(p: Pool, order: seq<Txid>) {
    && (forall t | t in order :: t in p.txs)
    && forall i, j | 0 <= i < j < |order| ::
         Before(p, order[i], PoolTotals(p, order[i]), order[j], PoolTotals(p, order[j]))
  }

  ghost predicate ByScore(p: Pool, order: seq<Txid>) {
    Sorted(p, order) && forall t | t in order :: Score(p, t, PoolTotals(p, t)).size > 0
  }

  lemma OwnSize(p: Pool, t: Txid)
    requires p.Valid() && t in p.txs
    ensures p.size(t) > 0 && p.sizeWithAncestors(t) == Total(p.size, p.Package(t))
  {
    hide Total;
    assert p.EntryOk(t);
  }

  lemma ScoreSized(p: Pool, t: Txid, m: Modified, s: set<Txid>)
    requires p.size(t) > 0 && t in s && m.size >= Total(p.size, s)
    ensures Score(p, t, m).size > 0
  {
    TotalRemove(p.size, s, t);
  }

  lemma SortedByScore(p: Pool, order: seq<Txid>)
    requires p.Valid() && Sorted(p, order)
    ensures ByScore(p, order)
  {
    hide Before, Score, Total, Pool.Valid;
    forall t | t in order ensures Score(p, t, PoolTotals(p, t)).size > 0
    {
      OwnSize(p, t);
      ScoreSized(p, t, PoolTotals(p, t), p.Package(t));
    }
  }

  lemma ModifiedSized(p: Pool, inBlock: set<Txid>, modified: ModifiedMap, taken: Taken)
    requires p.Valid() && Tracked(p, inBlock, modified, taken)
    ensures Sized(p, modified)
  {
    hide Score, Total, Pool.Valid, TakenOff;
    forall x | x in modified ensures Score(p, x, modified[x]).size > 0
    {
      assert EntryTracked(p, inBlock, x, modified[x], taken[x]);
      TrackedCounts(p, inBlock, x, modified[x], taken[x]);
      OwnSize(p, x);
      ScoreSized(p, x, modified[x], p.Package(x) - inBlock);
    }
  }

  /** No modified entry, and no entry of the pool from position `mi` on, has a better score. */
  ghost predicate Top(p: Pool, order: seq<Txid>, mi: nat, modified: ModifiedMap, t: Txid, m: Modified) {
    && (forall x | x in modified :: NoBetter(Score(p, x, modified[x]), Score(p, t, m)))
    && forall j | mi <= j < |order| :: NoBetter(Score(p, order[j], PoolTotals(p, order[j])), Score(p, t, m))
  }

  /** The candidate to look at next: the best modified entry when it scores better than the next one of the pool. */
  method Choose(p: Pool, order: seq<Txid>, mi: nat, modified: ModifiedMap)
    returns (usingModified: bool, t: Txid, m: Modified)
    requires mi <= |order| && (mi < |order| || modified != map[]) && ByScore(p, order) && Sized(p, modified)
    ensures usingModified ==> t in modified && m == modified[t]
    ensures !usingModified ==> mi < |order| && t == order[mi] && m == PoolTotals(p, t)
    ensures Top(p, order, mi, modified, t, m)
  {
    hide Before, Score, PoolTotals, NoBetter, Sorted;
    if modified == map[] {
      usingModified, t := false, order[mi];
      m := PoolTotals(p, t);
      FirstIsTop(p, order, mi);
      return;
    }
    var best := Best(p, modified);
    BestIsTop(p, modified, best);
    if mi == |order| {
      return true, best, modified[best];
    }
    var next := order[mi];
    FirstIsTop(p, order, mi);
    BeforeMeans(p, best, modified[best], next, PoolTotals(p, next));
    if Before(p, best, modified[best], next, PoolTotals(p, next)) {
      usingModified, t, m := true, best, modified[best];
      ChainOrder(p, order, mi, Score(p, next, PoolTotals(p, next)), Score(p, t, m));
    } else {
      usingModified, t, m := false, next, PoolTotals(p, next);
      ChainModified(p, modified, Score(p, best, modified[best]), Score(p, t, m));
    }
  }

  lemma FirstIsTop(p: Pool, order: seq<Txid>, mi: nat)
    requires mi < |order| && ByScore(p, order)
    ensures Score(p, order[mi], PoolTotals(p, order[mi])).size > 0
    ensures forall j | mi <= j < |order| ::
              NoBetter(Score(p, order[j], PoolTotals(p, order[j])), Score(p, order[mi], PoolTotals(p, order[mi])))
  {
    hide Before, Score, PoolTotals;
    assert order[mi] in order;
    forall j | mi < j < |order|
      ensures NoBetter(Score(p, order[j], PoolTotals(p, order[j])), Score(p, order[mi], PoolTotals(p, order[mi])))
    {
      BeforeMeans(p, order[mi], PoolTotals(p, order[mi]), order[j], PoolTotals(p, order[j]));
    }
  }

  lemma BestIsTop(p: Pool, modified: ModifiedMap, best: Txid)
    requires best in modified && Sized(p, modified)
    requires forall x | x in modified && x != best :: Before(p, best, modified[best], x, modified[x])
    ensures Score(p, best, modified[best]).size > 0
    ensures forall x | x in modified :: NoBetter(Score(p, x, modified[x]), Score(p, best, modified[best]))
  {
    hide Before, Score;
    forall x | x in modified && x != best ensures NoBetter(Score(p, x, modified[x]), Score(p, best, modified[best]))
    {
      BeforeMeans(p, best, modified[best], x, modified[x]);
    }
  }

  lemma ChainOrder(p: Pool, order: seq<Txid>, mi: nat, mid: Rate, top: Rate)
    requires ByScore(p, order) && mid.size > 0 && top.size > 0 && NoBetter(mid, top)
    requires forall j | mi <= j < |order| :: NoBetter(Score(p, order[j], PoolTotals(p, order[j])), mid)
    ensures forall j | mi <= j < |order| :: NoBetter(Score(p, order[j], PoolTotals(p, order[j])), top)
  {
    hide Before, Score, PoolTotals, NoBetter;
    forall j | mi <= j < |order| ensures NoBetter(Score(p, order[j], PoolTotals(p, order[j])), top)
    {
      assert order[j] in order;
      NoBetterTrans(Score(p, order[j], PoolTotals(p, order[j])), mid, top);
    }
  }

  lemma ChainModified(p: Pool, modified: ModifiedMap, mid: Rate, top: Rate)
    requires Sized(p, modified) && mid.size > 0 && top.size > 0 && NoBetter(mid, top)
    requires forall x | x in modified :: NoBetter(Score(p, x, modified[x]), mid)
    ensures forall x | x in modified :: NoBetter(Score(p, x, modified[x]), top)
  {
    hide Score, NoBetter;
    forall x | x in modified ensures NoBetter(Score(p, x, modified[x]), top)
    {
      NoBetterTrans(Score(p, x, modified[x]), mid, top);
    }
  }
}
