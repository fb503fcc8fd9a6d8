/** The memory pool as the block assembler sees it: a finite DAG with ancestor totals. */
module Mempool {
  import opened Collections

  datatype Txid = Txid(hash: nat)

  const WITNESS_SCALE_FACTOR := 4

  /** Ancestors are the in-pool transactions a transaction depends on, directly or not, without
      itself. The `...WithAncestors` totals are what the pool caches per entry. */
  datatype Pool = Pool(
    txs: set<Txid>,
    anc: Txid -> set<Txid>,
    size: Txid -> nat, weight: Txid -> nat, sigOps: Txid -> nat, fee: Txid -> int, modFee: Txid -> int,
    sizeWithAncestors: Txid -> nat, sigOpsWithAncestors: Txid -> nat, modFeesWithAncestors: Txid -> int,
    countWithAncestors: Txid -> nat,
    isFinal: Txid -> bool, hasWitness: Txid -> bool, isBct: Txid -> bool)
  {
    /** A transaction with its ancestors: its package. */
    function Package(t: Txid): set<Txid> {
      anc(t) + {t}
    }

    ghost predicate EntryOk(t: Txid) {
      && anc(t) <= txs && t !in anc(t)
      && (forall a | a in anc(t) :: anc(a) <= anc(t))
      && size(t) > 0 && weight(t) <= WITNESS_SCALE_FACTOR * size(t)
      && sizeWithAncestors(t) == Total(size, Package(t))
      && sigOpsWithAncestors(t) == Total(sigOps, Package(t))
      && modFeesWithAncestors(t) == FeeTotal(modFee, Package(t))
      && countWithAncestors(t) == |Package(t)|
    }

    ghost predicate Valid() {
      forall t | t in txs :: EntryOk(t)
    }

    function Descendants(t: Txid): set<Txid> {
      set d | d in txs && (d == t || t in anc(d))
    }
  }

  // ---- totals over sets ----

  ghost function Total(f: Txid -> nat, s: set<Txid>): nat {
    if s == {} then 0 else var x := Pick(s); f(x) + Total(f, s - {x})
  }

  lemma {:induction false} TotalRemove(f: Txid -> nat, s: set<Txid>, x: Txid)
    requires x in s
    ensures Total(f, s) == f(x) + Total(f, s - {x})
    decreases |s|
  {
    var y := Pick(s);
    if x != y {
      TotalRemove(f, s - {y}, x);
      TotalRemove(f, s - {x}, y);
      assert s - {y} - {x} == s - {x} - {y};
    }
  }

  lemma TotalAdd(f: Txid -> nat, s: set<Txid>, x: Txid)
    requires x !in s
    ensures Total(f, s + {x}) == f(x) + Total(f, s)
  {
    TotalRemove(f, s + {x}, x);
    assert s + {x} - {x} == s;
  }

  lemma {:induction false} TotalUnion(f: Txid -> nat, a: set<Txid>, b: set<Txid>)
    requires a !! b
    ensures Total(f, a + b) == Total(f, a) + Total(f, b)
    decreases |a|
  {
    if a == {} {
      assert a + b == b;
    } else {
      var x := Pick(a);
      TotalUnion(f, a - {x}, b);
      TotalRemove(f, a + b, x);
      assert a + b - {x} == (a - {x}) + b;
    }
  }

  lemma TotalSubset(f: Txid -> nat, a: set<Txid>, b: set<Txid>)
    requires a <= b
    ensures Total(f, b) == Total(f, a) + Total(f, b - a)
  {
    TotalUnion(f, a, b - a);
    assert a + (b - a) == b;
  }

  /** Fees may be negative once they are modified. */
  ghost function FeeTotal(f: Txid -> int, s: set<Txid>): int {
    if s == {} then 0 else var x := Pick(s); f(x) + FeeTotal(f, s - {x})
  }

  lemma {:induction false} FeeRemove(f: Txid -> int, s: set<Txid>, x: Txid)
    requires x in s
    ensures FeeTotal(f, s) == f(x) + FeeTotal(f, s - {x})
    decreases |s|
  {
    var y := Pick(s);
    if x != y {
      FeeRemove(f, s - {y}, x);
      FeeRemove(f, s - {x}, y);
      assert s - {y} - {x} == s - {x} - {y};
    }
  }

  lemma {:induction false} FeeSubset(f: Txid -> int, a: set<Txid>, b: set<Txid>)
    requires a <= b
    ensures FeeTotal(f, b) == FeeTotal(f, a) + FeeTotal(f, b - a)
    decreases |a|
  {
    if a == {} {
      assert b - a == b;
    } else {
      var x := Pick(a);
      FeeSubset(f, a - {x}, b - {x});
      FeeRemove(f, b, x);
      assert b - {x} - (a - {x}) == b - a;
    }
  }

  /** The weight of a set of transactions is at most four times its virtual size. */
  lemma {:induction false} WeightBySize(p: Pool, s: set<Txid>)
    requires p.Valid() && s <= p.txs
    ensures Total(p.weight, s) <= WITNESS_SCALE_FACTOR * Total(p.size, s)
    decreases |s|
  {
    if s != {} {
      var x := Pick(s);
      WeightBySize(p, s - {x});
      assert p.EntryOk(x);
      TotalRemove(p.size, s, x);
      TotalRemove(p.weight, s, x);
    }
  }

  /** An ancestor has a smaller ancestor count. */
  lemma AncestorCount(p: Pool, a: Txid, t: Txid)
    requires p.Valid() && t in p.txs && a in p.anc(t)
    ensures a in p.txs && p.countWithAncestors(a) < p.countWithAncestors(t)
  {
    hide Pool.Valid;
    EntryFacts(p, t);
    EntryFacts(p, a);
    SubsetSize(p.Package(a), p.anc(t));
  }

  lemma EntryFacts(p: Pool, t: Txid)
    requires p.Valid() && t in p.txs
    ensures p.anc(t) <= p.txs && p.countWithAncestors(t) == |p.Package(t)| == |p.anc(t)| + 1
    ensures forall a | a in p.anc(t) :: p.Package(a) <= p.anc(t)
  {
    hide Total;
    assert p.EntryOk(t);
    assert |p.Package(t)| == |p.anc(t)| + 1;
  }
}
