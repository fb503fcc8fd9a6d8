/** Whole runs of a stack of coin caches against a stack of plain maps. */
module CoinsRuns {
  import opened Collections
  import opened Coins
  import opened CoinsViews

  /** One call on a stack. Levels count down from the top cache (0). Changes are made at
      the top; lookups, Uncache and Flush may be made on any cache of the stack. */
  datatype Op =
    | Add(o: OutPoint, coin: Coin, possibleOverwrite: bool)
    | Spend(o: OutPoint)
    | Lookup(level: nat, o: OutPoint)
    | Uncache(level: nat, o: OutPoint)
    | Flush(level: nat)
    | Push
    | Discard

  /** The same calls on plain maps, the store's first: no flags, no caching. */
  function FlatStep(f: seq<Utxos>, op: Op): (g: seq<Utxos>)
    requires |f| >= 2
    ensures |g| >= 2
  {
    var top := |f| - 1;
    match op
    case Add(o, coin, _) => f[top := if coin.IsUnspendable() then f[top] else f[top][o := coin]]
    case Spend(o) => f[top := f[top] - {o}]
    case Lookup(_, _) => f
    case Uncache(_, _) => f
    case Flush(k) => if k < top then f[top - k - 1 := f[top - k]] else f
    case Push => f + [f[top]]
    case Discard => if top > 1 then f[..top] else f
  }

  function FlatRun(f: seq<Utxos>, ops: seq<Op>): (g: seq<Utxos>)
    requires |f| >= 2
    ensures |g| >= 2
  {
    if ops == [] then f
    else FlatStep(FlatRun(f, ops[..|ops| - 1]), ops[|ops| - 1])
  }

  /** What the lookups of a run answer on plain maps. */
  function FlatAnswers(f: seq<Utxos>, ops: seq<Op>): seq<Option<Coin>>
    requires |f| >= 2
  {
    if ops == [] then [] else
    var before := FlatRun(f, ops[..|ops| - 1]);
    var op := ops[|ops| - 1];
    FlatAnswers(f, ops[..|ops| - 1]) +
    if op.Lookup? && op.level < |before| - 1 then [Get(before[|before| - 1 - op.level], op.o)] else []
  }

  /** AddCoin's duties: an unspent coin, and no silent overwrite of an unspent one. */
  ghost predicate Allowed(f: seq<Utxos>, op: Op)
    requires |f| >= 2
  {
    op.Add? ==> !op.coin.IsSpent() &&
                (op.coin.IsUnspendable() || op.possibleOverwrite || op.o !in f[|f| - 1])
  }

  /** A view with the spendable ones of a transaction's outputs added. */
  function WithOutputs(view: Utxos, txid: nat, outs: seq<TxOut>, height: nat, coinBase: bool): Utxos {
    if outs == [] then view else
    var n := |outs| - 1;
    var rest := WithOutputs(view, txid, outs[..n], height, coinBase);
    var coin := Coin(outs[n], coinBase, height);
    if coin.IsUnspendable() then rest else rest[OutPoint(txid, n) := coin]
  }

  lemma {:induction false} WithOutputsAt(view: Utxos, txid: nat, outs: seq<TxOut>, height: nat, coinBase: bool,
                                         o: OutPoint)
    ensures Get(WithOutputs(view, txid, outs, height, coinBase), o) ==
            if o.hash == txid && o.n < |outs| && !Coin(outs[o.n], coinBase, height).IsUnspendable()
            then Some(Coin(outs[o.n], coinBase, height))
            else Get(view, o)
  {
    if outs != [] {
      WithOutputsAt(view, txid, outs[..|outs| - 1], height, coinBase, o);
    }
  }

  /** Adds one output, asking the view first when `check` is set. */
  method AddOutput(cache: CoinsViewCache, o: OutPoint, coin: Coin, check: bool)
    requires cache.Shape() && cache.Valid() && !coin.IsSpent()
    requires check || coin.coinBase || o !in cache.View()
    modifies cache.repr
    ensures cache.Valid()
    ensures cache.Views() == old(cache.Views())[cache.depth + 1 :=
              if coin.IsUnspendable() then old(cache.View()) else old(cache.View())[o := coin]]
  {
    var overwrite := coin.coinBase;
    if check {
      overwrite := cache.HaveCoin(o);
    }
    var threw := cache.AddCoin(o, coin, overwrite);
  }

  /** Adds a transaction's outputs. With `check` it is safe over any view at all; without it,
      the caller vouches that only a coinbase overwrites. */
  method AddCoins(cache: CoinsViewCache, txid: nat, outs: seq<TxOut>, height: nat, coinBase: bool, check: bool)
    requires cache.Shape() && cache.Valid()
    requires forall i | 0 <= i < |outs| :: outs[i].value != -1
    requires check || coinBase || forall i: nat | i < |outs| :: OutPoint(txid, i) !in cache.View()
    modifies cache.repr
    ensures cache.Valid()
    ensures cache.Views() == old(cache.Views())[cache.depth + 1 := WithOutputs(old(cache.View()), txid, outs, height,
              coinBase)]
  {
    hide CoinsViewCache.Valid, CoinsViewCache.Views;
    ghost var view := cache.View();
    for i := 0 to |outs|
      invariant cache.Valid()
      invariant cache.Views() == old(cache.Views())[cache.depth + 1 := WithOutputs(view, txid, outs[..i], height,
                  coinBase)]
    {
      WithOutputsAt(view, txid, outs[..i], height, coinBase, OutPoint(txid, i));
      assert outs[..i + 1][..i] == outs[..i];
      AddOutput(cache, OutPoint(txid, i), Coin(outs[i], coinBase, height), check);
    }
    assert outs[..|outs|] == outs;
  }

  /** A call on the base that keeps the base's view is invisible from above. */
  twostate lemma BaseChanged(top: CoinsViewCache)
    requires top.Shape() && top.base.OnCache?
    requires old(top.Valid()) && unchanged(top)
    requires top.base.cache.Valid() && top.base.cache.View() == old(top.base.cache.View())
    ensures top.Valid()
    ensures top.Views() == top.base.cache.Views() + [old(top.View())]
  {
  }

  /** A lookup, Uncache or Flush made `level` caches below the top. */
  method ApplyAt(top: CoinsViewCache, level: nat, op: Op) returns (answer: Option<Coin>)
    requires top.Shape() && top.Valid() && level <= top.depth
    requires op.Lookup? || op.Uncache? || op.Flush?
    modifies top.repr
    ensures top.Valid() && top.View() == old(top.View())
    ensures var i := top.depth + 1 - level;
            && top.Views() == (if op.Flush? then old(top.Views())[i - 1 := old(top.Views())[i]] else old(top.Views()))
            && (op.Lookup? ==> answer == Get(old(top.Views())[i], op.o))
    decreases level
  {
    answer := None;
    if level > 0 {
      var c := top.base.cache;
      ghost var was := c.Views();
      assert top.Views() == was + [top.View()];
      answer := ApplyAt(c, level - 1, op);
      BaseChanged(top);
      if op.Flush? {
        UpdateThenAppend(was, top.depth - level, was[top.depth + 1 - level], old(top.View()));
      }
    } else {
      match op
      case Lookup(_, o) =>
        var ok, coin := top.GetCoin(o);
        answer := if ok then Some(coin) else None;
      case Uncache(_, o) =>
        top.Uncache(o);
      case Flush(_) =>
        top.Flush();
    }
  }

  /** One call on the stack does what the same call does on plain maps. */
  method Step(top: CoinsViewCache, op: Op) returns (top': CoinsViewCache, answer: Option<Coin>)
    requires top.Shape() && top.Valid() && Allowed(top.Views(), op)
    modifies top.repr
    ensures top'.Shape() && top'.Valid() && fresh(top'.repr - top.repr)
    ensures top'.Views() == FlatStep(old(top.Views()), op)
    ensures op.Lookup? && op.level <= top.depth ==>
              answer == Get(old(top.Views())[top.depth + 1 - op.level], op.o)
  {
    top', answer := top, None;
    match op
    case Add(o, coin, possibleOverwrite) =>
      var threw := top.AddCoin(o, coin, possibleOverwrite);
    case Spend(o) =>
      var found, moveout := top.SpendCoin(o);
    case Push =>
      top' := new CoinsViewCache(OnCache(top));
    case Discard =>
      if top.base.OnCache? {
        top' := top.base.cache;
        assert top.Views()[..top.depth + 1] == top'.Views();
      }
    case _ =>
      if op.level <= top.depth {
        answer := ApplyAt(top, op.level, op);
      }
  }

  /** Every call of the run obeys AddCoin's duties. */
  ghost predicate AllAllowed(f: seq<Utxos>, ops: seq<Op>)
    requires |f| >= 2
  {
    forall k | 0 <= k < |ops| :: Allowed(FlatRun(f, ops[..k]), ops[k])
  }

  /** Any run of any stack: flags and counters stay right in every cache, no throw is
      reached, every view of the stack is the plain map, and so is every answer. */
  method Run(bottom: CoinsViewCache, ops: seq<Op>) returns (top: CoinsViewCache, answers: seq<Option<Coin>>)
    requires bottom.Shape() && bottom.Valid()
    requires AllAllowed(bottom.Views(), ops)
    modifies bottom.repr
    ensures top.Shape() && top.Valid()
    ensures top.Views() == FlatRun(old(bottom.Views()), ops)
    ensures answers == FlatAnswers(old(bottom.Views()), ops)
  {
    hide CoinsViewCache.Valid, CoinsViewCache.Views, FlatStep, FlatRun, FlatAnswers, Allowed;
    top, answers := bottom, [];
    ghost var f := bottom.Views();
    FlatStarts(f, ops);
    for k := 0 to |ops|
      invariant top.Shape() && top.Valid() && fresh(top.repr - bottom.repr)
      invariant top.Views() == FlatRun(f, ops[..k])
      invariant answers == FlatAnswers(f, ops[..k])
    {
      var op := ops[k];
      FlatNext(f, ops, k);
      assert Allowed(FlatRun(f, ops[..k]), op);
      var asked := op.Lookup? && op.level <= top.depth;
      var answer;
      top, answer := Step(top, op);
      if asked {
        answers := answers + [answer];
      }
    }
    assert ops[..|ops|] == ops;
  }

  lemma FlatStarts(f: seq<Utxos>, ops: seq<Op>)
    requires |f| >= 2
    ensures FlatRun(f, ops[..0]) == f && FlatAnswers(f, ops[..0]) == []
  {
  }

  lemma FlatNext(f: seq<Utxos>, ops: seq<Op>, k: nat)
    requires |f| >= 2 && k < |ops|
    ensures var before, op := FlatRun(f, ops[..k]), ops[k];
            && FlatRun(f, ops[..k + 1]) == FlatStep(before, op)
            && FlatAnswers(f, ops[..k + 1]) ==
                 FlatAnswers(f, ops[..k]) + if op.Lookup? &&
                 op.level < |before| - 1 then [Get(before[|before| - 1 - op.level], op.o)] else []
  {
    hide FlatStep;
    assert ops[..k + 1][..k] == ops[..k];
  }
}
