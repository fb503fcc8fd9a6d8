/** The ledger database following the chain: blocks connected one by one, tips disconnected one by one. */
module BctLedger {
  import opened BctTables

  // ---- replaying a chain ----

  function Replay(p: Params, chain: seq<Block>, h0: int): Tables
    requires forall h :: p.beeCost(h) > 0
  {
    if chain == [] then Tables(map[], map[])
    else Connected(p, Replay(p, chain[..|chain| - 1], h0), chain[|chain| - 1], h0 + |chain| - 1)
  }

  function AllTxs(chain: seq<Block>): seq<Tx> {
    if chain == [] then [] else AllTxs(chain[..|chain| - 1]) + chain[|chain| - 1].txs
  }

  /** No two Hive coinbases of the chain share an id. */
  ghost predicate DistinctPrizes(chain: seq<Block>) {
    NewPrizes(map[], AllTxs(chain))
  }

  ghost predicate OnlyPrizesOf(rewards: map<Txid, Reward>, txs: seq<Tx>) {
    forall c | c in rewards :: PrizeIn(txs, c)
  }

  lemma PrefixDistinct(chain: seq<Block>)
    requires chain != [] && DistinctPrizes(chain)
    ensures DistinctPrizes(chain[..|chain| - 1])
  {
    var all, init := AllTxs(chain), AllTxs(chain[..|chain| - 1]);
    assert forall i | 0 <= i < |init| :: all[i] == init[i];
  }

  /** A replayed chain is balanced, holds nothing above its tip, and only its own coinbase ids. */
  lemma {:induction false} ReplaySound(p: Params, chain: seq<Block>, h0: int)
    requires (forall h :: p.beeCost(h) > 0) && DistinctPrizes(chain)
    ensures Balanced(Replay(p, chain, h0)) && UpTo(Replay(p, chain, h0), h0 + |chain| - 1)
    ensures OnlyPrizesOf(Replay(p, chain, h0).rewards, AllTxs(chain))
  {
    hide Balanced, Connected, UpTo;
    if chain == [] {
      EmptySound(h0 - 1);
    } else {
      var n := |chain| - 1;
      PrefixDistinct(chain);
      ReplaySound(p, chain[..n], h0);
      var t := Replay(p, chain[..n], h0);
      NextIsNew(p, chain, h0);
      BalancedConnected(p, t, chain[n], h0 + n);
      ConnectedUpTo(p, t, chain[n], h0 + n);
      NextPrizes(chain, t, Connected(p, t, chain[n], h0 + n));
    }
  }

  lemma EmptySound(h: int)
    ensures Balanced(Tables(map[], map[])) && UpTo(Tables(map[], map[]), h)
  {
  }

  lemma NextIsNew(p: Params, chain: seq<Block>, h0: int)
    requires (forall h :: p.beeCost(h) > 0) && chain != [] && DistinctPrizes(chain)
    requires OnlyPrizesOf(Replay(p, chain[..|chain| - 1], h0).rewards, AllTxs(chain[..|chain| - 1]))
    ensures NewPrizes(Replay(p, chain[..|chain| - 1], h0).rewards, chain[|chain| - 1].txs)
  {
    hide Replay, Connected, NewPrizes, OnlyPrizesOf;
    LaterPrizesAreNew(AllTxs(chain[..|chain| - 1]), chain[|chain| - 1].txs,
      Replay(p, chain[..|chain| - 1], h0).rewards);
  }

  lemma LaterPrizesAreNew(init: seq<Tx>, txs: seq<Tx>, rewards: map<Txid, Reward>)
    requires NewPrizes(map[], init + txs) && OnlyPrizesOf(rewards, init)
    ensures NewPrizes(rewards, txs)
  {
    hide OnlyPrizesOf;
    var all := init + txs;
    forall i | 0 <= i < |txs| && txs[i].prize.Prize? ensures txs[i].id !in rewards
    {
      assert all[|init| + i] == txs[i];
      forall j | 0 <= j < |init| && init[j].prize.Prize? ensures init[j].id != txs[i].id
      {
        assert all[j] == init[j];
      }
      NotPrized(init, rewards, txs[i].id);
    }
    forall i, j | 0 <= i < j < |txs| && txs[i].prize.Prize? && txs[j].prize.Prize? ensures txs[i].id != txs[j].id
    {
      assert all[|init| + i] == txs[i] && all[|init| + j] == txs[j];
    }
  }

  lemma NotPrized(txs: seq<Tx>, rewards: map<Txid, Reward>, c: Txid)
    requires OnlyPrizesOf(rewards, txs) && forall j | 0 <= j < |txs| && txs[j].prize.Prize? :: txs[j].id != c
    ensures c !in rewards
  {
    assert !PrizeIn(txs, c);
  }

  lemma NextPrizes(chain: seq<Block>, t: Tables, s: Tables)
    requires chain != []
    requires OnlyPrizesOf(t.rewards, AllTxs(chain[..|chain| - 1]))
    requires forall c | c in s.rewards :: c in t.rewards || PrizeIn(chain[|chain| - 1].txs, c)
    ensures OnlyPrizesOf(s.rewards, AllTxs(chain))
  {
    hide PrizeIn;
    var init, txs := AllTxs(chain[..|chain| - 1]), chain[|chain| - 1].txs;
    forall c | c in s.rewards ensures PrizeIn(AllTxs(chain), c)
    {
      PrizeInEither(init, txs, c);
    }
  }

  lemma PrizeInEither(a: seq<Tx>, b: seq<Tx>, c: Txid)
    ensures PrizeIn(a, c) || PrizeIn(b, c) ==> PrizeIn(a + b, c)
  {
    var all := a + b;
    if PrizeIn(a, c) {
      var i :| 0 <= i < |a| && a[i].prize.Prize? && a[i].id == c;
      assert all[i] == a[i];
    } else if PrizeIn(b, c) {
      var i :| 0 <= i < |b| && b[i].prize.Prize? && b[i].id == c;
      assert all[|a| + i] == b[i];
    }
  }

  lemma {:induction false} TxsUpTo(p: Params, t: Tables, txs: seq<Tx>, h: int, time: int)
    requires p.beeCost(h) > 0 && UpTo(t, h)
    ensures UpTo(WithTxs(p, t, txs, h, time), h)
    ensures forall c | c in WithTxs(p, t, txs, h, time).rewards :: c in t.rewards || PrizeIn(txs, c)
  {
    if txs != [] {
      var n := |txs| - 1;
      TxsUpTo(p, t, txs[..n], h, time);
      assert forall c | PrizeIn(txs[..n], c) :: PrizeIn(txs, c);
    }
  }

  lemma ConnectedUpTo(p: Params, t: Tables, block: Block, h: int)
    requires p.beeCost(h) > 0 && UpTo(t, h - 1)
    ensures UpTo(Connected(p, t, block, h), h)
    ensures forall c | c in Connected(p, t, block, h).rewards :: c in t.rewards || PrizeIn(block.txs, c)
  {
    hide WithTxs;
    TxsUpTo(p, t, block.txs, h, block.time);
    assert UpTo(WithTxs(p, t, block.txs, h, block.time), h);
  }

  /** Rewinding a replayed chain to any height leaves the books of the blocks up to that height. */
  lemma {:induction false} RewindReplay(p: Params, chain: seq<Block>, h0: int, keep: nat)
    requires (forall h :: p.beeCost(h) > 0) && DistinctPrizes(chain) && keep <= |chain|
    ensures BooksBack(BooksOf(Replay(p, chain, h0)), h0 + keep - 1) == BooksOf(Replay(p, chain[..keep], h0))
  {
    hide BooksBack, BooksOf, Connected, Balanced, UpTo;
    if keep == |chain| {
      assert chain[..keep] == chain;
      ReplaySound(p, chain, h0);
      BackIsIdentity(Replay(p, chain, h0), h0 + keep - 1);
    } else {
      var n := |chain| - 1;
      PrefixDistinct(chain);
      RewindReplay(p, chain[..n], h0, keep);
      assert chain[..n][..keep] == chain[..keep];
      ReplaySound(p, chain[..n], h0);
      NextIsNew(p, chain, h0);
      var t := Replay(p, chain[..n], h0);
      BooksConnected(p, t, chain[n], h0 + n);
      RewardsOfBooks(t);
      TxsUndone(p, BooksOf(t), chain[n].txs, h0 + n, chain[n].time, h0 + keep - 1);
    }
  }

  lemma RewardsOfBooks(t: Tables)
    ensures BooksOf(t).rewards == t.rewards
  {
  }

  // ---- the database ----

  class Ledger {
    var bcts: map<Txid, Record>
    var rewards: map<Txid, Reward>
    var lastHeight: int
    var cache: map<Txid, Record>
    var cacheValid: bool

    function Tabs(): Tables
      reads this
    {
      Tables(bcts, rewards)
    }

    /** A cache that claims to be valid is the table. */
    predicate CacheOk()
      reads this
    {
      cacheValid ==> cache == bcts
    }

    constructor ()
      ensures Tabs() == Tables(map[], map[]) && lastHeight == -1 && CacheOk()
    {
      bcts, rewards, lastHeight, cache, cacheValid := map[], map[], -1, map[], false;
    }

    method InvalidateCache()
      modifies this`cache, this`cacheValid
      ensures CacheOk() && !cacheValid
    {
      cache, cacheValid := map[], false;
    }

    /** Inserting a new row or updating an existing one. */
    method WriteBct(id: Txid, record: Record)
      modifies this`bcts, this`cache, this`cacheValid
      ensures bcts == old(bcts)[id := record] && CacheOk()
    {
      bcts := bcts[id := record];
      InvalidateCache();
    }

    method InsertReward(coinbase: Txid, bct: Txid, amount: int, h: int)
      modifies this`rewards
      ensures rewards == old(rewards)[coinbase := Reward(bct, amount, h)]
    {
      rewards := rewards[coinbase := Reward(bct, amount, h)];
    }

    method ProcessTx(p: Params, tx: Tx, h: int, time: int)
      requires CacheOk() && p.beeCost(h) > 0
      modifies this
      ensures Tabs() == WithTx(p, old(Tabs()), tx, h, time) && CacheOk() && lastHeight == old(lastHeight)
    {
      if tx.payment.PassedOver? {
        return;
      }
      if tx.payment.Bct? {
        var record := NewRecord(p, tx.payment, h, time);
        if tx.id !in bcts {
          WriteBct(tx.id, record);
        }
      }
      if tx.prize.Prize? && tx.prize.bct in bcts {
        InsertReward(tx.id, tx.prize.bct, tx.prize.amount, h);
        var bct := bcts[tx.prize.bct];
        bct := bct.(blocksFound := bct.blocksFound + 1);
        bct := bct.(rewardsPaid := bct.rewardsPaid + tx.prize.amount);
        bct := bct.(profit := bct.rewardsPaid - bct.base.cost);
        WriteBct(tx.prize.bct, bct);
      }
    }

    method UpdateAllStatuses(p: Params, h: int)
      modifies this`bcts, this`cache, this`cacheValid
      ensures Tabs() == AllAged(p, old(Tabs()), h) && CacheOk()
    {
      bcts := map k | k in bcts :: Aged(p, bcts[k], h);
      InvalidateCache();
    }

    method ProcessBlock(p: Params, block: Block, h: int)
      requires CacheOk() && p.beeCost(h) > 0
      modifies this
      ensures Tabs() == Connected(p, old(Tabs()), block, h) && lastHeight == h && CacheOk() && cacheValid
    {
      hide WithTx;
      ghost var t := Tabs();
      NoTxs(p, t, block, h);
      for i := 0 to |block.txs|
        invariant CacheOk() && Tabs() == WithTxs(p, t, block.txs[..i], h, block.time)
      {
        assert block.txs[..i + 1][..i] == block.txs[..i];
        ProcessTx(p, block.txs[i], h, block.time);
      }
      assert block.txs[..|block.txs|] == block.txs;
      UpdateAllStatuses(p, h);
      lastHeight := h;
      cache, cacheValid := bcts, true;
    }

    /** The two deletions; the first takes the rewards of a deleted BCT with it. */
    method DeleteAfter(fork: int)
      modifies this
      ensures Tabs() == Trimmed(old(Tabs()), fork) && lastHeight == old(lastHeight) && CacheOk()
    {
      bcts := map k | k in bcts && bcts[k].base.creation <= fork :: bcts[k];
      rewards := map c | c in rewards && rewards[c].bct in bcts :: rewards[c];
      InvalidateCache();
      rewards := map c | c in rewards && rewards[c].height <= fork :: rewards[c];
      assert rewards == Trimmed(old(Tabs()), fork).rewards;
    }

    /** Recounts the rewards of every BCT. */
    method RecountAll()
      requires CacheOk()
      modifies this`bcts, this`cache, this`cacheValid
      ensures bcts == RecountedAll(old(Tabs())) && CacheOk()
    {
      hide Total, Recounted;
      ghost var was := bcts;
      var todo := bcts.Keys;
      while todo != {}
        invariant CacheOk() && bcts.Keys == was.Keys && todo <= was.Keys
        invariant forall k | k in todo :: bcts[k] == was[k]
        invariant forall k | k in was && k !in todo :: bcts[k] == Recounted(was[k], Total(rewards, k))
        decreases |todo|
      {
        var k :| k in todo;
        Recount(k);
        todo := todo - {k};
      }
      assert bcts == RecountedAll(old(Tabs()));
    }

    /** Deletes what is above the fork and recounts the rewards of every BCT that is left. */
    method HandleReorg(fork: int)
      requires CacheOk()
      modifies this
      ensures Tabs() == Rewound(old(Tabs()), fork) && lastHeight == fork && CacheOk()
    {
      hide Trimmed, RecountedAll;
      DeleteAfter(fork);
      lastHeight := fork;
      RecountAll();
    }

    method Recount(k: Txid)
      requires CacheOk() && k in bcts
      modifies this`bcts, this`cache, this`cacheValid
      ensures bcts == old(bcts)[k := Recounted(old(bcts)[k], Total(rewards, k))] && CacheOk()
    {
      var bct := bcts[k];
      var total := TotalRewards(k);
      if bct.rewardsPaid != total {
        bct := bct.(rewardsPaid := total);
        bct := bct.(profit := bct.rewardsPaid - bct.base.cost);
        WriteBct(k, bct);
      } else {
        assert bcts == bcts[k := bct];
      }
    }

    /** The sum over the reward rows of one BCT. */
    method TotalRewards(bct: Txid) returns (total: int)
      ensures total == Total(rewards, bct)
    {
      total := 0;
      var left := rewards;
      while left != map[]
        invariant total + Total(left, bct) == Total(rewards, bct)
        decreases |left|
      {
        var c :| c in left;
        TotalSplit(left, bct, c);
        if left[c].bct == bct {
          total := total + left[c].amount;
        }
        left := left - {c};
      }
    }
  }

  lemma NoTxs(p: Params, t: Tables, block: Block, h: int)
    requires p.beeCost(h) > 0
    ensures WithTxs(p, t, block.txs[..0], h, block.time) == t
  {
  }

  // ---- whole runs ----

  datatype Event = Connect(block: Block) | Disconnect

  /** The chain left after the events; disconnecting an empty chain does nothing. */
  function Surviving(events: seq<Event>): seq<Block> {
    if events == [] then []
    else
      var chain := Surviving(events[..|events| - 1]);
      match events[|events| - 1]
      case Connect(block) => chain + [block]
      case Disconnect => if chain == [] then [] else chain[..|chain| - 1]
  }

  /** At every moment the Hive coinbases of the chain have distinct ids. */
  ghost predicate DistinctThroughout(events: seq<Event>) {
    forall n: nat | n <= |events| :: DistinctPrizes(Surviving(events[..n]))
  }

  /** What the ledger promises when it has followed a chain. */
  ghost predicate Follows(p: Params, t: Tables, chain: seq<Block>, h0: int)
    requires forall h :: p.beeCost(h) > 0
  {
    Balanced(t) && BooksOf(t) == BooksOf(Replay(p, chain, h0)) && Entries(t) == Entries(Replay(p, chain, h0))
  }

  lemma FollowsConnect(p: Params, t: Tables, chain: seq<Block>, h0: int, block: Block)
    requires (forall h :: p.beeCost(h) > 0) && Follows(p, t, chain, h0) && DistinctPrizes(chain) &&
               DistinctPrizes(chain + [block])
    ensures Follows(p, Connected(p, t, block, h0 + |chain|), chain + [block], h0)
  {
    hide BooksOf, Entries, Connected, Balanced, DistinctPrizes;
    var next := chain + [block];
    assert next[..|next| - 1] == chain;
    ReplaySound(p, chain, h0);
    ReplaySound(p, next, h0);
    NextIsNew(p, next, h0);
    var r := Replay(p, chain, h0);
    RewardsOfBooks(t);
    RewardsOfBooks(r);
    BooksConnected(p, t, block, h0 + |chain|);
    BooksConnected(p, r, block, h0 + |chain|);
    BalancedConnected(p, t, block, h0 + |chain|);
    SameBooksSameEntries(Connected(p, t, block, h0 + |chain|), Replay(p, next, h0));
  }

  lemma FollowsRewind(p: Params, t: Tables, chain: seq<Block>, h0: int, keep: nat)
    requires (forall h :: p.beeCost(h) > 0) && Follows(p, t, chain, h0) && DistinctPrizes(chain) && keep <= |chain|
    requires DistinctPrizes(chain[..keep])
    ensures Follows(p, Rewound(t, h0 + keep - 1), chain[..keep], h0)
  {
    hide BooksOf, BooksBack, Entries, Connected, Balanced, DistinctPrizes, Replay, Rewound;
    RewindReplay(p, chain, h0, keep);
    BooksRewound(t, h0 + keep - 1);
    BalancedRewound(t, h0 + keep - 1);
    ReplaySound(p, chain[..keep], h0);
    SameBooksSameEntries(Rewound(t, h0 + keep - 1), Replay(p, chain[..keep], h0));
  }

  lemma FollowsNothing(p: Params, h0: int)
    requires forall h :: p.beeCost(h) > 0
    ensures Follows(p, Tables(map[], map[]), [], h0)
  {
  }

  /** After any connects and disconnects the ledger shows what replaying the surviving chain would show. */
  method Run(p: Params, h0: int, events: seq<Event>) returns (l: Ledger, chain: seq<Block>)
    requires (forall h :: p.beeCost(h) > 0) && DistinctThroughout(events)
    ensures chain == Surviving(events) && Follows(p, l.Tabs(), chain, h0) && l.CacheOk()
  {
    hide Follows, DistinctPrizes, Connected, Rewound;
    l := new Ledger();
    chain := [];
    FollowsNothing(p, h0);
    for i := 0 to |events|
      invariant fresh(l) && l.CacheOk() && chain == Surviving(events[..i]) && Follows(p, l.Tabs(), chain, h0)
    {
      assert events[..i + 1][..i] == events[..i];
      assert DistinctPrizes(Surviving(events[..i])) && DistinctPrizes(Surviving(events[..i + 1]));
      match events[i]
      case Connect(block) =>
        FollowsConnect(p, l.Tabs(), chain, h0, block);
        l.ProcessBlock(p, block, h0 + |chain|);
        chain := chain + [block];
      case Disconnect =>
        if chain != [] {
          FollowsRewind(p, l.Tabs(), chain, h0, |chain| - 1);
          l.HandleReorg(h0 + |chain| - 1 - 1);
          chain := chain[..|chain| - 1];
        }
    }
    assert events[..|events|] == events;
  }
}
