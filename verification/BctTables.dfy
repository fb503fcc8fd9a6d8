/** The ledger of bee creation transactions (BCTs) as two tables, and what connecting and rewinding blocks does to
    them. */
module BctTables {
  datatype Txid = Txid(n: nat)
  datatype Status = Immature | Mature | Expired

  /** The part of a record that is written once. */
  datatype Base = Base(honey: nat, beeCount: int, creation: int, maturity: int, expiration: int, timestamp: int,
                       cost: int)
  datatype Record = Record(base: Base, status: Status, blocksFound: nat, rewardsPaid: int, profit: int)
  datatype Reward = Reward(bct: Txid, amount: int, height: int)
  datatype Tables = Tables(bcts: map<Txid, Record>, rewards: map<Txid, Reward>)

  /** A transaction as the ledger sees it: not a BCT, one to be passed over, or one of ours; and perhaps a Hive
      coinbase. */
  datatype Payment = NotBct | PassedOver | Bct(honey: nat, fee: nat)
  datatype Prize = NoPrize | Prize(bct: Txid, amount: int)
  datatype Tx = Tx(id: Txid, payment: Payment, prize: Prize)
  datatype Block = Block(txs: seq<Tx>, time: int)

  datatype Params = Params(gestation: nat, lifespan: nat, beeCost: int -> nat)

  // ---- reward totals ----

  ghost function Total(rewards: map<Txid, Reward>, bct: Txid): int
    decreases |rewards|
  {
    if rewards == map[] then 0
    else
      var c :| c in rewards;
      Amount(rewards[c], bct) + Total(rewards - {c}, bct)
  }

  function Amount(r: Reward, bct: Txid): int {
    if r.bct == bct then r.amount else 0
  }

  lemma {:induction false} TotalSplit(rewards: map<Txid, Reward>, bct: Txid, c: Txid)
    requires c in rewards
    ensures Total(rewards, bct) == Amount(rewards[c], bct) + Total(rewards - {c}, bct)
    decreases |rewards|
  {
    var d :| d in rewards && Total(rewards, bct) == Amount(rewards[d], bct) + Total(rewards - {d}, bct);
    if d != c {
      assert (rewards - {d}) - {c} == (rewards - {c}) - {d};
      TotalSplit(rewards - {d}, bct, c);
      TotalSplit(rewards - {c}, bct, d);
    }
  }

  lemma TotalAdd(rewards: map<Txid, Reward>, bct: Txid, c: Txid, r: Reward)
    requires c !in rewards
    ensures Total(rewards[c := r], bct) == Total(rewards, bct) + Amount(r, bct)
  {
    TotalSplit(rewards[c := r], bct, c);
    assert rewards[c := r] - {c} == rewards;
  }

  lemma {:induction false} NoRewards(rewards: map<Txid, Reward>, bct: Txid)
    requires forall c | c in rewards :: rewards[c].bct != bct
    ensures Total(rewards, bct) == 0
    decreases |rewards|
  {
    if rewards != map[] {
      var c :| c in rewards;
      TotalSplit(rewards, bct, c);
      NoRewards(rewards - {c}, bct);
    }
  }

  // ---- connecting a block ----

  function NewRecord(p: Params, pay: Payment, h: int, time: int): Record
    requires pay.Bct? && p.beeCost(h) > 0
  {
    var count: int := pay.fee / p.beeCost(h);
    Record(Base(pay.honey, count, h, h + p.gestation, h + p.gestation + p.lifespan, time, pay.fee), Immature, 0, 0,
      0 - pay.fee)
  }

  function WithBct(p: Params, t: Tables, tx: Tx, h: int, time: int): Tables
    requires p.beeCost(h) > 0
  {
    if tx.payment.Bct? && tx.id !in t.bcts then t.(bcts := t.bcts[tx.id := NewRecord(p, tx.payment, h, time)]) else t
  }

  function Rewarded(r: Record, amount: int): Record {
    r.(blocksFound := r.blocksFound + 1, rewardsPaid := r.rewardsPaid + amount,
      profit := r.rewardsPaid + amount - r.base.cost)
  }

  function WithPrize(t: Tables, tx: Tx, h: int): Tables {
    if tx.prize.Prize? && tx.prize.bct in t.bcts then
      var b := tx.prize.bct;
      Tables(t.bcts[b := Rewarded(t.bcts[b], tx.prize.amount)], t.rewards[tx.id := Reward(b, tx.prize.amount, h)])
    else t
  }

  /** A BCT that is passed over ends the handling of its transaction. */
  function WithTx(p: Params, t: Tables, tx: Tx, h: int, time: int): Tables
    requires p.beeCost(h) > 0
  {
    if tx.payment.PassedOver? then t else WithPrize(WithBct(p, t, tx, h, time), tx, h)
  }

  function WithTxs(p: Params, t: Tables, txs: seq<Tx>, h: int, time: int): Tables
    requires p.beeCost(h) > 0
  {
    if txs == [] then t else WithTx(p, WithTxs(p, t, txs[..|txs| - 1], h, time), txs[|txs| - 1], h, time)
  }

  /** Immature records that have ripened become mature, and whatever is past its lifespan expires. */
  function Aged(p: Params, r: Record, h: int): Record {
    var ripe, spent := r.base.creation + p.gestation, r.base.creation + p.gestation + p.lifespan;
    var s := if r.status == Immature && r.base.creation > 0 && ripe <= h < spent then Mature else r.status;
    r.(status := if s != Expired && r.base.creation > 0 && spent <= h then Expired else s)
  }

  function AllAged(p: Params, t: Tables, h: int): Tables {
    t.(bcts := map k | k in t.bcts :: Aged(p, t.bcts[k], h))
  }

  function Connected(p: Params, t: Tables, block: Block, h: int): Tables
    requires p.beeCost(h) > 0
  {
    AllAged(p, WithTxs(p, t, block.txs, h, block.time), h)
  }

  // ---- rewinding to a height ----

  /** Deleting a BCT deletes its rewards; then rewards above the height go too. */
  function Trimmed(t: Tables, fork: int): Tables {
    var bcts := map k | k in t.bcts && t.bcts[k].base.creation <= fork :: t.bcts[k];
    Tables(bcts, map c | c in t.rewards && t.rewards[c].bct in bcts && t.rewards[c].height <= fork :: t.rewards[c])
  }

  function Recounted(r: Record, total: int): Record {
    if r.rewardsPaid == total then r else r.(rewardsPaid := total, profit := total - r.base.cost)
  }

  ghost function RecountedAll(t: Tables): map<Txid, Record> {
    map k | k in t.bcts :: Recounted(t.bcts[k], Total(t.rewards, k))
  }

  ghost function Rewound(t: Tables, fork: int): Tables {
    var s := Trimmed(t, fork);
    s.(bcts := RecountedAll(s))
  }

  // ---- the books balance ----

  /** Totals match the reward rows, and profit is what was paid out minus the cost. */
  ghost predicate Balanced(t: Tables) {
    && (forall k | k in t.bcts :: t.bcts[k].rewardsPaid == Total(t.rewards, k))
    && (forall k | k in t.bcts :: t.bcts[k].profit == t.bcts[k].rewardsPaid - t.bcts[k].base.cost)
    && (forall c | c in t.rewards :: t.rewards[c].bct in t.bcts)
  }

  /** Nothing in the tables is younger than a height. */
  ghost predicate UpTo(t: Tables, h: int) {
    (forall k | k in t.bcts :: t.bcts[k].base.creation <= h) && (forall c | c in t.rewards :: t.rewards[c].height <= h)
  }

  /** The coinbase ids of a block are new to the table and differ from one another. */
  ghost predicate NewPrizes(rewards: map<Txid, Reward>, txs: seq<Tx>) {
    && (forall i | 0 <= i < |txs| && txs[i].prize.Prize? :: txs[i].id !in rewards)
    && (forall i, j | 0 <= i < j < |txs| && txs[i].prize.Prize? && txs[j].prize.Prize? :: txs[i].id != txs[j].id)
  }

  lemma BalancedBct(p: Params, t: Tables, tx: Tx, h: int, time: int)
    requires p.beeCost(h) > 0 && Balanced(t)
    ensures Balanced(WithBct(p, t, tx, h, time))
  {
    if tx.payment.Bct? && tx.id !in t.bcts {
      NoRewards(t.rewards, tx.id);
    }
  }

  lemma BalancedPrize(t: Tables, tx: Tx, h: int)
    requires Balanced(t) && (tx.prize.Prize? ==> tx.id !in t.rewards)
    ensures Balanced(WithPrize(t, tx, h))
  {
    if tx.prize.Prize? && tx.prize.bct in t.bcts {
      var r := Reward(tx.prize.bct, tx.prize.amount, h);
      var s := WithPrize(t, tx, h);
      forall k | k in s.bcts
        ensures s.bcts[k].rewardsPaid == Total(s.rewards, k) &&
                s.bcts[k].profit == s.bcts[k].rewardsPaid - s.bcts[k].base.cost
      {
        assert k in t.bcts && t.bcts[k].rewardsPaid == Total(t.rewards, k);
        TotalAdd(t.rewards, k, tx.id, r);
      }
      forall c | c in s.rewards ensures s.rewards[c].bct in s.bcts
      {
        assert c != tx.id ==> t.rewards[c].bct in t.bcts;
      }
    }
  }

  /** A coinbase id seen before replaces a row, and then the books balance exactly when the lost row was worth nothing.
      */
  lemma RepeatedPrize(t: Tables, tx: Tx, h: int)
    requires Balanced(t) && tx.prize.Prize? && tx.prize.bct in t.bcts && tx.id in t.rewards
    ensures Balanced(WithPrize(t, tx, h)) <==> t.rewards[tx.id].amount == 0
  {
    var r, lost, s := Reward(tx.prize.bct, tx.prize.amount, h), t.rewards[tx.id], WithPrize(t, tx, h);
    forall k | k in t.bcts
      ensures Total(s.rewards, k) == Total(t.rewards, k) - Amount(lost, k) + Amount(r, k)
      ensures s.bcts[k].rewardsPaid == Total(t.rewards, k) + Amount(r, k)
    {
      TotalSplit(t.rewards, k, tx.id);
      TotalSplit(s.rewards, k, tx.id);
      assert s.rewards - {tx.id} == t.rewards - {tx.id};
    }
    assert lost.bct in t.bcts;
    if lost.amount == 0 {
      forall c | c in s.rewards ensures s.rewards[c].bct in s.bcts
      {
        assert c != tx.id ==> t.rewards[c].bct in t.bcts;
      }
    }
  }

  /** Only coinbase ids of the block are added to the reward rows. */
  lemma {:induction false} BalancedTxs(p: Params, t: Tables, txs: seq<Tx>, h: int, time: int)
    requires p.beeCost(h) > 0 && Balanced(t) && NewPrizes(t.rewards, txs)
    ensures Balanced(WithTxs(p, t, txs, h, time))
    ensures forall c | c in WithTxs(p, t, txs, h, time).rewards :: c in t.rewards || PrizeIn(txs, c)
  {
    hide Balanced;
    if txs != [] {
      var n := |txs| - 1;
      BalancedTxs(p, t, txs[..n], h, time);
      var s := WithTxs(p, t, txs[..n], h, time);
      assert txs[n].prize.Prize? ==> !PrizeIn(txs[..n], txs[n].id);
      BalancedBct(p, s, txs[n], h, time);
      BalancedPrize(WithBct(p, s, txs[n], h, time), txs[n], h);
      assert forall c | PrizeIn(txs[..n], c) :: PrizeIn(txs, c);
    }
  }

  ghost predicate PrizeIn(txs: seq<Tx>, c: Txid) {
    exists i :: 0 <= i < |txs| && txs[i].prize.Prize? && txs[i].id == c
  }

  lemma BalancedConnected(p: Params, t: Tables, block: Block, h: int)
    requires p.beeCost(h) > 0 && Balanced(t) && NewPrizes(t.rewards, block.txs)
    ensures Balanced(Connected(p, t, block, h))
  {
    BalancedTxs(p, t, block.txs, h, block.time);
    var s := WithTxs(p, t, block.txs, h, block.time);
    var r := Connected(p, t, block, h);
    forall k | k in r.bcts
      ensures r.bcts[k].rewardsPaid == Total(r.rewards, k) &&
              r.bcts[k].profit == r.bcts[k].rewardsPaid - r.bcts[k].base.cost
    {
      assert s.bcts[k].rewardsPaid == Total(s.rewards, k);
    }
  }

  lemma BalancedRewound(t: Tables, fork: int)
    requires Balanced(t)
    ensures Balanced(Rewound(t, fork))
  {
    var s, r := Trimmed(t, fork), Rewound(t, fork);
    forall k | k in r.bcts
      ensures r.bcts[k].rewardsPaid == Total(r.rewards, k) &&
              r.bcts[k].profit == r.bcts[k].rewardsPaid - r.bcts[k].base.cost
    {
      assert t.bcts[k].profit == t.bcts[k].rewardsPaid - t.bcts[k].base.cost;
    }
  }

  // ---- the books without the counters ----

  /** Balanced tables are determined by the write-once parts and the reward rows. */
  datatype Books = Books(bases: map<Txid, Base>, rewards: map<Txid, Reward>)

  function BooksOf(t: Tables): Books {
    Books(map k | k in t.bcts :: t.bcts[k].base, t.rewards)
  }

  function BookBct(p: Params, a: Books, tx: Tx, h: int, time: int): Books
    requires p.beeCost(h) > 0
  {
    if tx.payment.Bct? && tx.id !in a.bases then a.(bases := a.bases[tx.id := NewRecord(p, tx.payment, h, time).base])
      else a
  }

  function BookPrize(a: Books, tx: Tx, h: int): Books {
    if tx.prize.Prize? && tx.prize.bct in a.bases
    then a.(rewards := a.rewards[tx.id := Reward(tx.prize.bct, tx.prize.amount, h)])
    else a
  }

  function BookTx(p: Params, a: Books, tx: Tx, h: int, time: int): Books
    requires p.beeCost(h) > 0
  {
    if tx.payment.PassedOver? then a else BookPrize(BookBct(p, a, tx, h, time), tx, h)
  }

  function BookTxs(p: Params, a: Books, txs: seq<Tx>, h: int, time: int): Books
    requires p.beeCost(h) > 0
  {
    if txs == [] then a else BookTx(p, BookTxs(p, a, txs[..|txs| - 1], h, time), txs[|txs| - 1], h, time)
  }

  lemma BooksWithBct(p: Params, t: Tables, tx: Tx, h: int, time: int)
    requires p.beeCost(h) > 0
    ensures BooksOf(WithBct(p, t, tx, h, time)) == BookBct(p, BooksOf(t), tx, h, time)
  {
    assert BooksOf(WithBct(p, t, tx, h, time)).bases == BookBct(p, BooksOf(t), tx, h, time).bases;
  }

  lemma BooksWithPrize(t: Tables, tx: Tx, h: int)
    ensures BooksOf(WithPrize(t, tx, h)) == BookPrize(BooksOf(t), tx, h)
  {
    assert BooksOf(WithPrize(t, tx, h)).bases == BookPrize(BooksOf(t), tx, h).bases;
  }

  lemma BooksWithTx(p: Params, t: Tables, tx: Tx, h: int, time: int)
    requires p.beeCost(h) > 0
    ensures BooksOf(WithTx(p, t, tx, h, time)) == BookTx(p, BooksOf(t), tx, h, time)
  {
    hide BooksOf, BookBct, BookPrize, WithBct, WithPrize;
    BooksWithBct(p, t, tx, h, time);
    BooksWithPrize(WithBct(p, t, tx, h, time), tx, h);
  }

  lemma {:induction false} BooksWithTxs(p: Params, t: Tables, txs: seq<Tx>, h: int, time: int)
    requires p.beeCost(h) > 0
    ensures BooksOf(WithTxs(p, t, txs, h, time)) == BookTxs(p, BooksOf(t), txs, h, time)
  {
    hide BooksOf, WithTx, BookTx;
    if txs != [] {
      BooksWithTxs(p, t, txs[..|txs| - 1], h, time);
      BooksWithTx(p, WithTxs(p, t, txs[..|txs| - 1], h, time), txs[|txs| - 1], h, time);
    }
  }

  /** Connecting a block changes the books by its transactions only; statuses and counters do not feed back. */
  lemma BooksConnected(p: Params, t: Tables, block: Block, h: int)
    requires p.beeCost(h) > 0
    ensures BooksOf(Connected(p, t, block, h)) == BookTxs(p, BooksOf(t), block.txs, h, block.time)
  {
    BooksWithTxs(p, t, block.txs, h, block.time);
    var s := WithTxs(p, t, block.txs, h, block.time);
    assert BooksOf(AllAged(p, s, h)).bases == BooksOf(s).bases;
  }

  function BooksBack(a: Books, fork: int): Books {
    var bases := map k | k in a.bases && a.bases[k].creation <= fork :: a.bases[k];
    Books(bases, map c | c in a.rewards && a.rewards[c].bct in bases && a.rewards[c].height <= fork :: a.rewards[c])
  }

  lemma BooksRewound(t: Tables, fork: int)
    ensures BooksOf(Rewound(t, fork)) == BooksBack(BooksOf(t), fork)
  {
    var r, a := Rewound(t, fork), BooksBack(BooksOf(t), fork);
    assert BooksOf(r).bases == a.bases;
    assert r.rewards == a.rewards;
  }

  // ---- rewinding undoes connecting ----

  /** A BCT created above the fork goes, and no reward row depended on it. */
  lemma BctUndone(p: Params, a: Books, tx: Tx, h: int, time: int, fork: int)
    requires p.beeCost(h) > 0 && fork < h
    ensures BooksBack(BookBct(p, a, tx, h, time), fork) == BooksBack(a, fork)
  {
    var b := BookBct(p, a, tx, h, time);
    assert BooksBack(b, fork).bases == BooksBack(a, fork).bases;
    assert BooksBack(b, fork).rewards == BooksBack(a, fork).rewards;
  }

  /** A reward row written above the fork goes; its fresh id replaced no other row. */
  lemma PrizeUndone(a: Books, tx: Tx, h: int, fork: int)
    requires fork < h && (tx.prize.Prize? ==> tx.id !in a.rewards)
    ensures BooksBack(BookPrize(a, tx, h), fork) == BooksBack(a, fork)
  {
    assert BooksBack(BookPrize(a, tx, h), fork).rewards == BooksBack(a, fork).rewards;
  }

  lemma TxUndone(p: Params, a: Books, tx: Tx, h: int, time: int, fork: int)
    requires p.beeCost(h) > 0 && fork < h && (tx.prize.Prize? ==> tx.id !in a.rewards)
    ensures BooksBack(BookTx(p, a, tx, h, time), fork) == BooksBack(a, fork)
  {
    hide BooksBack;
    BctUndone(p, a, tx, h, time, fork);
    PrizeUndone(BookBct(p, a, tx, h, time), tx, h, fork);
  }

  lemma {:induction false} TxsUndone(p: Params, a: Books, txs: seq<Tx>, h: int, time: int, fork: int)
    requires p.beeCost(h) > 0 && fork < h && NewPrizes(a.rewards, txs)
    ensures BooksBack(BookTxs(p, a, txs, h, time), fork) == BooksBack(a, fork)
    ensures forall c | c in BookTxs(p, a, txs, h, time).rewards :: c in a.rewards || PrizeIn(txs, c)
  {
    hide BooksBack;
    if txs != [] {
      var n := |txs| - 1;
      TxsUndone(p, a, txs[..n], h, time, fork);
      assert txs[n].prize.Prize? ==> !PrizeIn(txs[..n], txs[n].id);
      TxUndone(p, BookTxs(p, a, txs[..n], h, time), txs[n], h, time, fork);
      assert forall c | PrizeIn(txs[..n], c) :: PrizeIn(txs, c);
    }
  }

  /** Books that reach no higher than the fork are left alone. */
  lemma BackIsIdentity(t: Tables, fork: int)
    requires Balanced(t) && UpTo(t, fork)
    ensures BooksBack(BooksOf(t), fork) == BooksOf(t)
  {
    var a := BooksOf(t);
    forall c | c in a.rewards ensures a.rewards[c].bct in a.bases && a.rewards[c].height <= fork
    {
      assert t.rewards[c].bct in t.bcts;
    }
    assert BooksBack(a, fork).bases == a.bases;
    assert BooksBack(a, fork).rewards == a.rewards;
  }

  // ---- what an observer of the ledger sees ----

  datatype Entry = Entry(base: Base, rewardsPaid: int, profit: int)

  function Entries(t: Tables): map<Txid, Entry> {
    map k | k in t.bcts :: Entry(t.bcts[k].base, t.bcts[k].rewardsPaid, t.bcts[k].profit)
  }

  lemma SameBooksSameEntries(s: Tables, t: Tables)
    requires Balanced(s) && Balanced(t) && BooksOf(s) == BooksOf(t)
    ensures Entries(s) == Entries(t)
  {
    forall k ensures k in s.bcts <==> k in t.bcts
    {
      assert k in BooksOf(s).bases <==> k in BooksOf(t).bases;
    }
    forall k | k in s.bcts ensures Entries(s)[k] == Entries(t)[k]
    {
      assert BooksOf(s).bases[k] == BooksOf(t).bases[k];
      assert s.bcts[k].rewardsPaid == Total(s.rewards, k) && t.bcts[k].rewardsPaid == Total(t.rewards, k);
    }
  }
}
