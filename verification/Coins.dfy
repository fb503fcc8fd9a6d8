/** The layered UTXO cache: a write-back cache whose entries carry DIRTY and
    FRESH flags, stacked on other caches and finally on a coin store. */
module Coins {
  import opened Collections

  datatype OutPoint = OutPoint(hash: nat, n: nat)

  type Script = seq<nat>

  datatype TxOut = TxOut(value: int, script: Script)

  const OP_RETURN := 0x6a
  const MAX_SCRIPT_SIZE := 10000
  const SCRIPT_DIRECT_CAPACITY := 28

  datatype Coin = Coin(out: TxOut, coinBase: bool, height: nat) {
    predicate IsSpent() {
      out.value == -1
    }

    predicate IsUnspendable() {
      (|out.script| > 0 && out.script[0] == OP_RETURN) || |out.script| > MAX_SCRIPT_SIZE
    }

    /** Heap bytes of the script: none while it fits inline, else a rounded allocation. */
    function DynamicMemoryUsage(): nat {
      if |out.script| <= SCRIPT_DIRECT_CAPACITY then 0 else (|out.script| + 31) / 16 * 16
    }
  }

  const EMPTY_COIN := Coin(TxOut(-1, []), false, 0)

  /** A cached coin with its two flags. */
  datatype Entry = Entry(coin: Coin, isDirty: bool, isFresh: bool)

  type CoinsMap = map<OutPoint, Entry>

  /** What a view shows to its users: the unspent coins only. */
  type Utxos = map<OutPoint, Coin>

  function Unspent(coins: map<OutPoint, Coin>): Utxos {
    map o | o in coins && !coins[o].IsSpent() :: coins[o]
  }

  /** The view of a cache over a parent that shows `below`. */
  function Overlay(below: Utxos, cache: CoinsMap): Utxos {
    map o | o in below.Keys + cache.Keys && (o in cache ==> !cache[o].coin.IsSpent())
      :: if o in cache then cache[o].coin else below[o]
  }

  /** What the flags claim about the parent view: an entry that is not DIRTY agrees
      with it, and a FRESH entry is unspent nowhere below. */
  ghost predicate EntryOk(below: Utxos, o: OutPoint, e: Entry) {
    && (!e.isDirty ==> if e.coin.IsSpent() then o !in below else o in below && below[o] == e.coin)
    && (e.isFresh ==> o !in below)
  }

  ghost predicate FlagsOk(below: Utxos, cache: CoinsMap) {
    forall o | o in cache :: EntryOk(below, o, cache[o])
  }

  /** Memory held by the cached coins. */
  ghost function TotalUsage(cache: CoinsMap): nat {
    if cache == map[] then 0 else
    var o :| o in cache;
    cache[o].coin.DynamicMemoryUsage() + TotalUsage(cache - {o})
  }

  lemma {:induction false} TotalUsageSplit(cache: CoinsMap, o: OutPoint)
    requires o in cache
    ensures TotalUsage(cache) == cache[o].coin.DynamicMemoryUsage() + TotalUsage(cache - {o})
    decreases |cache|
  {
    var p :| p in cache && TotalUsage(cache) == cache[p].coin.DynamicMemoryUsage() + TotalUsage(cache - {p});
    if p != o {
      assert (cache - {p}) - {o} == (cache - {o}) - {p};
      TotalUsageSplit(cache - {p}, o);
      TotalUsageSplit(cache - {o}, p);
    }
  }

  lemma TotalUsageUpdate(cache: CoinsMap, o: OutPoint, e: Entry)
    ensures TotalUsage(cache[o := e])
         == TotalUsage(cache - {o}) + e.coin.DynamicMemoryUsage()
    ensures o !in cache ==> TotalUsage(cache - {o}) == TotalUsage(cache)
  {
    TotalUsageSplit(cache[o := e], o);
    assert cache[o := e] - {o} == cache - {o};
    if o !in cache {
      assert cache - {o} == cache;
    }
  }

  // ---- BatchWrite, one entry at a time ----

  function Get<K, V>(m: map<K, V>, k: K): Option<V> {
    if k in m then Some(m[k]) else None
  }

  function Put<K, V>(m: map<K, V>, k: K, v: Option<V>): map<K, V> {
    if v.Some? then m[k := v.value] else m - {k}
  }

  /** The "FRESH flag misapplied" condition. */
  predicate Misapplied(ours: Option<Entry>, child: Entry) {
    child.isDirty && child.isFresh && ours.Some? && !ours.value.coin.IsSpent()
  }

  /** Our entry after the child's entry has been written into it. */
  function Merged(ours: Option<Entry>, child: Entry): Option<Entry> {
    if !child.isDirty then ours
    else if ours.None? then
      if child.isFresh && child.coin.IsSpent() then None else Some(Entry(child.coin, true, child.isFresh))
    else if ours.value.isFresh && child.coin.IsSpent() then None
    else Some(Entry(child.coin, true, ours.value.isFresh))
  }

  /** `after` is `before` with the `child` entries of exactly the keys `done` merged in. */
  ghost predicate MergedOn(before: CoinsMap, after: CoinsMap, child: CoinsMap, done: set<OutPoint>) {
    forall o :: Get(after, o) ==
                if o in done && o in child then Merged(Get(before, o), child[o]) else Get(before, o)
  }

  /** Merging keeps the meaning of the flags and moves the child's view into ours,
      whatever order the entries are written in. */
  lemma MergeMovesView(below: Utxos, before: CoinsMap, after: CoinsMap, child: CoinsMap)
    requires FlagsOk(below, before)
    requires FlagsOk(Overlay(below, before), child)
    requires MergedOn(before, after, child, child.Keys)
    ensures FlagsOk(below, after)
    ensures Overlay(below, after) == Overlay(Overlay(below, before), child)
    ensures forall o | o in child :: !Misapplied(Get(before, o), child[o])
  {
    var mid := Overlay(below, before);
    forall o
      ensures o in after ==> EntryOk(below, o, after[o])
      ensures Get(Overlay(below, after), o) == Get(Overlay(mid, child), o)
    {
      assert Get(after, o) == if o in child then Merged(Get(before, o), child[o]) else Get(before, o);
      assert o in before ==> EntryOk(below, o, before[o]);
      assert o in child ==> EntryOk(mid, o, child[o]);
    }
    MapsEqual(Overlay(below, after), Overlay(mid, child));
  }

  lemma MapsEqual<K, V>(m: map<K, V>, n: map<K, V>)
    requires forall k :: Get(m, k) == Get(n, k)
    ensures m == n
  {
    forall k ensures k in m <==> k in n
    {
      assert Get(m, k) == Get(n, k);
    }
    forall k | k in m ensures m[k] == n[k]
    {
      assert Get(m, k) == Get(n, k);
    }
  }
}
