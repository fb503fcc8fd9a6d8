/** The coin view objects: a store at the bottom and caches that point at the view
    below them. */
module CoinsViews {
  import opened Collections
  import opened Coins

  /** The bottom view. Like the database it writes dirty entries only; like the test
      store it may keep a spent entry, and may or may not report it. */
  class CoinsStore {
    var coins: map<OutPoint, Coin>
    var hashBlock: nat

    constructor (initial: map<OutPoint, Coin>, best: nat)
      ensures coins == initial && hashBlock == best
    {
      coins, hashBlock := initial, best;
    }

    method GetCoin(o: OutPoint) returns (ok: bool, coin: Coin)
      ensures ok ==> o in coins && coin == coins[o]
      ensures !ok ==> o !in Unspent(coins)
    {
      ok, coin := o in coins, EMPTY_COIN;
      if ok {
        coin := coins[o];
        if coin.IsSpent() {
          ok := *;
        }
      }
    }

    method BatchWrite(child: CoinsMap, best: nat)
      modifies this
      ensures Unspent(coins) == StoreWritten(Unspent(old(coins)), child)
      ensures hashBlock == if best != 0 then best else old(hashBlock)
    {
      var todo := child.Keys;
      while todo != {}
        invariant todo <= child.Keys
        invariant forall o :: Get(Unspent(coins), o) ==
                              if o in child.Keys - todo then Get(StoreWritten(Unspent(old(coins)), child), o)
                              else Get(Unspent(old(coins)), o)
        invariant hashBlock == old(hashBlock)
      {
        ghost var was := coins;
        var o :| o in todo;
        todo := todo - {o};
        if child[o].isDirty {
          coins := coins[o := child[o].coin];
          if child[o].coin.IsSpent() {
            if * {
              coins := coins - {o};
            }
          }
        }
        assert forall p | p != o :: Get(Unspent(coins), p) == Get(Unspent(was), p);
      }
      MapsEqual(Unspent(coins), StoreWritten(Unspent(old(coins)), child));
      if best != 0 {
        hashBlock := best;
      }
    }
  }

  /** A store's unspent coins after the dirty entries of a cache were written to it. */
  function StoreWritten(below: Utxos, child: CoinsMap): Utxos {
    map o | o in below.Keys + child.Keys &&
            (o in child && child[o].isDirty ==> !child[o].coin.IsSpent()) &&
            (o !in below ==> o in child && child[o].isDirty)
      :: if o in child && child[o].isDirty then child[o].coin else below[o]
  }

  lemma StoreWrittenIsOverlay(below: Utxos, child: CoinsMap)
    requires FlagsOk(below, child)
    ensures StoreWritten(below, child) == Overlay(below, child)
  {
    forall o ensures Get(StoreWritten(below, child), o) == Get(Overlay(below, child), o)
    {
      assert o in child ==> EntryOk(below, o, child[o]);
    }
    MapsEqual(StoreWritten(below, child), Overlay(below, child));
  }

  /** What a cache sits on. */
  datatype Base = OnStore(store: CoinsStore) | OnCache(cache: CoinsViewCache)

  class CoinsViewCache {
    const base: Base
    var cacheCoins: CoinsMap
    var hashBlock: nat
    var cachedCoinsUsage: int

    /** The objects this view is made of, and how many caches lie under it. */
    ghost const repr: set<object>
    const depth: nat

    /** The chain of bases; it never changes after construction. */
    ghost predicate Shape()
      decreases depth
    {
      && this in repr
      && match base
         case OnStore(s) => depth == 0 && repr == {this, s}
         case OnCache(c) => depth == c.depth + 1 && this !in c.repr && repr == c.repr + {this} && c.Shape()
    }

    /** The views of the stack, bottom first: the store, then every cache up to this one. */
    ghost function Views(): (vs: seq<Utxos>)
      requires Shape()
      reads repr
      ensures |vs| == depth + 2 && vs[depth + 1] == Overlay(vs[depth], cacheCoins)
      decreases depth, 0
    {
      match base
      case OnStore(s) => [Unspent(s.coins), Overlay(Unspent(s.coins), cacheCoins)]
      case OnCache(c) => c.Views() + [Overlay(c.View(), cacheCoins)]
    }

    ghost function View(): Utxos
      requires Shape()
      reads repr
      decreases depth, 1
    {
      Views()[depth + 1]
    }

    /** The view of the base. */
    ghost function Below(): Utxos
      requires Shape()
      reads repr
    {
      Views()[depth]
    }

    /** Flags mean what they claim and the usage counter is exact, in every cache of the stack. */
    ghost predicate Valid()
      requires Shape()
      reads repr
      decreases depth
    {
      && FlagsOk(Below(), cacheCoins)
      && cachedCoinsUsage == TotalUsage(cacheCoins)
      && (base.OnCache? ==> base.cache.Valid())
    }

    constructor (b: Base)
      requires b.OnCache? ==> b.cache.Shape() && b.cache.Valid()
      ensures Shape() && Valid() && base == b && fresh(this)
      ensures cacheCoins == map[]
      ensures b.OnCache? ==> repr == b.cache.repr + {this} && Views() == b.cache.Views() + [b.cache.View()]
      ensures b.OnStore? ==> repr == {this, b.store} && Views() == [Unspent(b.store.coins), Unspent(b.store.coins)]
    {
      base := b;
      cacheCoins, hashBlock, cachedCoinsUsage := map[], 0, 0;
      repr := {this} + (match b case OnStore(s) => {s} case OnCache(c) => c.repr);
      depth := match b case OnStore(s) => 0 case OnCache(c) => c.depth + 1;
      new;
      assert forall below: Utxos :: Overlay(below, map[]) == below;
    }

    /** Writing this object's own fields changes the top view only. */
    twostate lemma TopRewritten()
      requires Shape() && old(Valid())
      requires unchanged(repr - {this})
      ensures Views() == old(Views())[depth + 1 := Overlay(old(Below()), cacheCoins)]
      ensures FlagsOk(old(Below()), cacheCoins) && cachedCoinsUsage == TotalUsage(cacheCoins) <==> Valid()
    {
      if base.OnCache? {
        assert base.cache.Views() == old(base.cache.Views());
        assert base.cache.Valid();
      }
    }

    /** An emptied cache shows what its base shows. */
    twostate lemma BaseRewritten(below: Utxos)
      requires Shape() && old(Valid())
      requires cacheCoins == map[] && cachedCoinsUsage == 0
      requires match base
               case OnStore(s) => Unspent(s.coins) == below
               case OnCache(c) => c.Valid() && c.Views() == old(c.Views())[depth := below]
      ensures Valid() && |old(Views())| == depth + 2
      ensures old(View()) == below ==> Views() == old(Views())[depth := below]
    {
      hide Overlay, FlagsOk, TotalUsage;
      NothingCached(below);
      match base {
        case OnStore(s) =>
        case OnCache(c) =>
          assert Views() == c.Views() + [below];
          assert old(Views()) == old(c.Views()) + [old(View())];
          UpdateThenAppend(old(c.Views()), depth, below, old(View()));
      }
    }

    /** `base->GetCoin`, whichever kind of view the base is. */
    method BaseGetCoin(o: OutPoint) returns (ok: bool, coin: Coin)
      requires Shape() && Valid()
      modifies repr - {this}
      ensures Valid() && Views() == old(Views())
      ensures if ok && !coin.IsSpent() then o in Below() && Below()[o] == coin else o !in Below()
      decreases depth, 0
    {
      match base {
        case OnStore(s) => ok, coin := s.GetCoin(o);
        case OnCache(c) => ok, coin := c.GetCoin(o);
      }
    }

    /** A lookup that also fills this cache, and every cache below that it had to ask. */
    method FetchCoin(o: OutPoint) returns (entry: Option<Entry>)
      requires Shape() && Valid()
      modifies repr
      ensures Valid() && Views() == old(Views())
      ensures entry == Get(cacheCoins, o)
      ensures old(o in cacheCoins) ==> cacheCoins == old(cacheCoins)
      ensures cacheCoins == old(cacheCoins) ||
              (o in cacheCoins && !cacheCoins[o].isDirty && cacheCoins == old(cacheCoins)[o := cacheCoins[o]])
      ensures entry.None? ==> o !in View()
      ensures entry.Some? && !entry.value.coin.IsSpent() ==> o in View() && View()[o] == entry.value.coin
      ensures entry.Some? && entry.value.coin.IsSpent() ==> o !in View()
      ensures hashBlock == old(hashBlock)
      decreases depth, 1
    {
      hide Overlay, FlagsOk, TotalUsage;
      CachedMeaning(Below(), cacheCoins, o);
      if o in cacheCoins {
        return Some(cacheCoins[o]);
      }
      var ok, tmp := BaseGetCoin(o);
      if !ok {
        return None;
      }
      var e := Entry(tmp, false, tmp.IsSpent());
      TotalUsageUpdate(cacheCoins, o, e);
      FillKeepsOverlay(Below(), cacheCoins, o, e);
      label filled:
      cacheCoins := cacheCoins[o := e];
      cachedCoinsUsage := cachedCoinsUsage + tmp.DynamicMemoryUsage();
      TopRewritten@filled();
      CachedMeaning(Below(), cacheCoins, o);
      return Some(e);
    }

    method GetCoin(o: OutPoint) returns (ok: bool, coin: Coin)
      requires Shape() && Valid()
      modifies repr
      ensures Valid() && Views() == old(Views())
      ensures ok <==> o in View()
      ensures ok ==> coin == View()[o] && !coin.IsSpent()
      ensures hashBlock == old(hashBlock)
      decreases depth, 2
    {
      var entry := FetchCoin(o);
      if entry.Some? {
        coin := entry.value.coin;
        return !coin.IsSpent(), coin;
      }
      return false, EMPTY_COIN;
    }

    method HaveCoin(o: OutPoint) returns (have: bool)
      requires Shape() && Valid()
      modifies repr
      ensures Valid() && Views() == old(Views())
      ensures have <==> o in View()
    {
      var entry := FetchCoin(o);
      have := entry.Some? && !entry.value.coin.IsSpent();
    }

    /** Adds a coin. It keeps the stack valid exactly when the coin is unspendable (and
        ignored), or overwriting was announced, or the view has no such coin. */
    method AddCoin(o: OutPoint, coin: Coin, possibleOverwrite: bool) returns (threw: bool)
      requires Shape() && Valid() && !coin.IsSpent()
      modifies this
      ensures threw <==>
                !coin.IsUnspendable() && !possibleOverwrite && old(o in cacheCoins && !cacheCoins[o].coin.IsSpent())
      ensures !threw && Valid() <==> coin.IsUnspendable() || possibleOverwrite || old(o !in View())
      ensures !threw ==>
                Views() == old(Views())[depth + 1 := if coin.IsUnspendable() then old(View())
                  else old(View())[o := coin]]
      ensures cacheCoins == if threw || coin.IsUnspendable() then old(cacheCoins)
                            else old(cacheCoins)[o := Added(Get(old(cacheCoins), o), coin, possibleOverwrite)]
      ensures hashBlock == old(hashBlock)
    {
      if coin.IsUnspendable() {
        return false;
      }
      var inserted := o !in cacheCoins;
      var entry := if inserted then Entry(EMPTY_COIN, false, false) else cacheCoins[o];
      var markFresh := false;
      label start:
      if !inserted {
        TotalUsageSplit(cacheCoins, o);
        cachedCoinsUsage := cachedCoinsUsage - entry.coin.DynamicMemoryUsage();
      }
      if !possibleOverwrite {
        if !entry.coin.IsSpent() {
          return true;
        }
        markFresh := !entry.isDirty;
      }
      entry := Entry(coin, true, entry.isFresh || markFresh);
      TotalUsageUpdate(cacheCoins, o, entry);
      cacheCoins := cacheCoins[o := entry];
      cachedCoinsUsage := cachedCoinsUsage + coin.DynamicMemoryUsage();
      TopRewritten@start();
      AddedMeaning(old(Below()), old(cacheCoins), o, coin, possibleOverwrite);
      return false;
    }

    /** Spends a coin; `found` is whether any entry, spent or not, was at hand. */
    method SpendCoin(o: OutPoint) returns (found: bool, moveout: Coin)
      requires Shape() && Valid()
      modifies repr
      ensures Valid() && Views() == old(Views())[depth + 1 := old(View()) - {o}]
      ensures old(o in View()) ==> found && moveout == old(View()[o])
      ensures old(o in cacheCoins) ==> found
      ensures found && old(o !in View()) ==> moveout.IsSpent()
      ensures hashBlock == old(hashBlock)
    {
      var entry := FetchCoin(o);
      if entry.None? {
        assert View() - {o} == View();
        return false, EMPTY_COIN;
      }
      label fetched:
      var e := entry.value;
      TotalUsageSplit(cacheCoins, o);
      SpentMeaning(Below(), cacheCoins, o);
      cachedCoinsUsage := cachedCoinsUsage - e.coin.DynamicMemoryUsage();
      if e.isFresh {
        cacheCoins := cacheCoins - {o};
      } else {
        TotalUsageUpdate(cacheCoins, o, Entry(EMPTY_COIN, true, false));
        cacheCoins := cacheCoins[o := Entry(EMPTY_COIN, true, false)];
      }
      TopRewritten@fetched();
      return true, e.coin;
    }

    method Uncache(o: OutPoint)
      requires Shape() && Valid()
      modifies this
      ensures Valid() && Views() == old(Views())
      ensures cacheCoins == if old(o in cacheCoins && !cacheCoins[o].isDirty && !cacheCoins[o].isFresh)
                            then old(cacheCoins) - {o} else old(cacheCoins)
      ensures hashBlock == old(hashBlock)
    {
      if o in cacheCoins && !cacheCoins[o].isDirty && !cacheCoins[o].isFresh {
        TotalUsageSplit(cacheCoins, o);
        UncachedMeaning(Below(), cacheCoins, o);
        cachedCoinsUsage := cachedCoinsUsage - cacheCoins[o].coin.DynamicMemoryUsage();
        cacheCoins := cacheCoins - {o};
        TopRewritten();
      }
    }

    /** Writes a child cache into this one. The child's flags being right is what keeps
        the misapplied-FRESH throw from being reached. */
    method BatchWrite(child: CoinsMap, best: nat) returns (threw: bool)
      requires Shape() && Valid()
      modifies this
      ensures threw ==> exists o :: o in child && Misapplied(Get(old(cacheCoins), o), child[o])
      ensures !threw ==> MergedOn(old(cacheCoins), cacheCoins, child, child.Keys) && hashBlock == best
      ensures cachedCoinsUsage == TotalUsage(cacheCoins)
      ensures FlagsOk(old(View()), child) ==>
                !threw && Valid() && Views() == old(Views())[depth + 1 := Overlay(old(View()), child)]
    {
      hide Overlay, FlagsOk, TotalUsage, Misapplied, Merged;
      ghost var view := View();
      NothingMerged(cacheCoins, child);
      var todo := child.Keys;
      threw := false;
      while todo != {}
        invariant todo <= child.Keys && !threw
        invariant MergedOn(old(cacheCoins), cacheCoins, child, child.Keys - todo)
        invariant cachedCoinsUsage == TotalUsage(cacheCoins)
      {
        var o :| o in todo;
        todo := todo - {o};
        assert Get(cacheCoins, o) == Get(old(cacheCoins), o);
        ghost var was := cacheCoins;
        threw := MergeEntry(o, child[o]);
        if threw {
          if FlagsOk(view, child) {
            FreshNotMisapplied(old(Below()), old(cacheCoins), child, o);
          }
          return;
        }
        MergedOneMore(old(cacheCoins), was, cacheCoins, child, child.Keys - todo - {o}, o);
        assert child.Keys - todo == (child.Keys - todo - {o}) + {o};
      }
      hashBlock := best;
      assert child.Keys - {} == child.Keys;
      if FlagsOk(view, child) {
        MergeMovesView(old(Below()), old(cacheCoins), cacheCoins, child);
        TopRewritten();
      }
    }

    /** One entry of a child cache; throws, with nothing changed, on a misapplied FRESH flag. */
    method MergeEntry(o: OutPoint, e: Entry) returns (threw: bool)
      requires cachedCoinsUsage == TotalUsage(cacheCoins)
      modifies this`cacheCoins, this`cachedCoinsUsage
      ensures threw <==> Misapplied(Get(old(cacheCoins), o), e)
      ensures cacheCoins == if threw then old(cacheCoins)
              else Put(old(cacheCoins), o, Merged(Get(old(cacheCoins), o), e))
      ensures cachedCoinsUsage == TotalUsage(cacheCoins)
    {
      hide TotalUsage;
      if !e.isDirty {
        PutSame(cacheCoins, o);
        return false;
      }
      if o !in cacheCoins {
        if !(e.isFresh && e.coin.IsSpent()) {
          TotalUsageUpdate(cacheCoins, o, Entry(e.coin, true, e.isFresh));
          cacheCoins := cacheCoins[o := Entry(e.coin, true, e.isFresh)];
          cachedCoinsUsage := cachedCoinsUsage + e.coin.DynamicMemoryUsage();
        } else {
          PutSame(cacheCoins, o);
        }
        return false;
      }
      var ours := cacheCoins[o];
      TotalUsageSplit(cacheCoins, o);
      if e.isFresh && !ours.coin.IsSpent() {
        return true;
      }
      if ours.isFresh && e.coin.IsSpent() {
        cachedCoinsUsage := cachedCoinsUsage - ours.coin.DynamicMemoryUsage();
        cacheCoins := cacheCoins - {o};
      } else {
        TotalUsageUpdate(cacheCoins, o, Entry(e.coin, true, ours.isFresh));
        cachedCoinsUsage := cachedCoinsUsage - ours.coin.DynamicMemoryUsage() + e.coin.DynamicMemoryUsage();
        cacheCoins := cacheCoins[o := Entry(e.coin, true, ours.isFresh)];
      }
      return false;
    }

    /** `base->BatchWrite` with this cache's own entries. */
    method BaseBatchWrite()
      requires Shape() && Valid()
      modifies repr - {this}
      ensures match base
              case OnStore(s) =>
                Unspent(s.coins) == old(View()) && s.hashBlock == if hashBlock != 0 then hashBlock else old(s.hashBlock)
              case OnCache(c) =>
                c.Valid() && c.Views() == old(c.Views())[depth := old(View())] && c.hashBlock == hashBlock
    {
      match base {
        case OnStore(s) =>
          hide Overlay, FlagsOk, TotalUsage, StoreWritten;
          StoreWrittenIsOverlay(Below(), cacheCoins);
          s.BatchWrite(cacheCoins, hashBlock);
        case OnCache(c) =>
          hide Overlay, FlagsOk, TotalUsage, MergedOn;
          assert c.View() == Below();
          var threw := c.BatchWrite(cacheCoins, hashBlock);
      }
    }

    /** Pushes this cache's changes into its base: the base now shows what this view showed, and has its best block. */
    method Flush()
      requires Shape() && Valid()
      modifies repr
      ensures Valid() && Views() == old(Views())[depth := old(View())]
      ensures cacheCoins == map[] && cachedCoinsUsage == 0
      ensures hashBlock == old(hashBlock)
      ensures match base
              case OnStore(s) => s.hashBlock == if hashBlock != 0 then hashBlock else old(s.hashBlock)
              case OnCache(c) => c.hashBlock == hashBlock
    {
      ghost var view := View();
      BaseBatchWrite();
      cacheCoins := map[];
      cachedCoinsUsage := 0;
      BaseRewritten(view);
    }
  }

  /** The entry that AddCoin leaves behind. */
  function Added(prior: Option<Entry>, coin: Coin, possibleOverwrite: bool): Entry {
    Entry(coin, true, (prior.Some? && prior.value.isFresh) ||
                      (!possibleOverwrite && !(prior.Some? && prior.value.isDirty)))
  }

  /** AddCoin's FRESH mark is right exactly when overwriting was announced or the view had
      no such coin (or the call threw). */
  lemma AddedMeaning(below: Utxos, cache: CoinsMap, o: OutPoint, coin: Coin, possibleOverwrite: bool)
    requires FlagsOk(below, cache) && !coin.IsSpent()
    requires possibleOverwrite || !(o in cache && !cache[o].coin.IsSpent())
    ensures var after := cache[o := Added(Get(cache, o), coin, possibleOverwrite)];
            && (FlagsOk(below, after) <==> possibleOverwrite || o !in Overlay(below, cache))
            && Overlay(below, after) == Overlay(below, cache)[o := coin]
  {
    var e := Added(Get(cache, o), coin, possibleOverwrite);
    var after := cache[o := e];
    assert o in cache ==> EntryOk(below, o, cache[o]);
    assert EntryOk(below, o, after[o]) <==> possibleOverwrite || o !in Overlay(below, cache);
    forall p | p in cache && p != o ensures EntryOk(below, p, after[p])
    {
      assert EntryOk(below, p, cache[p]);
    }
  }

  /** The cache after SpendCoin found an entry. */
  function Spent(cache: CoinsMap, o: OutPoint): CoinsMap
    requires o in cache
  {
    if cache[o].isFresh then cache - {o} else cache[o := Entry(EMPTY_COIN, true, false)]
  }

  /** Erasing a FRESH entry and blanking any other both take the coin out of the view. */
  lemma SpentMeaning(below: Utxos, cache: CoinsMap, o: OutPoint)
    requires FlagsOk(below, cache) && o in cache
    ensures FlagsOk(below, Spent(cache, o))
    ensures Overlay(below, Spent(cache, o)) == Overlay(below, cache) - {o}
  {
    var after := Spent(cache, o);
    forall p | p in after ensures EntryOk(below, p, after[p])
    {
      assert p in cache && EntryOk(below, p, cache[p]);
    }
    forall p ensures Get(Overlay(below, after), p) == Get(Overlay(below, cache) - {o}, p)
    {
      assert p in cache ==> EntryOk(below, p, cache[p]);
    }
    MapsEqual(Overlay(below, after), Overlay(below, cache) - {o});
  }

  /** Forgetting an unmodified entry leaves the view alone. */
  lemma UncachedMeaning(below: Utxos, cache: CoinsMap, o: OutPoint)
    requires FlagsOk(below, cache) && o in cache && !cache[o].isDirty
    ensures FlagsOk(below, cache - {o})
    ensures Overlay(below, cache - {o}) == Overlay(below, cache)
  {
    assert EntryOk(below, o, cache[o]);
    forall p | p in cache - {o} ensures EntryOk(below, p, (cache - {o})[p])
    {
      assert EntryOk(below, p, cache[p]);
    }
  }

  /** A child whose flags are right never trips the misapplied-FRESH check. */
  lemma FreshNotMisapplied(below: Utxos, cache: CoinsMap, child: CoinsMap, o: OutPoint)
    requires FlagsOk(Overlay(below, cache), child) && o in child
    ensures !Misapplied(Get(cache, o), child[o])
  {
    assert EntryOk(Overlay(below, cache), o, child[o]);
  }

  lemma PutSame(m: CoinsMap, o: OutPoint)
    ensures Put(m, o, Get(m, o)) == m
  {
  }

  lemma NothingMerged(cache: CoinsMap, child: CoinsMap)
    ensures MergedOn(cache, cache, child, {}) && child.Keys - child.Keys == {}
  {
  }

  lemma MergedOneMore(start: CoinsMap, was: CoinsMap, after: CoinsMap, child: CoinsMap, done: set<OutPoint>,
                      o: OutPoint)
    requires done <= child.Keys && o in child && o !in done && MergedOn(start, was, child, done)
    requires after == Put(was, o, Merged(Get(was, o), child[o]))
    ensures MergedOn(start, after, child, done + {o})
  {
    hide Merged;
  }

  lemma UpdateThenAppend<T>(s: seq<T>, i: nat, x: T, last: T)
    requires i < |s|
    ensures s[i := x] + [last] == (s + [last])[i := x]
  {
  }

  /** Caching an entry that agrees with the parent leaves the view alone. */
  lemma FillKeepsOverlay(below: Utxos, cache: CoinsMap, o: OutPoint, e: Entry)
    requires FlagsOk(below, cache) && o !in cache && !e.isDirty && EntryOk(below, o, e)
    ensures Overlay(below, cache[o := e]) == Overlay(below, cache) && FlagsOk(below, cache[o := e])
  {
    var more := cache[o := e];
    forall p | p in more ensures EntryOk(below, p, more[p])
    {
      assert p != o ==> EntryOk(below, p, cache[p]);
    }
  }

  /** What a cached entry says about the view, and what its absence says. */
  lemma CachedMeaning(below: Utxos, cache: CoinsMap, o: OutPoint)
    requires FlagsOk(below, cache)
    ensures o in cache && !cache[o].coin.IsSpent() ==>
              o in Overlay(below, cache) && Overlay(below, cache)[o] == cache[o].coin
    ensures o in cache && cache[o].coin.IsSpent() ==> o !in Overlay(below, cache)
    ensures o !in cache ==> Get(Overlay(below, cache), o) == Get(below, o)
  {
    assert o in cache ==> EntryOk(below, o, cache[o]);
  }

  lemma NothingCached(below: Utxos)
    ensures Overlay(below, map[]) == below && FlagsOk(below, map[]) && TotalUsage(map[]) == 0
  {
  }
}
