/** The rolling bloom filter: cells of two bits holding a generation, spread over pairs of 64-bit words. */
module RollingBloom {
  // ---- bits of a word ----

  predicate Bit(w: bv64, b: bv64)
    requires b < 64
  {
    (w >> b) & 1 == 1
  }

  // The word operations under names, so that proofs about composed words need not look inside them.
  function WAnd(x: bv64, y: bv64): bv64 { x & y }
  function WOr(x: bv64, y: bv64): bv64 { x | y }
  function WXor(x: bv64, y: bv64): bv64 { x ^ y }

  lemma PlainAnd(x: bv64, y: bv64, b: bv64)
    requires b < 64
    ensures Bit(x & y, b) <==> Bit(x, b) && Bit(y, b)
  {
  }

  lemma BitAnd(x: bv64, y: bv64, b: bv64)
    requires b < 64
    ensures Bit(WAnd(x, y), b) <==> Bit(x, b) && Bit(y, b)
  {
    hide Bit;
    PlainAnd(x, y, b);
  }

  lemma PlainOr(x: bv64, y: bv64, b: bv64)
    requires b < 64
    ensures Bit(x | y, b) <==> Bit(x, b) || Bit(y, b)
  {
  }

  lemma BitOr(x: bv64, y: bv64, b: bv64)
    requires b < 64
    ensures Bit(WOr(x, y), b) <==> Bit(x, b) || Bit(y, b)
  {
    hide Bit;
    PlainOr(x, y, b);
  }

  lemma PlainXor(x: bv64, y: bv64, b: bv64)
    requires b < 64
    ensures Bit(x ^ y, b) <==> (Bit(x, b) <==> !Bit(y, b))
  {
  }

  lemma BitXor(x: bv64, y: bv64, b: bv64)
    requires b < 64
    ensures Bit(WXor(x, y), b) <==> (Bit(x, b) <==> !Bit(y, b))
  {
    hide Bit;
    PlainXor(x, y, b);
  }

  lemma BitConstants(b: bv64)
    requires b < 64
    ensures Bit(0xFFFF_FFFF_FFFF_FFFF, b) && !Bit(0, b)
  {
  }

  /** All bits but one, and one bit in its place. */
  function AllBut(b: bv64): bv64
    requires b < 64
  {
    !(1 << b)
  }

  function InPlace(g: bv64, b: bv64): bv64
    requires b < 64
  {
    g << b
  }

  lemma AllButIs(b: bv64, c: bv64)
    requires b < 64 && c < 64
    ensures Bit(AllBut(b), c) <==> b != c
  {
  }

  lemma InPlaceIs(g: bv64, b: bv64, c: bv64)
    requires b < 64 && c < 64 && g <= 1
    ensures Bit(InPlace(g, b), c) <==> b == c && g == 1
  {
  }

  /** The word with one bit replaced. */
  function WithBit(w: bv64, b: bv64, g: bv64): bv64
    requires b < 64
  {
    WOr(WAnd(w, AllBut(b)), InPlace(g, b))
  }

  lemma WithBitIs(w: bv64, b: bv64, g: bv64, c: bv64)
    requires b < 64 && c < 64 && g <= 1
    ensures Bit(WithBit(w, b, g), c) <==> if b == c then g == 1 else Bit(w, c)
  {
    hide Bit, WOr, WAnd, AllBut, InPlace;
    BitOr(WAnd(w, AllBut(b)), InPlace(g, b), c);
    BitAnd(w, AllBut(b), c);
    AllButIs(b, c);
    InPlaceIs(g, b, c);
  }

  // ---- generations and cells ----

  type Generation = g: nat | 1 <= g <= 3 witness 1

  /** The low and the high bit of a generation. */
  function LowBit(g: Generation): bv64 { if g == 2 then 0 else 1 }
  function HighBit(g: Generation): bv64 { if g == 1 then 0 else 1 }

  function All(bit: bv64): bv64 {
    0 - bit
  }

  lemma AllIs(bit: bv64, b: bv64)
    requires b < 64 && bit <= 1
    ensures Bit(All(bit), b) <==> bit == 1
  {
    BitConstants(b);
  }

  type Data = seq<bv64>

  predicate Shape(data: Data) {
    |data| > 0 && |data| % 2 == 0
  }

  /** The generation in a cell, zero for an empty one. */
  function Cell(data: Data, q: nat, b: bv64): nat
    requires Shape(data) && 2 * q < |data| && b < 64
  {
    (if Bit(data[2 * q], b) then 1 else 0) + (if Bit(data[2 * q + 1], b) then 2 else 0)
  }

  // ---- the wipe ----

  function Mask(p1: bv64, p2: bv64, g: Generation): bv64 {
    WOr(WXor(p1, All(LowBit(g))), WXor(p2, All(HighBit(g))))
  }

  /** In the mask a bit is clear exactly where the two words hold the generation. */
  lemma MaskIs(p1: bv64, p2: bv64, g: Generation, b: bv64)
    requires b < 64
    ensures !Bit(Mask(p1, p2, g), b) <==> (if Bit(p1, b) then 1 else 0) + (if Bit(p2, b) then 2 else 0) == g
  {
    hide Bit, All, WOr, WXor;
    BitOr(WXor(p1, All(LowBit(g))), WXor(p2, All(HighBit(g))), b);
    BitXor(p1, All(LowBit(g)), b);
    BitXor(p2, All(HighBit(g)), b);
    AllIs(LowBit(g), b);
    AllIs(HighBit(g), b);
  }

  function WipedWord(data: Data, p: nat, g: Generation): bv64
    requires Shape(data) && p < |data|
  {
    var q := p / 2;
    WAnd(data[p], Mask(data[2 * q], data[2 * q + 1], g))
  }

  function Wiped(data: Data, g: Generation): (r: Data)
    requires Shape(data)
    ensures Shape(r) && |r| == |data| && forall p: nat | p < |r| :: r[p] == WipedWord(data, p, g)
  {
    seq(|data|, p requires 0 <= p < |data| => WipedWord(data, p, g))
  }

  lemma WipedPair(data: Data, g: Generation, q: nat)
    requires Shape(data) && 2 * q < |data|
    ensures var m := Mask(data[2 * q], data[2 * q + 1], g);
            Wiped(data, g)[2 * q] == WAnd(data[2 * q], m) && Wiped(data, g)[2 * q + 1] == WAnd(data[2 * q + 1], m)
  {
    hide Wiped, WAnd, Mask;
    assert (2 * q) / 2 == q && (2 * q + 1) / 2 == q;
    assert Wiped(data, g)[2 * q] == WipedWord(data, 2 * q, g);
    assert Wiped(data, g)[2 * q + 1] == WipedWord(data, 2 * q + 1, g);
  }

  /** The wipe empties the cells of one generation and touches no other. */
  lemma WipedCell(data: Data, g: Generation, q: nat, b: bv64)
    requires Shape(data) && 2 * q < |data| && b < 64
    ensures Cell(Wiped(data, g), q, b) == if Cell(data, q, b) == g then 0 else Cell(data, q, b)
  {
    hide Bit, Mask, WAnd, Wiped, WipedWord;
    var p1, p2 := data[2 * q], data[2 * q + 1];
    var m := Mask(p1, p2, g);
    WipedPair(data, g, q);
    MaskIs(p1, p2, g, b);
    BitAnd(p1, m, b);
    BitAnd(p2, m, b);
  }

  // ---- marking a cell ----

  function Set(data: Data, q: nat, b: bv64, g: Generation): (r: Data)
    requires Shape(data) && 2 * q < |data| && b < 64
    ensures Shape(r) && |r| == |data|
  {
    data[2 * q := WithBit(data[2 * q], b, LowBit(g))][2 * q + 1 := WithBit(data[2 * q + 1], b, HighBit(g))]
  }

  lemma SetCell(data: Data, q: nat, b: bv64, g: Generation, q': nat, b': bv64)
    requires Shape(data) && 2 * q < |data| && b < 64 && 2 * q' < |data| && b' < 64
    ensures Cell(Set(data, q, b, g), q', b') == if q == q' && b == b' then g else Cell(data, q', b')
  {
    hide Bit, WithBit;
    WithBitIs(data[2 * q], b, LowBit(g), b');
    WithBitIs(data[2 * q + 1], b, HighBit(g), b');
  }

  // ---- where a key's cells are ----

  datatype Hash<!K> = Hash(f: (nat, K) -> bv32, count: nat)

  function Column(h: bv32): (b: bv64)
    ensures b < 64
  {
    (h & 0x3F) as bv64
  }

  function Row(h: bv32, size: nat): (q: nat)
    requires size > 0 && size % 2 == 0
    ensures 2 * q < size
  {
    ((h >> 6) as nat % size) / 2
  }

  /** Every cell of the key holds one of the generations. */
  ghost predicate Marked<K>(h: Hash<K>, data: Data, key: K, gens: set<nat>)
    requires Shape(data)
  {
    forall n: nat | n < h.count :: MarkedAt(h, data, key, gens, n)
  }

  ghost predicate MarkedAt<K>(h: Hash<K>, data: Data, key: K, gens: set<nat>, n: nat)
    requires Shape(data)
  {
    Cell(data, Row(h.f(n, key), |data|), Column(h.f(n, key))) in gens
  }

  ghost predicate AllMarked<K>(h: Hash<K>, data: Data, keys: seq<K>, gens: set<nat>)
    requires Shape(data)
  {
    forall i | 0 <= i < |keys| :: Marked(h, data, keys[i], gens)
  }

  lemma WipeKeeps<K>(h: Hash<K>, data: Data, keys: seq<K>, gens: set<nat>, g: Generation)
    requires Shape(data) && AllMarked(h, data, keys, gens) && g !in gens
    ensures AllMarked(h, Wiped(data, g), keys, gens)
  {
    hide Cell, Wiped, Row, Column;
    forall i, n: nat | 0 <= i < |keys| && n < h.count ensures MarkedAt(h, Wiped(data, g), keys[i], gens, n)
    {
      assert Marked(h, data, keys[i], gens);
      assert MarkedAt(h, data, keys[i], gens, n);
      WipedCell(data, g, Row(h.f(n, keys[i]), |data|), Column(h.f(n, keys[i])));
    }
  }

  lemma SetKeeps<K>(h: Hash<K>, data: Data, keys: seq<K>, gens: set<nat>, q: nat, b: bv64, g: Generation)
    requires Shape(data) && AllMarked(h, data, keys, gens) && g in gens && 2 * q < |data| && b < 64
    ensures AllMarked(h, Set(data, q, b, g), keys, gens)
  {
    hide Cell, Set, Row, Column;
    forall i, n: nat | 0 <= i < |keys| && n < h.count ensures MarkedAt(h, Set(data, q, b, g), keys[i], gens, n)
    {
      assert Marked(h, data, keys[i], gens);
      assert MarkedAt(h, data, keys[i], gens, n);
      SetCell(data, q, b, g, Row(h.f(n, keys[i]), |data|), Column(h.f(n, keys[i])));
    }
  }

  /** The first `n` cells of a key hold the generation. */
  ghost predicate PartlyMarked<K>(h: Hash<K>, data: Data, key: K, g: Generation, n: nat)
    requires Shape(data)
  {
    forall m: nat | m < n :: MarkedAt(h, data, key, {g}, m)
  }

  lemma MarksOne<K>(h: Hash<K>, data: Data, key: K, g: Generation, n: nat)
    requires Shape(data) && PartlyMarked(h, data, key, g, n)
    ensures PartlyMarked(h, Set(data, Row(h.f(n, key), |data|), Column(h.f(n, key)), g), key, g, n + 1)
  {
    hide Cell, Set, Row, Column;
    var q, b := Row(h.f(n, key), |data|), Column(h.f(n, key));
    forall m: nat | m < n + 1 ensures MarkedAt(h, Set(data, q, b, g), key, {g}, m)
    {
      SetCell(data, q, b, g, Row(h.f(m, key), |data|), Column(h.f(m, key)));
      if m < n {
        assert MarkedAt(h, data, key, {g}, m);
      }
    }
  }

  // ---- the filter ----

  function NextGen(g: Generation): Generation {
    if g == 3 then 1 else g + 1
  }

  class Filter<K(!new)> {
    const nElements: nat
    const perGeneration: nat
    const size: nat
    const hashCount: nat
    var hash: Hash<K>
    var thisGeneration: nat
    var generation: Generation
    var data: Data

    // the keys inserted since the last reset, split by generation
    ghost var lost: seq<K>
    ghost var oldest: seq<K>
    ghost var previous: seq<K>
    ghost var current: seq<K>

    ghost function History(): seq<K>
      reads this
    {
      lost + oldest + previous + current
    }

    ghost predicate Valid()
      reads this
    {
      && Shape(data) && |data| == size && perGeneration == (nElements + 1) / 2 && perGeneration >= 1 &&
         hash.count == hashCount
      && |current| == thisGeneration <= perGeneration
      && (oldest != [] || lost != [] ==> |previous| == perGeneration) && (lost != [] ==> |oldest| == perGeneration)
      && Remembered(hash, data, generation, oldest, previous, current)
    }

    /** Sizes are parameters; the tweaked hash functions are arbitrary. */
    constructor (elements: nat, words: nat, functions: nat, h: (nat, K) -> bv32)
      requires elements >= 1 && words >= 1
      ensures Valid() && History() == [] && nElements == elements && hashCount == functions
    {
      nElements, perGeneration, size, hashCount := elements, (elements + 1) / 2, 2 * words, functions;
      hash, thisGeneration, generation := Hash(h, functions), 0, 1;
      var zero := seq(2 * words, i => 0);
      data := zero;
      lost, oldest, previous, current := [], [], [], [];
      NothingRemembered(Hash(h, functions), zero, 1);
    }

    method Reset(h: (nat, K) -> bv32)
      requires Valid()
      modifies this
      ensures Valid() && History() == []
    {
      hash := Hash(h, hashCount);
      thisGeneration, generation := 0, 1;
      data := seq(size, i => 0);
      lost, oldest, previous, current := [], [], [], [];
      NothingRemembered(hash, data, 1);
    }

    /** Clears the cells of one generation, two words at a time. */
    method Wipe(g: Generation)
      requires Shape(data)
      modifies this`data
      ensures data == Wiped(old(data), g)
    {
      hide Wiped, Mask, All, WAnd, WOr, WXor;
      ghost var was := data;
      var mask1, mask2 := All(LowBit(g)), All(HighBit(g));
      var p := 0;
      while p < |data|
        invariant 0 <= p <= |was| == |data| && p % 2 == 0
        invariant data[..p] == Wiped(was, g)[..p] && data[p..] == was[p..]
      {
        assert data[p] == data[p..][0] == was[p] && data[p + 1] == data[p..][1] == was[p + 1];
        var p1, p2 := data[p], data[p + 1];
        var mask := WOr(WXor(p1, mask1), WXor(p2, mask2));
        MaskAt(was, g, p);
        ghost var done, rest := data[..p], data[p..];
        data := data[p := WAnd(p1, mask)];
        data := data[p + 1 := WAnd(p2, mask)];
        assert data[..p + 2] == done + [WAnd(p1, mask), WAnd(p2, mask)];
        assert data[p + 2..] == rest[2..];
        p := p + 2;
      }
      assert data == Wiped(was, g);
    }

    /** Starts the next generation, wiping the cells of the one whose number it takes over. */
    method NextGeneration()
      requires Valid() && thisGeneration == perGeneration
      modifies this
      ensures Valid() && thisGeneration == 0 && History() == old(History()) && hash == old(hash)
    {
      hide Remembered, Wiped;
      thisGeneration := 0;
      Ages(hash, data, generation, oldest, previous, current);
      var next := generation + 1;
      if next == 4 {
        next := 1;
      }
      generation := next;
      Wipe(generation);
      lost, oldest, previous, current := lost + oldest, previous, current, [];
      assert History() == old(History());
    }

    /** Writes the generation into every cell of the key. */
    method MarkCells(key: K)
      requires Shape(data) && |data| == size && hash.count == hashCount &&
               Remembered(hash, data, generation, oldest, previous, current)
      modifies this`data
      ensures Shape(data) && |data| == size && Remembered(hash, data, generation, oldest, previous, current)
      ensures PartlyMarked(hash, data, key, generation, hash.count)
    {
      hide Remembered, Row, Column, WithBit, PartlyMarked;
      NothingMarked(hash, data, key, generation);
      for n := 0 to hashCount
        invariant Shape(data) && |data| == size && Remembered(hash, data, generation, oldest, previous, current)
        invariant PartlyMarked(hash, data, key, generation, n)
      {
        var h := hash.f(n, key);
        var q, bit := Row(h, |data|), Column(h);
        MarksOne(hash, data, key, generation, n);
        SetRemembered(hash, data, generation, oldest, previous, current, q, bit);
        data := data[2 * q := WithBit(data[2 * q], bit, LowBit(generation))];
        data := data[2 * q + 1 := WithBit(data[2 * q + 1], bit, HighBit(generation))];
      }
    }

    /** The key joins the history; the filter stays valid, so it holds the key. */
    method Insert(key: K)
      requires Valid()
      modifies this
      ensures Valid() && History() == old(History()) + [key] && hash == old(hash)
    {
      hide Remembered, PartlyMarked;
      if thisGeneration == perGeneration {
        NextGeneration();
      }
      thisGeneration := thisGeneration + 1;
      MarkCells(key);
      Joins(hash, data, generation, oldest, previous, current, key);
      current := current + [key];
      assert History() == old(History()) + [key];
    }

    /** A key is reported exactly when none of its cells is empty; every one of the last nElements keys is. */
    method Contains(key: K) returns (found: bool)
      requires Valid()
      ensures found <==> Marked(hash, data, key, {1, 2, 3})
      ensures key in Recent(History(), nElements) ==> found
    {
      hide Remembered, Row, Column, Cell, Bit, WOr;
      RecentRemembered(hash, data, generation, lost, oldest, previous, current, nElements, key);
      for n := 0 to hashCount
        invariant forall m: nat | m < n :: MarkedAt(hash, data, key, {1, 2, 3}, m)
      {
        var h := hash.f(n, key);
        var q, bit := Row(h, |data|), Column(h);
        CellSet(data, q, bit);
        if !Bit(WOr(data[2 * q], data[2 * q + 1]), bit) {
          assert !MarkedAt(hash, data, key, {1, 2, 3}, n);
          return false;
        }
      }
      found := true;
    }
  }

  /** The last `n` keys, or all of them when there are fewer. */
  function Recent<K>(keys: seq<K>, n: nat): seq<K> {
    if |keys| <= n then keys else keys[|keys| - n..]
  }

  /** Keys of the current generation hold its number; older ones hold their own or a later one. */
  ghost predicate Remembered<K>(h: Hash<K>, data: Data, g: Generation, oldest: seq<K>, previous: seq<K>,
                                current: seq<K>)
    requires Shape(data)
  {
    && AllMarked(h, data, current, {g})
    && AllMarked(h, data, previous, {g, NextGen(NextGen(g))})
    && AllMarked(h, data, oldest, {1, 2, 3})
  }

  lemma NothingRemembered<K>(h: Hash<K>, data: Data, g: Generation)
    requires Shape(data)
    ensures Remembered(h, data, g, [], [], [])
  {
  }

  lemma NothingMarked<K>(h: Hash<K>, data: Data, key: K, g: Generation)
    requires Shape(data)
    ensures PartlyMarked(h, data, key, g, 0)
  {
  }

  /** Wiping the number of the oldest generation leaves the two younger ones as they are. */
  lemma Ages<K>(h: Hash<K>, data: Data, g: Generation, oldest: seq<K>, previous: seq<K>, current: seq<K>)
    requires Shape(data) && Remembered(h, data, g, oldest, previous, current)
    ensures Remembered(h, Wiped(data, NextGen(g)), NextGen(g), previous, current, [])
  {
    hide Marked, Wiped;
    var n := NextGen(g);
    WipeKeeps(h, data, current, {g}, n);
    WipeKeeps(h, data, previous, {g, NextGen(n)}, n);
    Wider(h, Wiped(data, n), current, {g}, {n, g});
    Wider(h, Wiped(data, n), previous, {g, NextGen(n)}, {1, 2, 3});
  }

  lemma Wider<K>(h: Hash<K>, data: Data, keys: seq<K>, gens: set<nat>, more: set<nat>)
    requires Shape(data) && AllMarked(h, data, keys, gens) && gens <= more
    ensures AllMarked(h, data, keys, more)
  {
    hide Cell, Row, Column;
    forall i, n: nat | 0 <= i < |keys| && n < h.count ensures MarkedAt(h, data, keys[i], more, n)
    {
      assert Marked(h, data, keys[i], gens);
      assert MarkedAt(h, data, keys[i], gens, n);
    }
  }

  lemma SetRemembered<K>(h: Hash<K>, data: Data, g: Generation, oldest: seq<K>, previous: seq<K>, current: seq<K>,
                         q: nat, b: bv64)
    requires Shape(data) && Remembered(h, data, g, oldest, previous, current) && 2 * q < |data| && b < 64
    ensures Remembered(h, Set(data, q, b, g), g, oldest, previous, current)
  {
    hide AllMarked, Set;
    SetKeeps(h, data, current, {g}, q, b, g);
    SetKeeps(h, data, previous, {g, NextGen(NextGen(g))}, q, b, g);
    SetKeeps(h, data, oldest, {1, 2, 3}, q, b, g);
  }

  lemma Joins<K>(h: Hash<K>, data: Data, g: Generation, oldest: seq<K>, previous: seq<K>, current: seq<K>, key: K)
    requires Shape(data) && Remembered(h, data, g, oldest, previous, current) && PartlyMarked(h, data, key, g, h.count)
    ensures Remembered(h, data, g, oldest, previous, current + [key])
  {
    hide MarkedAt;
  }

  lemma MaskAt(data: Data, g: Generation, p: nat)
    requires Shape(data) && p % 2 == 0 && p < |data|
    ensures p + 1 < |data|
    ensures var mask := WOr(WXor(data[p], All(LowBit(g))), WXor(data[p + 1], All(HighBit(g))));
            Wiped(data, g)[p] == WAnd(data[p], mask) && Wiped(data, g)[p + 1] == WAnd(data[p + 1], mask)
  {
    hide WAnd, WOr, WXor, All, Wiped, WipedWord;
    WipedPair(data, g, p / 2);
  }

  lemma CellSet(data: Data, q: nat, b: bv64)
    requires Shape(data) && 2 * q < |data| && b < 64
    ensures Bit(WOr(data[2 * q], data[2 * q + 1]), b) <==> Cell(data, q, b) in {1, 2, 3}
  {
    hide Bit, WOr;
    BitOr(data[2 * q], data[2 * q + 1], b);
  }

  /** The last `n` keys are among the three generations that are kept. */
  lemma RecentRemembered<K(!new)>(h: Hash<K>, data: Data, g: Generation, lost: seq<K>, oldest: seq<K>,
                           previous: seq<K>, current: seq<K>, n: nat, key: K)
    requires Shape(data) && Remembered(h, data, g, oldest, previous, current)
    requires lost == [] || |oldest| + |previous| >= n
    ensures key in Recent(lost + oldest + previous + current, n) ==> Marked(h, data, key, {1, 2, 3})
  {
    hide Marked;
    if key in Recent(lost + oldest + previous + current, n) {
      var kept := oldest + previous + current;
      assert lost + oldest + previous + current == lost + kept;
      RecentIn(lost, kept, n, key);
      Wider(h, data, previous, {g, NextGen(NextGen(g))}, {1, 2, 3});
      Wider(h, data, current, {g}, {1, 2, 3});
      assert key in oldest || key in previous || key in current;
    }
  }

  lemma RecentIn<K>(lost: seq<K>, kept: seq<K>, n: nat, key: K)
    requires (lost == [] || |kept| >= n) && key in Recent(lost + kept, n)
    ensures key in kept
  {
    if lost == [] {
      assert lost + kept == kept;
    } else {
      var all := lost + kept;
      assert all[|all| - n..] == kept[|kept| - n..];
    }
  }

  /** Any history of insertions: the filter knows the last nElements keys. */
  method Run<K(!new)>(elements: nat, words: nat, functions: nat, h: (nat, K) -> bv32, keys: seq<K>)
    returns (f: Filter<K>)
    requires elements >= 1 && words >= 1
    ensures f.Valid() && f.History() == keys && f.nElements == elements
    ensures forall key | key in Recent(keys, elements) :: Marked(f.hash, f.data, key, {1, 2, 3})
  {
    f := new Filter(elements, words, functions, h);
    for i := 0 to |keys|
      invariant fresh(f) && f.Valid() && f.History() == keys[..i]
    {
      f.Insert(keys[i]);
      assert keys[..i + 1] == keys[..i] + [keys[i]];
    }
    assert keys[..|keys|] == keys;
    forall key | key in Recent(keys, elements) ensures Marked(f.hash, f.data, key, {1, 2, 3})
    {
      RecentRemembered(f.hash, f.data, f.generation, f.lost, f.oldest, f.previous, f.current, elements, key);
    }
  }
}
