/** The cuckoo cache: bounded-depth insertion, lazy collection and epoch ageing. */
module CuckooCache {
  import opened Collections
  import opened CuckooTable

  function Bag<E>(o: Option<E>): multiset<E> {
    if o.Some? then multiset{o.value} else multiset{}
  }

  function Max(a: nat, b: nat): nat { if a < b then b else a }

  /** The most live elements one epoch can reach before the next scan. */
  function EpochBound(epochSize: nat): nat {
    epochSize + Max(1, epochSize / 16)
  }

  // ---- ageing ----

  function AgedSlot<E>(s: Slot<E>): Slot<E> {
    if s.recent then s.(recent := false) else s.(collected := true)
  }

  function Aged<E>(slots: seq<Slot<E>>): (r: seq<Slot<E>>)
    ensures |r| == |slots| && forall i | 0 <= i < |slots| :: r[i] == AgedSlot(slots[i])
  {
    if slots == [] then [] else [AgedSlot(slots[0])] + Aged(slots[1..])
  }

  /** Ageing turns the recent live elements into the old ones and collects the old ones. */
  lemma {:induction false} AgedCounts<E>(slots: seq<Slot<E>>)
    ensures Recent(Aged(slots)) == 0 && Old(Aged(slots)) == Recent(slots)
  {
    if slots != [] {
      AgedCounts(slots[1..]);
      assert Aged(slots)[1..] == Aged(slots[1..]);
    }
  }

  lemma AgedPlaced<E>(h: Hasher<E>, zero: E, slots: seq<Slot<E>>)
    requires Placed(h, zero, slots)
    ensures Placed(h, zero, Aged(slots))
  {
    hide Hasher.MayBeAt;
    var r := Aged(slots);
    forall i | 0 <= i < |r| && (r[i].Live() || r[i].element != zero) ensures h.MayBeAt(r[i].element, i)
    {
      assert h.MayBeAt(slots[i].element, i);
    }
    forall i | 0 <= i < |r| && r[i].Live() && r[i].element == zero ensures NoneEarlier(h, r, zero, i)
    {
      assert NoneEarlier(h, slots, zero, i);
      var k: nat :| k < 8 && h.Loc(zero, k) == i && forall j: nat | j < k :: slots[h.Loc(zero, j)].element != zero;
      assert forall j: nat | j < k :: r[h.Loc(zero, j)].element == slots[h.Loc(zero, j)].element;
    }
  }

  lemma {:induction false} CountAppend<E>(f: Slot<E> -> nat, slots: seq<Slot<E>>, s: Slot<E>)
    ensures Count(f, slots + [s]) == Count(f, slots) + f(s)
  {
    if slots == [] {
      assert slots + [s] == [s];
    } else {
      assert (slots + [s])[1..] == slots[1..] + [s];
      CountAppend(f, slots[1..], s);
    }
  }

  lemma RecentAppend<E>(slots: seq<Slot<E>>, n: nat)
    requires n < |slots|
    ensures Recent(slots[..n + 1]) == Recent(slots[..n]) + LiveRecent(slots[n])
  {
    assert slots[..n + 1] == slots[..n] + [slots[n]];
    CountAppend((s: Slot<E>) => LiveRecent(s), slots[..n], slots[n]);
  }

  /** The counter set after a scan stops the epoch from passing the bound. */
  lemma ScanBound(epochSize: nat, recent: nat)
    requires epochSize >= 1
    ensures recent < epochSize ==> recent + Max(1, Max(epochSize / 16, epochSize - recent)) + 1 <= EpochBound(epochSize)
    ensures 0 + epochSize + 1 <= EpochBound(epochSize)
  {
  }

  class Cache<E(==, !new)> {
    const hash: (nat, E) -> nat
    const zero: E
    const size: nat
    const depthLimit: nat
    const epochSize: nat
    var slots: seq<Slot<E>>
    var epochHeuristicCounter: nat

    function H(): Hasher<E> { Hasher(hash, size) }

    ghost predicate Valid()
      reads this
    {
      && Placed(H(), zero, slots) && epochSize >= 1 && depthLimit >= 1 && size < 0x1_0000_0000
      && Recent(slots) + epochHeuristicCounter <= EpochBound(epochSize) && Old(slots) <= EpochBound(epochSize)
    }

    /** setup: everything collected, a whole epoch to go. The product 45 * size is a 32-bit one. */
    constructor (h: (nat, E) -> nat, z: E, newSize: nat, depth: nat)
      requires newSize < 0x1_0000_0000 && depth >= 1
      ensures Valid() && fresh(this) && hash == h && zero == z && size == Max(2, newSize) &&
              LiveBag(slots) == multiset{}
      ensures depthLimit == depth && epochSize == epochHeuristicCounter == Max(1, 45 * size % 0x1_0000_0000 / 100)
    {
      hash, zero, depthLimit := h, z, depth;
      var n := Max(2, newSize);
      size := n;
      var e := Max(1, 45 * n % 0x1_0000_0000 / 100);
      epochSize, epochHeuristicCounter := e, e;
      var empty := seq(n, i => Slot(z, true, false));
      slots := empty;
      NothingLive(empty);
    }

    /** Ages the epochs when the recent one may be full; afterwards one more insertion is safe. */
    method EpochCheck()
      requires Valid()
      modifies this
      ensures Placed(H(), zero, slots) && (slots == old(slots) || slots == Aged(old(slots)))
      ensures slots != old(slots) ==> old(epochHeuristicCounter) == 0 && Recent(old(slots)) >= epochSize
      ensures Recent(slots) + epochHeuristicCounter + 1 <= EpochBound(epochSize) && Old(slots) <= EpochBound(epochSize)
    {
      hide Placed, Count, Recent, Old, Aged;
      if epochHeuristicCounter != 0 {
        epochHeuristicCounter := epochHeuristicCounter - 1;
        return;
      }
      var unused := 0;
      var was := slots;
      SizeOf(H(), zero, slots);
      NoneCounted(slots);
      for i := 0 to size
        invariant slots == was && epochHeuristicCounter == 0 && unused == Recent(slots[..i])
      {
        RecentAppend(slots, i);
        if slots[i].recent && !slots[i].collected {
          unused := unused + 1;
        }
      }
      assert slots[..size] == slots;
      ScanBound(epochSize, unused);
      if unused >= epochSize {
        for i := 0 to size
          invariant |slots| == size && slots[..i] == Aged(was)[..i] && slots[i..] == was[i..]
        {
          assert slots[i] == was[i];
          if slots[i].recent {
            slots := slots[i := slots[i].(recent := false)];
          } else {
            slots := slots[i := slots[i].(collected := true)];
          }
        }
        assert slots == Aged(was);
        AgedCounts(was);
        AgedPlaced(H(), zero, was);
        epochHeuristicCounter := epochSize;
      } else {
        epochHeuristicCounter := Max(1, Max(epochSize / 16, epochSize - unused));
      }
    }

    /** The place after the one last looked at; the second place when there is none yet. */
    method NextPlace(e: E, lastLoc: int) returns (loc: nat)
      requires size > 0
      ensures H().MayBeAt(e, loc) && loc < size
      ensures (forall i: nat | i < 8 :: H().Loc(e, i) != lastLoc) ==> loc == H().Loc(e, 1)
    {
      var k := 0;
      while k < 8 && H().Loc(e, k) != lastLoc
        invariant 0 <= k <= 8
      {
        k := k + 1;
      }
      var next := (1 + k) % 8;
      loc := H().Loc(e, next);
    }

    /** The place of an element that is in the table. */
    method Lookup(e: E) returns (found: Option<nat>)
      requires Placed(H(), zero, slots)
      ensures found.Some? ==>
                found.value < size && slots[found.value].element == e && H().MayBeAt(e, found.value) &&
                NoneEarlier(H(), slots, e, found.value)
      ensures found.None? ==> Absent(zero, slots, e) && forall i: nat | i < 8 :: slots[H().Loc(e, i)].element != e
    {
      var i := 0;
      while i < 8
        invariant 0 <= i <= 8 && forall j: nat | j < i :: slots[H().Loc(e, j)].element != e
      {
        var loc := H().Loc(e, i);
        if slots[loc].element == e {
          return Some(loc);
        }
        i := i + 1;
      }
      NotFound(H(), zero, slots, e);
      return None;
    }

    /** A place of the element that may be collected. */
    method FreePlace(e: E) returns (free: Option<nat>)
      requires Placed(H(), zero, slots) && Absent(zero, slots, e)
      ensures free.Some? ==>
                free.value < size && slots[free.value].collected && H().MayBeAt(e, free.value) &&
                NoneEarlier(H(), slots, e, free.value)
      ensures free.None? ==> forall i: nat | i < 8 :: slots[H().Loc(e, i)].Live()
    {
      var i := 0;
      while i < 8
        invariant 0 <= i <= 8 && forall j: nat | j < i :: slots[H().Loc(e, j)].Live()
      {
        var loc := H().Loc(e, i);
        if slots[loc].collected {
          assert forall j: nat | j < i :: slots[H().Loc(e, j)].element != e;
          return Some(loc);
        }
        i := i + 1;
      }
      return None;
    }

    method Contains(e: E, erase: bool) returns (found: bool)
      requires Valid()
      modifies this
      ensures Valid() && epochHeuristicCounter == old(epochHeuristicCounter) && |slots| == |old(slots)|
      ensures forall i | 0 <= i < |slots| ::
                slots[i].element == old(slots)[i].element && slots[i].recent == old(slots)[i].recent
      ensures e != zero ==> (found <==> exists i :: 0 <= i < |slots| && slots[i].element == e)
      ensures found <==> |old(slots)| == H().size > 0 && Findable(H(), old(slots), e)
      ensures e in LiveBag(old(slots)) ==> found
      ensures found && erase ==> LiveBag(slots) == LiveBag(old(slots)) - multiset{e} && e !in LiveBag(slots)
      ensures !(found && erase) ==> slots == old(slots)
    {
      hide Placed, Recent, Old, LiveBag, Hasher.MayBeAt, NoneEarlier;
      SizeOf(H(), zero, slots);
      var at := Lookup(e);
      LookupMeaning(H(), zero, slots, e, at);
      FoundIsFindable(H(), slots, e, at);
      found := at.Some?;
      if found && erase {
        var loc := at.value;
        var s := slots[loc].(collected := true);
        ErasedFacts(H(), zero, slots, loc);
        slots := slots[loc := s];
      }
    }

    /** Erasing only gives permission to overwrite: what is inserted, found and erased is found again. */
    method FoundAgain(e: E) returns (again: bool)
      requires Valid()
      modifies this
      ensures Valid() && again
    {
      hide Placed, Recent, Old, LiveBag, Findable, NoRoom;
      ghost var mid, dropped := Insert(e);
      ghost var was := slots;
      var found := Contains(e, true);
      if found {
        SameFindable(H(), was, slots, e);
        again := Contains(e, false);
      } else {
        again := true;
      }
    }

    /** Inserts an element. `mid` is the table after the epoch check; at most one live element,
        `dropped`, is gone from it, and only if no place of the new one could be had. */
    method Insert(e: E) returns (ghost mid: seq<Slot<E>>, ghost dropped: Option<E>)
      requires Valid()
      modifies this
      ensures Valid()
      ensures mid == old(slots) || mid == Aged(old(slots))
      ensures LiveBag(slots) + Bag(dropped) == LiveBag(mid) + multiset{e} ||
              (LiveBag(slots) == LiveBag(mid) && dropped == None)
      ensures dropped == None ==> e in LiveBag(slots)
      ensures dropped.Some? ==> NoRoom(H(), mid, e)
      ensures dropped.Some? && depthLimit == 1 ==> SwappedOnce(H(), mid, slots, e, dropped.value)
    {
      hide Placed, Recent, Old, LiveBag, Hasher.MayBeAt, Hasher.Loc, Aged, NoneEarlier, NoRoom, SwappedOnce;
      EpochCheck();
      mid, dropped := slots, None;
      SizeOf(H(), zero, slots);
      var at := Lookup(e);
      if at.Some? {
        KeptFacts(H(), zero, slots, at.value);
        slots := slots[at.value := slots[at.value].(collected := false, recent := true)];
        return;
      }
      var hand, lastEpoch, lastLoc := e, true, 0xFFFF_FFFF;
      for depth := 0 to depthLimit
        invariant depth == 0 ==> slots == mid && hand == e && lastEpoch && lastLoc == 0xFFFF_FFFF
        invariant depth > 0 ==> NoRoom(H(), mid, e)
        invariant depth == 1 ==> SwappedOnce(H(), mid, slots, e, hand)
        invariant InHand(H(), zero, mid, slots, e, hand, lastEpoch) &&
                  epochHeuristicCounter + Recent(mid) + 1 <= EpochBound(epochSize)
      {
        InHandPlaced(H(), zero, mid, slots, e, hand, lastEpoch);
        var free := FreePlace(hand);
        if free.Some? {
          StoreFacts(H(), zero, mid, slots, e, hand, lastEpoch, free.value);
          slots := slots[free.value := Slot(hand, false, lastEpoch)];
          return;
        }
        if depth == 0 {
          NoRoomIs(H(), mid, e);
        }
        lastLoc := NextPlace(hand, lastLoc);
        LiveAt(H(), zero, slots, hand, lastLoc);
        SwapFacts(H(), zero, mid, slots, e, hand, lastEpoch, lastLoc);
        var s := slots[lastLoc];
        slots := slots[lastLoc := Slot(hand, false, lastEpoch)];
        if depth == 0 {
          SwappedFirst(H(), mid, e, lastLoc);
        }
        hand, lastEpoch := s.element, s.recent;
      }
      dropped := Some(hand);
      DropFacts(H(), zero, mid, slots, e, hand, lastEpoch);
    }
  }

  /** All places of an element are taken by other live ones. */
  ghost predicate NoRoom<E>(h: Hasher<E>, slots: seq<Slot<E>>, e: E) {
    |slots| == h.size > 0 && forall i: nat | i < 8 :: slots[h.Loc(e, i)].Live() && slots[h.Loc(e, i)].element != e
  }

  lemma NoRoomIs<E>(h: Hasher<E>, slots: seq<Slot<E>>, e: E)
    requires |slots| == h.size > 0 && h.size < 0x1_0000_0000
    requires forall i: nat | i < 8 :: slots[h.Loc(e, i)].Live()
    requires forall i: nat | i < 8 :: slots[h.Loc(e, i)].element != e
    ensures NoRoom(h, slots, e) && forall i: nat | i < 8 :: h.Loc(e, i) != 0xFFFF_FFFF
  {
  }

  /** The new element took its second place from another one. */
  ghost predicate SwappedOnce<E>(h: Hasher<E>, mid: seq<Slot<E>>, slots: seq<Slot<E>>, e: E, hand: E) {
    |mid| == h.size > 0 && var loc := h.Loc(e, 1); slots == mid[loc := Slot(e, false, true)] && hand == mid[loc].element
  }

  lemma SwappedFirst<E>(h: Hasher<E>, mid: seq<Slot<E>>, e: E, loc: nat)
    requires |mid| == h.size > 0 && loc == h.Loc(e, 1)
    ensures loc < |mid| && SwappedOnce(h, mid, mid[loc := Slot(e, false, true)], e, mid[loc].element)
  {
  }

  /** The insertion of `e` into `mid`, with `hand` still to be stored: live elements and epochs
      are all accounted for. */
  ghost predicate InHand<E>(h: Hasher<E>, zero: E, mid: seq<Slot<E>>, slots: seq<Slot<E>>, e: E, hand: E,
                            recent: bool) {
    && Placed(h, zero, slots) && Absent(zero, slots, hand)
    && LiveBag(slots) + multiset{hand} == LiveBag(mid) + multiset{e}
    && Recent(slots) + (if recent then 1 else 0) == Recent(mid) + 1
    && Old(slots) + (if recent then 0 else 1) == Old(mid)
  }

  lemma NotFound<E>(h: Hasher<E>, zero: E, slots: seq<Slot<E>>, e: E)
    requires Placed(h, zero, slots) && forall i: nat | i < 8 :: slots[h.Loc(e, i)].element != e
    ensures Absent(zero, slots, e)
  {
    forall i | 0 <= i < |slots| && (slots[i].Live() || slots[i].element != zero) ensures slots[i].element != e
    {
      var x := slots[i].element;
      assert h.MayBeAt(x, i);
      var k: nat :| k < 8 && h.Loc(x, k) == i;
      assert slots[h.Loc(x, k)].element == x;
    }
  }

  lemma InHandPlaced<E>(h: Hasher<E>, zero: E, mid: seq<Slot<E>>, slots: seq<Slot<E>>, e: E, hand: E, recent: bool)
    requires InHand(h, zero, mid, slots, e, hand, recent)
    ensures Placed(h, zero, slots) && Absent(zero, slots, hand) && |slots| == h.size && h.size > 0
  {
  }

  lemma LiveAt<E>(h: Hasher<E>, zero: E, slots: seq<Slot<E>>, e: E, loc: nat)
    requires h.size > 0 && |slots| == h.size && loc < |slots| && h.MayBeAt(e, loc) && Absent(zero, slots, e)
    requires forall i: nat | i < 8 :: slots[h.Loc(e, i)].Live()
    ensures slots[loc].Live() && NoneEarlier(h, slots, e, loc)
  {
    var i: nat :| i < 8 && h.Loc(e, i) == loc;
    assert forall j: nat | j < i :: slots[h.Loc(e, j)].element != e;
  }

  /** One update of a slot, as multiset arithmetic. */
  lemma BagSwap<E>(slots: seq<Slot<E>>, loc: nat, s: Slot<E>)
    requires loc < |slots| && s.Live()
    ensures slots[loc].Live() ==>
              LiveBag(slots[loc := s]) + multiset{slots[loc].element} == LiveBag(slots) + multiset{s.element}
    ensures !slots[loc].Live() ==> LiveBag(slots[loc := s]) == LiveBag(slots) + multiset{s.element}
  {
    LiveBagUpdate(slots, loc, s);
    hide LiveBag;
  }

  /** Storing the element in hand in a collected slot finishes the insertion. */
  lemma StoreFacts<E>(h: Hasher<E>, zero: E, mid: seq<Slot<E>>, slots: seq<Slot<E>>, e: E, hand: E, recent: bool,
                      loc: nat)
    requires InHand(h, zero, mid, slots, e, hand, recent) && loc < |slots| && slots[loc].collected &&
             h.MayBeAt(hand, loc)
    requires NoneEarlier(h, slots, hand, loc)
    ensures var after := slots[loc := Slot(hand, false, recent)];
            && Placed(h, zero, after) && LiveBag(after) == LiveBag(mid) + multiset{e} && e in LiveBag(after)
            && Recent(after) == Recent(mid) + 1 && Old(after) == Old(mid)
  {
    hide LiveBag, Recent, Old, Hasher.MayBeAt, Placed;
    var s := Slot(hand, false, recent);
    PutKeepsPlaced(h, zero, slots, loc, s);
    BagSwap(slots, loc, s);
    RecentUpdate(slots, loc, s);
  }

  /** Swapping with a live slot passes the insertion on to the element that was there. */
  lemma SwapFacts<E>(h: Hasher<E>, zero: E, mid: seq<Slot<E>>, slots: seq<Slot<E>>, e: E, hand: E, recent: bool,
                     loc: nat)
    requires InHand(h, zero, mid, slots, e, hand, recent) && loc < |slots| && slots[loc].Live() && h.MayBeAt(hand, loc)
    requires NoneEarlier(h, slots, hand, loc)
    ensures InHand(h, zero, mid, slots[loc := Slot(hand, false, recent)], e, slots[loc].element, slots[loc].recent)
  {
    hide LiveBag, Recent, Old, Hasher.MayBeAt, Placed;
    var s := Slot(hand, false, recent);
    PutKeepsPlaced(h, zero, slots, loc, s);
    BagSwap(slots, loc, s);
    RecentUpdate(slots, loc, s);
  }

  lemma DropFacts<E>(h: Hasher<E>, zero: E, mid: seq<Slot<E>>, slots: seq<Slot<E>>, e: E, hand: E, recent: bool)
    requires InHand(h, zero, mid, slots, e, hand, recent)
    ensures Placed(h, zero, slots) && Recent(slots) <= Recent(mid) + 1 && Old(slots) <= Old(mid)
    ensures LiveBag(slots) + multiset{hand} == LiveBag(mid) + multiset{e}
  {
  }

  /** Keeping an element that is there makes it live and recent again. */
  lemma KeptFacts<E>(h: Hasher<E>, zero: E, slots: seq<Slot<E>>, loc: nat)
    requires Placed(h, zero, slots) && loc < |slots| && h.MayBeAt(slots[loc].element, loc) &&
             NoneEarlier(h, slots, slots[loc].element, loc)
    ensures var after := slots[loc := slots[loc].(collected := false, recent := true)];
            && Placed(h, zero, after) && Recent(after) <= Recent(slots) + 1 && Old(after) <= Old(slots)
            && slots[loc].element in LiveBag(after)
            && (LiveBag(after) == LiveBag(slots) || LiveBag(after) == LiveBag(slots) + multiset{slots[loc].element})
  {
    hide LiveBag, Recent, Old, Hasher.MayBeAt, Placed;
    var s := slots[loc].(collected := false, recent := true);
    PutKeepsPlaced(h, zero, slots, loc, s);
    LiveBagUpdate(slots, loc, s);
    RecentUpdate(slots, loc, s);
    InBag(slots[loc := s], loc);
    if slots[loc].Live() {
      SameBag(LiveBag(slots[loc := s]), LiveBag(slots), slots[loc].element);
    } else {
      assert LiveBag(slots[loc := s]) + multiset{} == LiveBag(slots[loc := s]);
    }
  }

  lemma SameBag<E>(a: multiset<E>, b: multiset<E>, e: E)
    requires a + multiset{e} == b + multiset{e}
    ensures a == b
  {
    forall x ensures a[x] == b[x]
    {
      assert (a + multiset{e})[x] == (b + multiset{e})[x];
    }
  }

  lemma {:induction false} InBag<E>(slots: seq<Slot<E>>, loc: nat)
    requires loc < |slots| && slots[loc].Live()
    ensures slots[loc].element in LiveBag(slots)
  {
    if loc > 0 {
      InBag(slots[1..], loc - 1);
    }
  }

  lemma {:induction false} BagMember<E>(slots: seq<Slot<E>>, e: E) returns (loc: nat)
    requires e in LiveBag(slots)
    ensures loc < |slots| && slots[loc].Live() && slots[loc].element == e
  {
    if slots[0].Live() && slots[0].element == e {
      loc := 0;
    } else {
      loc := BagMember(slots[1..], e);
      loc := loc + 1;
    }
  }

  /** One of the element's places holds it, collected or not. */
  ghost predicate Findable<E>(h: Hasher<E>, slots: seq<Slot<E>>, e: E)
    requires |slots| == h.size > 0
  {
    exists i: nat :: i < 8 && slots[h.Loc(e, i)].element == e
  }

  lemma SameFindable<E>(h: Hasher<E>, slots: seq<Slot<E>>, slots': seq<Slot<E>>, e: E)
    requires |slots| == |slots'| == h.size > 0 && forall i | 0 <= i < |slots| :: slots'[i].element == slots[i].element
    ensures Findable(h, slots, e) ==> Findable(h, slots', e)
  {
    if Findable(h, slots, e) {
      var i: nat :| i < 8 && slots[h.Loc(e, i)].element == e;
      assert slots'[h.Loc(e, i)].element == e;
    }
  }

  lemma FoundIsFindable<E>(h: Hasher<E>, slots: seq<Slot<E>>, e: E, at: Option<nat>)
    requires |slots| == h.size > 0
    requires at.Some? ==> at.value < |slots| && slots[at.value].element == e && h.MayBeAt(e, at.value)
    requires at.None? ==> forall i: nat | i < 8 :: slots[h.Loc(e, i)].element != e
    ensures at.Some? <==> Findable(h, slots, e)
  {
  }

  lemma LookupMeaning<E>(h: Hasher<E>, zero: E, slots: seq<Slot<E>>, e: E, at: Option<nat>)
    requires Placed(h, zero, slots)
    requires at.Some? ==> at.value < |slots| && slots[at.value].element == e
    requires at.None? ==> Absent(zero, slots, e) && forall i: nat | i < 8 :: slots[h.Loc(e, i)].element != e
    ensures e != zero ==> (at.Some? <==> exists i :: 0 <= i < |slots| && slots[i].element == e)
    ensures e in LiveBag(slots) ==> at.Some?
  {
    if e in LiveBag(slots) {
      var loc := BagMember(slots, e);
      assert h.MayBeAt(e, loc);
      var k: nat :| k < 8 && h.Loc(e, k) == loc;
      assert slots[h.Loc(e, k)].element == e;
    }
  }

  lemma ErasedFacts<E>(h: Hasher<E>, zero: E, slots: seq<Slot<E>>, loc: nat)
    requires Placed(h, zero, slots) && loc < |slots| && h.MayBeAt(slots[loc].element, loc) &&
             NoneEarlier(h, slots, slots[loc].element, loc)
    ensures var after := slots[loc := slots[loc].(collected := true)];
            && Placed(h, zero, after) && Recent(after) <= Recent(slots) && Old(after) <= Old(slots)
            && LiveBag(after) == LiveBag(slots) - multiset{slots[loc].element} && slots[loc].element !in LiveBag(after)
  {
    hide LiveBag, Recent, Old, Hasher.MayBeAt, Placed, NoneEarlier;
    var s := slots[loc].(collected := true);
    SizeOf(h, zero, slots);
    PutKeepsPlaced(h, zero, slots, loc, s);
    RecentUpdate(slots, loc, s);
    LiveBagUpdate(slots, loc, s);
    NoneEarlierKept(h, slots, s.element, loc, loc, s);
    NoOtherLive(h, zero, slots[loc := s], loc);
    if slots[loc].Live() {
      assert LiveBag(slots) == LiveBag(slots[loc := s]) + multiset{slots[loc].element};
    } else {
      assert slots[loc := s] == slots;
    }
  }

  /** An element in a collected slot that a lookup would find first is live nowhere. */
  lemma NoOtherLive<E>(h: Hasher<E>, zero: E, slots: seq<Slot<E>>, loc: nat)
    requires Placed(h, zero, slots) && loc < |slots| && slots[loc].collected &&
             NoneEarlier(h, slots, slots[loc].element, loc)
    ensures slots[loc].element !in LiveBag(slots)
  {
    hide Hasher.MayBeAt, NoneEarlier;
    if slots[loc].element in LiveBag(slots) {
      var i := BagMember(slots, slots[loc].element);
      if slots[loc].element == zero {
        FirstIsOne(h, slots, zero, i, loc);
      }
    }
  }

  /** In every state the cache holds at most two epochs' worth of live elements. */
  lemma LoadBound<E>(slots: seq<Slot<E>>, epochSize: nat)
    requires Recent(slots) <= EpochBound(epochSize) && Old(slots) <= EpochBound(epochSize)
    ensures |LiveBag(slots)| <= 2 * (epochSize + Max(1, epochSize / 16))
  {
    LiveBagSize(slots);
  }

  // ---- whole runs ----

  datatype Call<E> = CallInsert(e: E) | CallContains(e: E, erase: bool)

  /** Every run: live elements stay at their own places and apart, and the load stays bounded. */
  method Run<E(==, !new)>(h: (nat, E) -> nat, zero: E, newSize: nat, depth: nat, calls: seq<Call<E>>)
    returns (c: Cache<E>)
    requires newSize < 0x1_0000_0000 && depth >= 1
    ensures c.Valid() && |LiveBag(c.slots)| <= 2 * (c.epochSize + Max(1, c.epochSize / 16))
    ensures forall i: nat | i < |c.slots| && c.slots[i].Live() :: c.H().MayBeAt(c.slots[i].element, i)
    ensures forall i: nat, j: nat | i < j < |c.slots| && c.slots[i].Live() && c.slots[j].Live() ::
              c.slots[i].element != c.slots[j].element
  {
    c := new Cache(h, zero, newSize, depth);
    for i := 0 to |calls|
      invariant fresh(c) && c.Valid()
    {
      match calls[i]
      case CallInsert(e) =>
        ghost var mid, dropped := c.Insert(e);
      case CallContains(e, erase) =>
        var found := c.Contains(e, erase);
    }
    LoadBound(c.slots, c.epochSize);
    forall i: nat, j: nat | i < j < |c.slots| && c.slots[i].Live() && c.slots[j].Live()
      ensures c.slots[i].element != c.slots[j].element
    {
      LiveOnce(c.H(), zero, c.slots, i, j);
    }
  }

  lemma SizeOf<E>(h: Hasher<E>, zero: E, slots: seq<Slot<E>>)
    requires Placed(h, zero, slots)
    ensures |slots| == h.size && h.size > 0
  {
  }

  lemma NoneCounted<E>(slots: seq<Slot<E>>)
    ensures Recent(slots[..0]) == 0
  {
  }

  lemma {:induction false} NothingLive<E>(slots: seq<Slot<E>>)
    requires forall i | 0 <= i < |slots| :: slots[i].collected
    ensures Recent(slots) == 0 && Old(slots) == 0 && LiveBag(slots) == multiset{}
  {
    if slots != [] {
      NothingLive(slots[1..]);
    }
  }
}
