/** When the slots found by the receiver, completed with what they lack, are the block that was sent. */
module CompactRebuild {
  import opened Collections
  import opened CompactSlots
  import opened CompactBlock
  import opened CompactScan

  /** The messages that are not refused outright. */
  predicate Acceptable<T>(isNull: T -> bool, msg: Message<T>) {
    !msg.nullHeader && 0 < Count(msg) <= MAX_COUNT && InBounds(isNull, msg, |msg.prefilled|)
  }

  /** No short id occurs twice, and no bucket of the map gets too crowded on the way. */
  ghost predicate Mappable(ids: seq<nat>, crowded: nat -> bool) {
    Unique(ids, |ids|) && forall i: nat | i < |ids| :: !crowded(i)
  }

  /** A receiver ready to be filled: a map for the short ids, every slot accounted for, the count of those found exact.
      */
  ghost predicate Ready<T(!new), H>(isNull: T -> bool, whash: T -> H, shortId: H -> nat, msg: Message<T>,
                                    pool: seq<Known<T, H>>, extra: seq<Known<T, H>>, m: map<nat, nat>,
                                    slots: seq<Option<T>>, count: nat, a: nat, b: nat)
  {
    && Acceptable(isNull, msg) && Unique(msg.shortIds, |msg.shortIds|)
    && var known, placed := pool + extra, Placed(isNull, msg, |msg.prefilled|);
       && |msg.shortIds| == |Free(placed)| && IdMap(msg.shortIds, Wrapped(Free(placed)), m)
       && Outcome(whash, shortId, m, known, placed, slots, |pool|, a, b)
       && count == |set p: nat | p < |slots| && Verdict(whash, shortId, m, known, p, |pool|, a, b).Held?|
  }

  function IdOf<T, H>(whash: T -> H, shortId: H -> nat, vtx: seq<T>, p: nat): nat
    requires p < |vtx|
  {
    shortId(whash(vtx[p]))
  }

  /** Some transaction the receiver has, has the short id. */
  ghost predicate Knows<T, H>(shortId: H -> nat, known: seq<Known<T, H>>, id: nat) {
    exists i: nat :: i < |known| && shortId(known[i].hash) == id
  }

  /** No two pool transactions have one short id. */
  ghost predicate PoolApart<T, H>(shortId: H -> nat, pool: seq<Known<T, H>>) {
    forall i: nat, k: nat | i < k < |pool| :: shortId(pool[i].hash) != shortId(pool[k].hash)
  }

  /** The transaction at slot `p` of the block is to be found, and is known. */
  ghost predicate Found<T, H>(whash: T -> H, shortId: H -> nat, known: seq<Known<T, H>>, placed: seq<Option<T>>,
                              vtx: seq<T>, p: nat) {
    p < |vtx| == |placed| && placed[p].None? && Knows(shortId, known, IdOf(whash, shortId, vtx, p))
  }

  lemma Described<T(!new), H>(isNull: T -> bool, whash: T -> H, shortId: H -> nat, msg: Message<T>, vtx: seq<T>)
    requires InBounds(isNull, msg, |msg.prefilled|) && Describes(isNull, whash, shortId, msg, vtx)
    ensures var placed := Placed(isNull, msg, |msg.prefilled|);
            var free := Free(placed);
            && |vtx| == |placed| == Count(msg) && |free| == |msg.shortIds|
            && (forall j | 0 <= j < |free| ::
                 free[j] < |vtx| && placed[free[j]] == None && msg.shortIds[j] == IdOf(whash, shortId, vtx, free[j]))
            && (forall p | 0 <= p < |vtx| && placed[p].None? :: p in free)
            && (forall p | 0 <= p < |vtx| && placed[p].Some? :: placed[p].value == vtx[p])
            && (forall p | 0x1_0000 <= p < |vtx| :: placed[p].None?)
  {
    hide Free, Placed, InBounds;
    FreeIs(Placed(isNull, msg, |msg.prefilled|));
    BeyondFree(isNull, msg);
  }

  // ---- which transactions lead where ----

  /** A short id leads to slot `p` if it is that of the free slot `p`, or of the one 2^16 further on. */
  lemma LeadsExactly<T(!new), H>(isNull: T -> bool, whash: T -> H, shortId: H -> nat, msg: Message<T>, vtx: seq<T>,
                       m: map<nat, nat>, id: nat, p: nat)
    requires Acceptable(isNull, msg) && Describes(isNull, whash, shortId, msg, vtx)
    requires var free := Free(Placed(isNull, msg, |msg.prefilled|));
             |msg.shortIds| == |free| && IdMap(msg.shortIds, Wrapped(free), m)
    ensures var placed := Placed(isNull, msg, |msg.prefilled|);
            && |vtx| == |placed| == Count(msg)
            && (id in m && m[id] == p <==>
                  p < 0x1_0000 && ((p < |vtx| && placed[p].None? && id == IdOf(whash, shortId, vtx, p)) ||
                                   (p + 0x1_0000 < |vtx| && id == IdOf(whash, shortId, vtx, p + 0x1_0000))))
  {
    hide Free, Placed, InBounds, Describes, IdMap, Wrapped;
    var placed := Placed(isNull, msg, |msg.prefilled|);
    var free, ids := Free(placed), msg.shortIds;
    Described(isNull, whash, shortId, msg, vtx);
    if id in m && m[id] == p {
      var j := Led(free, ids, m, id, p, |vtx|);
    }
    if p < 0x1_0000 && p < |vtx| && placed[p].None? && id == IdOf(whash, shortId, vtx, p) {
      OwnTarget(free, ids, m, p, id);
    }
    if p < 0x1_0000 && p + 0x1_0000 < |vtx| && id == IdOf(whash, shortId, vtx, p + 0x1_0000) {
      assert placed[p + 0x1_0000].None?;
      OwnTarget(free, ids, m, p + 0x1_0000, id);
    }
  }

  lemma Led(free: seq<nat>, ids: seq<nat>, m: map<nat, nat>, id: nat, p: nat, n: nat) returns (j: nat)
    requires |ids| == |free| && IdMap(ids, Wrapped(free), m) && id in m && m[id] == p
    requires n <= 100000 && forall j | 0 <= j < |free| :: free[j] < n
    ensures p < 0x1_0000 && j < |ids| && ids[j] == id && (free[j] == p || free[j] == p + 0x1_0000)
  {
    assert Leads(ids, Wrapped(free), |ids|, id, m[id]);
    j :| 0 <= j < |ids| && ids[j] == id && p == Wrapped(free)[j];
  }

  lemma OwnTarget(free: seq<nat>, ids: seq<nat>, m: map<nat, nat>, q: nat, id: nat)
    requires |ids| == |free| && IdMap(ids, Wrapped(free), m) && q in free && forall j | 0 <= j < |free| &&
             free[j] == q :: ids[j] == id
    ensures id in m && m[id] == q % 0x1_0000
  {
    var j :| 0 <= j < |free| && free[j] == q;
    assert ids[j] in m && m[ids[j]] == Wrapped(free)[j];
  }

  /** Slots that do not fit 16 bits are free. */
  lemma BeyondFree<T>(isNull: T -> bool, msg: Message<T>)
    requires InBounds(isNull, msg, |msg.prefilled|)
    ensures forall p | 0x1_0000 <= p < Count(msg) :: Placed(isNull, msg, |msg.prefilled|)[p] == None
  {
    hide Placed;
    forall i: nat | i < |msg.prefilled| ensures Pos(msg.prefilled, i) <= 0xFFFF
    {
      assert PrefilledOk(isNull, msg, i);
    }
    forall p | 0x1_0000 <= p < Count(msg) ensures Placed(isNull, msg, |msg.prefilled|)[p] == None
    {
      if Placed(isNull, msg, |msg.prefilled|)[p].Some? {
        PlacedOnly(isNull, msg, |msg.prefilled|, p);
      }
    }
  }

  /** Free slots of one block have different short ids, so different transactions. */
  lemma IdsApart<T(!new), H>(isNull: T -> bool, whash: T -> H, shortId: H -> nat, msg: Message<T>, vtx: seq<T>,
                   p: nat, q: nat)
    requires Acceptable(isNull, msg) && Describes(isNull, whash, shortId, msg, vtx) &&
             Unique(msg.shortIds, |msg.shortIds|)
    requires var placed := Placed(isNull, msg, |msg.prefilled|);
             p < q < |vtx| == |placed| && placed[p].None? && placed[q].None?
    ensures IdOf(whash, shortId, vtx, p) != IdOf(whash, shortId, vtx, q) && whash(vtx[p]) != whash(vtx[q])
  {
    hide Free, Placed, InBounds;
    var free := Free(Placed(isNull, msg, |msg.prefilled|));
    FreeIs(Placed(isNull, msg, |msg.prefilled|));
    assert p in free && q in free;
    var i :| 0 <= i < |free| && free[i] == p;
    var j :| 0 <= j < |free| && free[j] == q;
  }

  // ---- what the slots hold ----

  /** The transactions that lead to a slot are those of the block with the right short id. */
  ghost predicate Sides<T(!new), H>(whash: T -> H, shortId: H -> nat, m: map<nat, nat>, known: seq<Known<T, H>>,
                          placed: seq<Option<T>>, vtx: seq<T>, p: nat)
    requires p < |vtx| == |placed|
  {
    forall i: nat | i < |known| :: Has(shortId, m, known, p, i) <==>
      p < 0x1_0000 && ((placed[p].None? && shortId(known[i].hash) == IdOf(whash, shortId, vtx, p)) ||
                       (p + 0x1_0000 < |vtx| && shortId(known[i].hash) == IdOf(whash, shortId, vtx, p + 0x1_0000)))
  }

  lemma SidesHold<T(!new), H>(isNull: T -> bool, whash: T -> H, shortId: H -> nat, msg: Message<T>, vtx: seq<T>,
                    m: map<nat, nat>, known: seq<Known<T, H>>, p: nat)
    requires Acceptable(isNull, msg) && Describes(isNull, whash, shortId, msg, vtx) && p < |vtx|
    requires var free := Free(Placed(isNull, msg, |msg.prefilled|));
             |msg.shortIds| == |free| && IdMap(msg.shortIds, Wrapped(free), m)
    ensures |vtx| == |Placed(isNull, msg, |msg.prefilled|)| == Count(msg)
    ensures Sides(whash, shortId, m, known, Placed(isNull, msg, |msg.prefilled|), vtx, p)
  {
    hide Free, Placed, InBounds, IdMap, Describes;
    LeadsExactly(isNull, whash, shortId, msg, vtx, m, 0, p);
    forall i: nat | i < |known|
      ensures var placed := Placed(isNull, msg, |msg.prefilled|);
              Has(shortId, m, known, p, i) <==>
                p < 0x1_0000 && ((placed[p].None? && shortId(known[i].hash) == IdOf(whash, shortId, vtx, p)) ||
                                 (p + 0x1_0000 < |vtx| &&
                                   shortId(known[i].hash) == IdOf(whash, shortId, vtx, p + 0x1_0000)))
    {
      LeadsExactly(isNull, whash, shortId, msg, vtx, m, shortId(known[i].hash), p);
    }
  }

  /** One of the two transactions of a slot, if only one is known. */
  lemma OneSide<T(!new), H>(whash: T -> H, shortId: H -> nat, m: map<nat, nat>, pool: seq<Known<T, H>>,
                  extra: seq<Known<T, H>>,
                            placed: seq<Option<T>>, slots: seq<Option<T>>, vtx: seq<T>, a: nat, b: nat, p: nat, q: nat)
    requires p < |vtx| == |placed| && Sides(whash, shortId, m, pool + extra, placed, vtx, p) && p < 0x1_0000
    requires NoConfusion(pool + extra, whash, shortId, vtx) && PoolApart(shortId, pool)
    requires Outcome(whash, shortId, m, pool + extra, placed, slots, |pool|, a, b)
    requires q < |vtx| && (if q == p then placed[p].None? else q == p + 0x1_0000)
    requires q == p ==> !Found(whash, shortId, pool + extra, placed, vtx, p + 0x1_0000)
    requires q != p ==> placed[q].None? && !Found(whash, shortId, pool + extra, placed, vtx, p)
    requires p + 0x1_0000 < |vtx| ==> placed[p + 0x1_0000].None?
    ensures slots[p] == if Knows(shortId, pool + extra, IdOf(whash, shortId, vtx, q)) then Some(vtx[q]) else placed[p]
  {
    var known, id := pool + extra, IdOf(whash, shortId, vtx, q);
    hide Outcome;
    forall i: nat | i < |known| ensures Has(shortId, m, known, p, i) <==> shortId(known[i].hash) == id
    {
    }
    hide Sides;
    forall i: nat, k: nat | i < k < |pool| && Has(shortId, m, known, p, i) ensures !Has(shortId, m, known, p, k)
    {
      assert known[i] == pool[i] && known[k] == pool[k];
    }
    assert OneMeaning(shortId, m, known, |pool|, p, vtx[q]);
    OutcomeLength(whash, shortId, m, known, placed, slots, |pool|, a, b);
    HeldWhenKnown(whash, shortId, m, known, placed, slots, |pool|, a, b, p, vtx[q]);
    KnownHas(shortId, m, known, p, id);
  }

  lemma OutcomeLength<T(!new), H>(whash: T -> H, shortId: H -> nat, m: map<nat, nat>, known: seq<Known<T, H>>,
                                  placed: seq<Option<T>>, slots: seq<Option<T>>, n: nat, a: nat, b: nat)
    requires Outcome(whash, shortId, m, known, placed, slots, n, a, b)
    ensures |slots| == |placed|
  {
  }

  lemma KnownHas<T, H>(shortId: H -> nat, m: map<nat, nat>, known: seq<Known<T, H>>, p: nat, id: nat)
    requires forall i: nat | i < |known| :: Has(shortId, m, known, p, i) <==> shortId(known[i].hash) == id
    ensures Knows(shortId, known, id) <==> SomeHas(shortId, m, known, p, 0, |known|)
  {
    if Knows(shortId, known, id) {
      var i: nat :| i < |known| && shortId(known[i].hash) == id;
      assert Has(shortId, m, known, p, i);
    }
  }

  /**
   * What slot `p` holds: its own transaction if only that one is known, the one 2^16 further on if only that one is
   * known, nothing if both are, and what was prefilled if none is.
   */
  ghost predicate Holds<T, H>(whash: T -> H, shortId: H -> nat, known: seq<Known<T, H>>, placed: seq<Option<T>>,
                              vtx: seq<T>, slots: seq<Option<T>>, p: nat)
    requires p < |slots| == |vtx| == |placed|
  {
    var q := p + 0x1_0000;
    var own, other := Found(whash, shortId, known, placed, vtx, p), Found(whash, shortId, known, placed, vtx, q);
    && (other ==> q < |vtx|)
    && slots[p] == if p >= 0x1_0000 then None else if own && other then None else if own then Some(vtx[p])
                   else if other then Some(vtx[q]) else placed[p]
  }

  /** For a pool without collisions every slot is like that. */
  lemma SlotHolds<T(!new), H>(isNull: T -> bool, whash: T -> H, shortId: H -> nat, msg: Message<T>, vtx: seq<T>,
                              pool: seq<Known<T, H>>, extra: seq<Known<T, H>>, m: map<nat, nat>,
                                slots: seq<Option<T>>, count: nat, a: nat, b: nat, p: nat)
    requires Ready(isNull, whash, shortId, msg, pool, extra, m, slots, count, a, b) &&
             Describes(isNull, whash, shortId, msg, vtx)
    requires NoConfusion(pool + extra, whash, shortId, vtx) && PoolApart(shortId, pool) && p < |slots|
    ensures |slots| == |vtx| == Count(msg)
    ensures Holds(whash, shortId, pool + extra, Placed(isNull, msg, |msg.prefilled|), vtx, slots, p)
  {
    var known, placed, q := pool + extra, Placed(isNull, msg, |msg.prefilled|), p + 0x1_0000;
    OutcomeLength(whash, shortId, m, known, placed, slots, |pool|, a, b);
    BeyondFree(isNull, msg);
    hide Free, Placed, InBounds, IdMap, Outcome, Wrapped;
    assert p < |vtx| == |placed|;
    SidesHold(isNull, whash, shortId, msg, vtx, m, known, p);
    var own, other := Found(whash, shortId, known, placed, vtx, p), Found(whash, shortId, known, placed, vtx, q);
    hide Describes, NoConfusion;
    if p >= 0x1_0000 || (placed[p].Some? && q >= |vtx|) {
      Unreached(whash, shortId, m, known, placed, slots, vtx, |pool|, a, b, p);
    } else if own && other {
      IdsApart(isNull, whash, shortId, msg, vtx, p, q);
      BothKnown(whash, shortId, m, pool, extra, placed, slots, vtx, a, b, p);
    } else if placed[p].None? && !other {
      OneSide(whash, shortId, m, pool, extra, placed, slots, vtx, a, b, p, p);
    } else {
      OneSide(whash, shortId, m, pool, extra, placed, slots, vtx, a, b, p, q);
    }
  }

  lemma Unreached<T(!new), H>(whash: T -> H, shortId: H -> nat, m: map<nat, nat>, known: seq<Known<T, H>>,
                              placed: seq<Option<T>>, slots: seq<Option<T>>, vtx: seq<T>, n: nat, a: nat, b: nat,
                                p: nat)
    requires p < |vtx| == |placed| && Sides(whash, shortId, m, known, placed, vtx, p)
    requires Outcome(whash, shortId, m, known, placed, slots, n, a, b) &&
             (p >= 0x1_0000 || (placed[p].Some? && p + 0x1_0000 >= |vtx|))
    ensures slots[p] == placed[p]
  {
    assert OneMeaning(shortId, m, known, n, p, vtx[p]);
    OutcomeLength(whash, shortId, m, known, placed, slots, n, a, b);
    hide Outcome;
    HeldWhenKnown(whash, shortId, m, known, placed, slots, n, a, b, p, vtx[p]);
  }

  lemma BothKnown<T(!new), H>(whash: T -> H, shortId: H -> nat, m: map<nat, nat>, pool: seq<Known<T, H>>,
                    extra: seq<Known<T, H>>,
                              placed: seq<Option<T>>, slots: seq<Option<T>>, vtx: seq<T>, a: nat, b: nat, p: nat)
    requires p < |vtx| == |placed| && p < 0x1_0000 && Sides(whash, shortId, m, pool + extra, placed, vtx, p)
    requires NoConfusion(pool + extra, whash, shortId, vtx)
    requires Outcome(whash, shortId, m, pool + extra, placed, slots, |pool|, a, b)
    requires Found(whash, shortId, pool + extra, placed, vtx, p) &&
             Found(whash, shortId, pool + extra, placed, vtx, p + 0x1_0000)
    requires IdOf(whash, shortId, vtx, p) != IdOf(whash, shortId, vtx, p + 0x1_0000) &&
             whash(vtx[p]) != whash(vtx[p + 0x1_0000])
    ensures slots[p] == None
  {
    var known := pool + extra;
    var i: nat :| i < |known| && shortId(known[i].hash) == IdOf(whash, shortId, vtx, p);
    var k: nat :| k < |known| && shortId(known[k].hash) == IdOf(whash, shortId, vtx, p + 0x1_0000);
    assert Has(shortId, m, known, p, i) && Has(shortId, m, known, p, k);
    OutcomeLength(whash, shortId, m, known, placed, slots, |pool|, a, b);
    ContestedWhenTwo(whash, shortId, m, known, placed, slots, |pool|, a, b, p, i, k);
  }

  // ---- when the block is rebuilt ----

  /** A known transaction from beyond 2^16 leads to a slot whose own transaction is known too, or is the same one. */
  ghost predicate NoneMisplaced<T, H>(whash: T -> H, shortId: H -> nat, known: seq<Known<T, H>>,
                                      placed: seq<Option<T>>, vtx: seq<T>) {
    forall q: nat | 0x1_0000 <= q < |vtx| && Found(whash, shortId, known, placed, vtx, q) ::
      Found(whash, shortId, known, placed, vtx, q - 0x1_0000) || vtx[q] == vtx[q - 0x1_0000]
  }

  lemma ReadyParts<T(!new), H>(isNull: T -> bool, whash: T -> H, shortId: H -> nat, msg: Message<T>,
                               pool: seq<Known<T, H>>, extra: seq<Known<T, H>>, m: map<nat, nat>,
                               slots: seq<Option<T>>, count: nat, a: nat, b: nat)
    requires Ready(isNull, whash, shortId, msg, pool, extra, m, slots, count, a, b)
    ensures Acceptable(isNull, msg) && |slots| == Count(msg) <= 100000
  {
  }

  /** For a pool without collisions the block is rebuilt exactly if nothing from beyond 2^16 is misplaced. */
  lemma RebuildsExactly<T(!new), H>(isNull: T -> bool, whash: T -> H, shortId: H -> nat, msg: Message<T>, vtx: seq<T>,
                                    pool: seq<Known<T, H>>, extra: seq<Known<T, H>>, m: map<nat, nat>,
                                      slots: seq<Option<T>>, count: nat, a: nat, b: nat)
    requires Ready(isNull, whash, shortId, msg, pool, extra, m, slots, count, a, b) &&
             Describes(isNull, whash, shortId, msg, vtx)
    requires NoConfusion(pool + extra, whash, shortId, vtx) && PoolApart(shortId, pool)
    ensures |slots| == |vtx|
    ensures FilledIn(slots, MissingOf(slots, vtx)) == vtx <==>
              NoneMisplaced(whash, shortId, pool + extra, Placed(isNull, msg, |msg.prefilled|), vtx)
  {
    hide Free, Placed, InBounds, Ready, Describes, NoConfusion, PoolApart, FilledIn, MissingOf, Found, Holds,
         NoneMisplaced, NothingWrong;
    ReadyParts(isNull, whash, shortId, msg, pool, extra, m, slots, count, a, b);
    var known, placed := pool + extra, Placed(isNull, msg, |msg.prefilled|);
    Described(isNull, whash, shortId, msg, vtx);
    FillRebuilds(slots, vtx);
    forall p: nat | p < |slots| ensures Holds(whash, shortId, known, placed, vtx, slots, p)
    {
      SlotHolds(isNull, whash, shortId, msg, vtx, pool, extra, m, slots, count, a, b, p);
    }
    WrongExactly(whash, shortId, known, placed, vtx, slots);
  }

  lemma WrongExactly<T, H>(whash: T -> H, shortId: H -> nat, known: seq<Known<T, H>>, placed: seq<Option<T>>,
                           vtx: seq<T>, slots: seq<Option<T>>)
    requires |slots| == |vtx| == |placed| <= 100000 && forall p | 0 <= p < |vtx| && placed[p].Some? ::
               placed[p].value == vtx[p]
    requires forall p: nat | p < |slots| :: Holds(whash, shortId, known, placed, vtx, slots, p)
    ensures NothingWrong(slots, vtx) <==> NoneMisplaced(whash, shortId, known, placed, vtx)
  {
    hide Found;
    if NothingWrong(slots, vtx) {
      forall q: nat | 0x1_0000 <= q < |vtx| && Found(whash, shortId, known, placed, vtx, q)
        ensures Found(whash, shortId, known, placed, vtx, q - 0x1_0000) || vtx[q] == vtx[q - 0x1_0000]
      {
        assert Holds(whash, shortId, known, placed, vtx, slots, q - 0x1_0000);
      }
    }
    if NoneMisplaced(whash, shortId, known, placed, vtx) {
      forall p | 0 <= p < |slots| && slots[p].Some? ensures slots[p].value == vtx[p]
      {
        assert Holds(whash, shortId, known, placed, vtx, slots, p);
        var q: nat := p + 0x1_0000;
        assert Found(whash, shortId, known, placed, vtx, q) ==>
          Found(whash, shortId, known, placed, vtx, q - 0x1_0000) || vtx[q] == vtx[q - 0x1_0000];
      }
    }
  }

  /** Within 2^16 transactions the block is rebuilt whatever else the pool holds. */
  lemma RebuildsSmall<T(!new), H>(isNull: T -> bool, whash: T -> H, shortId: H -> nat, msg: Message<T>, vtx: seq<T>,
                                  pool: seq<Known<T, H>>, extra: seq<Known<T, H>>, m: map<nat, nat>,
                                    slots: seq<Option<T>>, count: nat, a: nat, b: nat)
    requires Ready(isNull, whash, shortId, msg, pool, extra, m, slots, count, a, b) &&
             Describes(isNull, whash, shortId, msg, vtx)
    requires NoConfusion(pool + extra, whash, shortId, vtx) && |vtx| <= 0x1_0000
    ensures |slots| == |vtx| && FilledIn(slots, MissingOf(slots, vtx)) == vtx
  {
    var known, placed := pool + extra, Placed(isNull, msg, |msg.prefilled|);
    OutcomeLength(whash, shortId, m, known, placed, slots, |pool|, a, b);
    FillRebuilds(slots, vtx);
    hide Free, Placed, InBounds, FilledIn, MissingOf, IdMap, Wrapped;
    forall p | 0 <= p < |slots| && slots[p].Some? ensures slots[p].value == vtx[p]
    {
      var v := Verdict(whash, shortId, m, known, p, |pool|, a, b);
      if v.Held? {
        HeldComes(whash, shortId, m, known, p, |pool|, a, b);
        var i: nat :| Has(shortId, m, known, p, i) && known[i].tx == v.tx;
        SidesHold(isNull, whash, shortId, msg, vtx, m, known, p);
      }
    }
  }

  /** The first slot past 16 bits leads to the coinbase's: a known transaction from there takes its place. */
  lemma CoinbaseOverwritten<T(!new), H>(isNull: T -> bool, whash: T -> H, shortId: H -> nat, msg: Message<T>,
                              vtx: seq<T>,
                                        pool: seq<Known<T, H>>, extra: seq<Known<T, H>>, m: map<nat, nat>,
                                          slots: seq<Option<T>>, count: nat, a: nat, b: nat)
    requires Ready(isNull, whash, shortId, msg, pool, extra, m, slots, count, a, b) &&
             Describes(isNull, whash, shortId, msg, vtx)
    requires NoConfusion(pool + extra, whash, shortId, vtx) && PoolApart(shortId, pool)
    requires |vtx| > 0x1_0000 && Placed(isNull, msg, |msg.prefilled|)[0] == Some(vtx[0])
    requires Knows(shortId, pool + extra, IdOf(whash, shortId, vtx, 0x1_0000))
    ensures |slots| == |vtx| && slots[0] == Some(vtx[0x1_0000])
  {
    OutcomeLength(whash, shortId, m, pool + extra, Placed(isNull, msg, |msg.prefilled|), slots, |pool|, a, b);
    BeyondFree(isNull, msg);
    SlotHolds(isNull, whash, shortId, msg, vtx, pool, extra, m, slots, count, a, b, 0);
  }
}
