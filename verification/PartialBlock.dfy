/** The object that rebuilds a block from a compact message, and the coding of the indexes it asks for. */
module PartialBlock {
  import opened Collections
  import opened CompactSlots
  import opened CompactBlock
  import opened CompactScan
  import opened CompactRebuild

  class PartialBlock<T(==, !new), H(==)> {
    const isNull: T -> bool
    const whash: T -> H
    const shortId: H -> nat
    var nullHeader: bool
    var available: seq<Option<T>>
    var prefilledCount: nat
    var mempoolCount: nat

    constructor (n: T -> bool, w: T -> H, s: H -> nat)
      ensures isNull == n && whash == w && shortId == s && nullHeader && available == [] && prefilledCount == 0 &&
              mempoolCount == 0
    {
      isNull, whash, shortId, nullHeader, available, prefilledCount, mempoolCount := n, w, s, true, [], 0, 0;
    }

    /** Puts the prefilled transactions in their slots; refuses exactly the messages with one that is null or out of
        bounds. */
    method Prefill(msg: Message<T>) returns (ok: bool)
      requires available == Empty<T>(Count(msg))
      modifies this`available
      ensures ok <==> InBounds(isNull, msg, |msg.prefilled|)
      ensures ok ==> available == Placed(isNull, msg, |msg.prefilled|)
    {
      hide Empty, PrefilledOk;
      var last := -1;
      for i := 0 to |msg.prefilled|
        invariant InBounds(isNull, msg, i) && available == Placed(isNull, msg, i)
        invariant last == if i == 0 then -1 else Pos(msg.prefilled, i - 1)
      {
        PrefilledIs(isNull, msg, i);
        if isNull(msg.prefilled[i].tx) {
          return false;
        }
        last := last + msg.prefilled[i].index + 1;
        if last > 0xFFFF {
          return false;
        }
        if last > |msg.shortIds| + i {
          return false;
        }
        available := available[last := Some(msg.prefilled[i].tx)];
      }
      ok := true;
    }

    /**
     * Finds the slot of every short id. It does not end exactly when all 16-bit offsets are occupied; it fails on an id
     * that occurs twice, and where the table gets too crowded. Slot numbers are cut to 16 bits.
     */
    method MapIds(msg: Message<T>, crowded: nat -> bool) returns (ended: bool, ok: bool, m: map<nat, nat>)
      requires InBounds(isNull, msg, |msg.prefilled|) && available == Placed(isNull, msg, |msg.prefilled|)
      ensures ended <==> !Endless(msg)
      ensures ended ==> (ok <==> Mappable(msg.shortIds, crowded))
      ensures |msg.shortIds| == |Free(available)| && (ended && ok ==> IdMap(msg.shortIds, Wrapped(Free(available)), m))
    {
      hide Placed, InBounds, Free, Mapped, IdMap, Unique, Endless;
      FreeCounted(isNull, msg);
      FreeIs(available);
      EndlessMeans(isNull, msg);
      ended, ok, m := true, false, map[];
      ghost var free := Free(available);
      NothingMapped(msg.shortIds, Wrapped(free));
      var offset := 0;
      for i := 0 to |msg.shortIds|
        invariant 0 <= offset <= 0xFFFF && ended && Mapped(msg.shortIds, Wrapped(free), i, m)
        invariant i + offset == if i == 0 then 0 else free[i - 1] + 1
        invariant i > 0 ==> !Endless(msg)
        invariant forall k: nat | k < i :: !crowded(k)
      {
        var found := NextOffset(i, offset);
        if found.None? {
          NothingFree(available, offset);
          ended := false;
          return;
        }
        offset := found.value;
        MapOne(msg.shortIds, Wrapped(free), i, m);
        m := m[msg.shortIds[i] := (i + offset) % 0x1_0000];
        if crowded(i) {
          return;
        }
      }
      MapsAll(msg.shortIds, Wrapped(free), m);
      ok := |m| == |msg.shortIds|;
    }

    /** Skips the occupied slots. The offset has 16 bits: where it would pass the last one, it never ends. */
    method NextOffset(i: nat, from: nat) returns (offset: Option<nat>)
      requires i < |Free(available)| && from <= 0xFFFF && (forall p | 0x1_0000 <= p < |available| :: available[p].None?)
      requires i + from == if i == 0 then 0 else Free(available)[i - 1] + 1
      ensures offset.Some? ==> offset.value <= 0xFFFF && i + offset.value == Free(available)[i] < |available|
      ensures offset.None? ==>
                i == 0 && forall n: nat :: Looked(i, from, n) < |available| && available[Looked(i, from, n)].Some?
    {
      hide Free;
      FreeIs(available);
      var o := from;
      NextFree(available, i, i + from, i + o);
      while available[i + o].Some?
        invariant from <= o <= 0xFFFF && i + o < |available|
        invariant forall q | i + from <= q < i + o :: available[q].Some?
        decreases |available| - o
      {
        if o == 0xFFFF {
          // the increment would lead back to offset 0, and so on for ever
          return None;
        }
        NextFree(available, i, i + from, i + o + 1);
        o := o + 1;
      }
      NextFree(available, i, i + from, i + o);
      return Some(o);
    }

    /** One known transaction that leads to slot `p`: it fills an untouched slot and empties a contested one. */
    method Offer(p: nat, tx: T, have: seq<bool>, keepSame: bool) returns (have': seq<bool>)
      requires p < |available| == |have| && (have[p] && available[p].Some? ==> mempoolCount > 0)
      modifies this`available, this`mempoolCount
      ensures (available, have', mempoolCount) == Offered(whash, old(available), have, old(mempoolCount), p, tx,
                keepSame)
    {
      have' := have;
      if !have[p] {
        available := available[p := Some(tx)];
        have' := have[p := true];
        mempoolCount := mempoolCount + 1;
      } else if available[p].Some? && !(keepSame && whash(available[p].value) == whash(tx)) {
        available := available[p := None];
        mempoolCount := mempoolCount - 1;
      }
    }

    /** Goes through known transactions from one position to another, until there is one for every short id. */
    method Scan(known: seq<Known<T, H>>, from: nat, to: nat, keepSame: bool, m: map<nat, nat>, have: seq<bool>,
                ghost placed: seq<Option<T>>, ghost start: seq<Seen<T>>)
      returns (have': seq<bool>, ghost stop: nat, ghost seen: seq<Seen<T>>)
      requires from <= to <= |known| && Reflects(placed, available, have, start) && mempoolCount == |HeldSet(start)|
      requires forall k | k in m :: m[k] < |placed|
      modifies this`available, this`mempoolCount
      ensures from <= stop <= to && Judged(whash, shortId, m, known, from, stop, keepSame, start, seen)
      ensures Reflects(placed, available, have', seen) && mempoolCount == |HeldSet(seen)|
      ensures stop < to ==> mempoolCount == |m|
    {
      hide Offered, Judged, Reflects, HeldSet;
      have', seen := have, start;
      JudgedNone(whash, shortId, m, known, from, keepSame, start);
      ReflectsLength(placed, available, have, start);
      var i := from;
      while i < to
        invariant from <= i <= to && Judged(whash, shortId, m, known, from, i, keepSame, start, seen)
        invariant Reflects(placed, available, have', seen) && mempoolCount == |HeldSet(seen)| && |seen| == |placed|
      {
        var id := shortId(known[i].hash);
        NextJudged(whash, shortId, m, known, from, i, keepSame, start, seen);
        if id in m {
          OfferShows(whash, placed, available, have', mempoolCount, m[id], known[i].tx, keepSame, seen);
          have' := Offer(m[id], known[i].tx, have', keepSame);
          seen := seen[m[id] := After(whash, seen[m[id]], known[i].tx, keepSame)];
        }
        i := i + 1;
        if mempoolCount == |m| {
          break;
        }
      }
      stop := i;
    }

    /**
     * Prefilled slots, the map of short ids, then the pool and the extra transactions. `ended` is false for a call that
     * never returns.
     */
    method InitData(msg: Message<T>, pool: seq<Known<T, H>>, extra: seq<Known<T, H>>, crowded: nat -> bool)
      returns (ended: bool, status: Status, ghost m: map<nat, nat>, ghost a: nat, ghost b: nat)
      requires nullHeader && available == [] && mempoolCount == 0
      modifies this
      ensures ended <==> !(Acceptable(isNull, msg) && Endless(msg))
      ensures ended ==>
                status == if !Acceptable(isNull, msg) then Invalid else if Mappable(msg.shortIds, crowded) then Ok
                  else Failed
      ensures ended && status == Ok ==>
                !nullHeader && Ready(isNull, whash, shortId, msg, pool, extra, m, available, mempoolCount, a, b)
    {
      hide IdMap, Free, Placed, InBounds, Empty, Mappable, Reflects, Judged, Outcome, Endless, HeldSet, PrefilledOk,
           Ready, Wrapped, Verdict;
      ended, m, a, b := true, map[], 0, 0;
      if msg.nullHeader || (msg.shortIds == [] && msg.prefilled == []) {
        status := Invalid;
        return;
      }
      if Count(msg) > MAX_COUNT {
        status := Invalid;
        return;
      }
      nullHeader := msg.nullHeader;
      available := Empty(Count(msg));
      var ok := Prefill(msg);
      status := Invalid;
      if !ok {
        return;
      }
      prefilledCount := |msg.prefilled|;
      ghost var placed := available;
      var map16;
      ended, ok, map16 := MapIds(msg, crowded);
      m := map16;
      if !ended {
        return;
      }
      if !ok {
        status := Failed;
        return;
      }
      TargetsInside(msg.shortIds, Free(placed), m, placed);
      var known, have := pool + extra, seq(|available|, i => false);
      ghost var start := seq(|available|, p => Unseen);
      NoneSeen(placed, have, start);
      ghost var seen, seen2;
      have, a, seen := Scan(known, 0, |pool|, false, map16, have, placed, start);
      have, b, seen2 := Scan(known, |pool|, |known|, true, map16, have, placed, seen);
      OutcomeIs(whash, shortId, m, known, placed, available, have, |pool|, a, b, start, seen, seen2);
      ReadyMade(isNull, whash, shortId, msg, pool, extra, m, crowded, available, mempoolCount, a, b, seen2);
      status := Ok;
    }

    /** Moves the transactions into the block, the missing ones from the list; then the block is checked. */
    method FillBlock(missing: seq<T>, check: seq<T> -> Check) returns (status: Status, vtx: seq<T>)
      requires !nullHeader
      modifies this
      ensures status == Invalid <==> |missing| != |Free(old(available))|
      ensures status != Invalid ==> vtx == FilledIn(old(available), missing) && nullHeader && available == []
      ensures status != Invalid ==>
                status == match check(vtx) { case Passes =>
                  Ok case CorruptionPossible => Failed case Fails => CheckFailed }
    {
      hide Free, FilledIn;
      ghost var slots := available;
      vtx := [];
      var offset := 0;
      FillStarts(slots, missing);
      FreePrefix(slots, |slots|);
      for i := 0 to |available|
        invariant |available| == |slots| && available[i..] == slots[i..]
        invariant offset == |Free(slots[..i])| <= |missing| && vtx == FilledIn(slots[..i], missing[..offset])
      {
        assert available[i] == available[i..][0] == slots[i..][0] == slots[i];
        FillNext(slots, i, missing, offset);
        if available[i].None? {
          if |missing| <= offset {
            FreePrefix(slots, i + 1);
            return Invalid, vtx;
          }
          vtx := vtx + [missing[offset]];
          offset := offset + 1;
        } else {
          vtx := vtx + [available[i].value];
          available := available[i := None];
        }
      }
      assert slots[..|slots|] == slots;
      nullHeader := true;
      available := [];
      if |missing| != offset {
        return Invalid, vtx;
      }
      assert missing[..offset] == missing;
      match check(vtx)
      case Passes => status := Ok;
      case CorruptionPossible => status := Failed;
      case Fails => status := CheckFailed;
    }
  }

  // ---- the steps ----

  /** The slot looked at after `n` increments of a 16-bit offset. */
  function Looked(i: nat, from: nat, n: nat): nat {
    i + (from + n) % 0x1_0000
  }

  /** All slots that a 16-bit offset reaches from the first short id are prefilled. */
  predicate Endless<T>(msg: Message<T>) {
    |msg.prefilled| == 0x1_0000 && msg.shortIds != []
  }

  /** No slot that 16 bits can number is free. */
  ghost predicate AllTaken<T>(slots: seq<Option<T>>) {
    |slots| >= 0x1_0000 && forall p | 0 <= p < 0x1_0000 :: slots[p].Some?
  }

  lemma NothingFree<T>(slots: seq<Option<T>>, from: nat)
    requires from == 0 && forall n: nat :: Looked(0, from, n) < |slots| && slots[Looked(0, from, n)].Some?
    ensures AllTaken(slots)
  {
    assert Looked(0, from, 0xFFFF) == 0xFFFF;
    forall p: nat | p < 0x1_0000 ensures slots[p].Some?
    {
      assert Looked(0, from, p) == p;
    }
  }

  lemma {:induction false} PosAtLeast<T>(pre: seq<Prefilled<T>>, i: nat, k: nat)
    requires i <= k < |pre|
    ensures Pos(pre, i) + (k - i) <= Pos(pre, k) && i <= Pos(pre, i)
    decreases k
  {
    if i < k {
      PosAtLeast(pre, i, k - 1);
    } else if i > 0 {
      PosAtLeast(pre, i - 1, i - 1);
    }
  }

  lemma {:induction false} AscendingFrom(f: seq<nat>, lo: nat, k: nat)
    requires (forall i, j | 0 <= i < j < |f| :: f[i] < f[j]) && (forall i | 0 <= i < |f| :: lo <= f[i]) && k < |f|
    ensures f[k] >= lo + k
    decreases k
  {
    if k > 0 {
      AscendingFrom(f, lo, k - 1);
    }
  }

  lemma FreeCounted<T>(isNull: T -> bool, msg: Message<T>)
    requires InBounds(isNull, msg, |msg.prefilled|)
    ensures |Free(Placed(isNull, msg, |msg.prefilled|))| == |msg.shortIds|
    ensures forall p | 0x1_0000 <= p < Count(msg) :: Placed(isNull, msg, |msg.prefilled|)[p] == None
  {
    PlacedIs(isNull, msg, |msg.prefilled|);
    BeyondFree(isNull, msg);
  }

  /** The search for the first free slot ends exactly when an offset of 16 bits leads to one. */
  lemma EndlessMeans<T>(isNull: T -> bool, msg: Message<T>)
    requires InBounds(isNull, msg, |msg.prefilled|)
    ensures Endless(msg) <==> msg.shortIds != [] && AllTaken(Placed(isNull, msg, |msg.prefilled|))
  {
    hide Placed, Free;
    var k, placed := |msg.prefilled|, Placed(isNull, msg, |msg.prefilled|);
    PlacedIs(isNull, msg, k);
    if k > 0 {
      PosAtLeast(msg.prefilled, 0, k - 1);
      assert PrefilledOk(isNull, msg, k - 1);
      assert k <= 0x1_0000;
    }
    if Endless(msg) {
      forall p: nat | p < 0x1_0000 ensures p < Count(msg) && placed[p].Some?
      {
        PosAtLeast(msg.prefilled, p, k - 1);
        assert Pos(msg.prefilled, p) == p;
        assert PlacedAt(isNull, msg, k, p);
      }
    } else if msg.shortIds != [] && AllTaken(placed) {
      var free := Free(placed);
      FreeIs(placed);
      forall i | 0 <= i < |free| ensures 0x1_0000 <= free[i]
      {
        assert placed[free[i]] == None;
      }
      AscendingFrom(free, 0x1_0000, |free| - 1);
    }
  }

  /** Such messages are accepted: 2^16 prefilled transactions and one short id. */
  lemma {:induction false} EndlessAccepted<T>(isNull: T -> bool, tx: T, id: nat)
    requires !isNull(tx)
    ensures var msg := Message(false, [id], seq(0x1_0000, i => Prefilled(0, tx)));
            Acceptable(isNull, msg) && Endless(msg)
  {
    var pre := seq(0x1_0000, i => Prefilled(0, tx));
    var msg := Message(false, [id], pre);
    forall i: nat | i < |pre| ensures PrefilledOk(isNull, msg, i)
    {
      PosOfZeros(pre, i);
    }
  }

  lemma {:induction false} PosOfZeros<T>(pre: seq<Prefilled<T>>, i: nat)
    requires i < |pre| && forall p | p in pre :: p.index == 0
    ensures Pos(pre, i) == i
  {
    assert pre[i] in pre;
    if i > 0 {
      PosOfZeros(pre, i - 1);
    }
  }

  lemma JudgedNone<T(!new), H>(whash: T -> H, shortId: H -> nat, m: map<nat, nat>, known: seq<Known<T, H>>, from: nat,
                     keepSame: bool, start: seq<Seen<T>>)
    requires from <= |known|
    ensures Judged(whash, shortId, m, known, from, from, keepSame, start, start)
  {
  }

  lemma ReflectsLength<T>(placed: seq<Option<T>>, slots: seq<Option<T>>, have: seq<bool>, seen: seq<Seen<T>>)
    requires Reflects(placed, slots, have, seen)
    ensures |seen| == |placed| == |slots|
  {
  }

  lemma NoneSeen<T>(placed: seq<Option<T>>, have: seq<bool>, start: seq<Seen<T>>)
    requires |have| == |placed| == |start| && (forall s | s in start :: s == Unseen) && forall h | h in have :: !h
    ensures Reflects(placed, placed, have, start) && |HeldSet(start)| == 0
  {
    forall p: nat | p < |start| ensures Shows(placed, placed, have, p, start[p])
    {
      assert start[p] in start && have[p] in have;
    }
    forall p: nat | p < |start| ensures !start[p].Held?
    {
      assert start[p] in start;
    }
    assert HeldSet(start) == {};
  }

  lemma TargetsInside<T>(ids: seq<nat>, free: seq<nat>, m: map<nat, nat>, placed: seq<Option<T>>)
    requires free == Free(placed) && |ids| == |free| && IdMap(ids, Wrapped(free), m)
    ensures forall k | k in m :: m[k] < |placed|
  {
    hide Free, Wrapped;
    FreeIs(placed);
    forall k | k in m ensures m[k] < |placed|
    {
      Target(ids, free, m, k);
    }
  }

  lemma Target(ids: seq<nat>, free: seq<nat>, m: map<nat, nat>, k: nat)
    requires |ids| == |free| && IdMap(ids, Wrapped(free), m) && k in m
    ensures exists j :: 0 <= j < |free| && m[k] <= free[j]
  {
    assert Leads(ids, Wrapped(free), |ids|, k, m[k]);
    var j :| 0 <= j < |ids| && ids[j] == k && m[k] == Wrapped(free)[j];
  }

  lemma OutcomeIs<T(!new), H>(whash: T -> H, shortId: H -> nat, m: map<nat, nat>, known: seq<Known<T, H>>,
                    placed: seq<Option<T>>, slots: seq<Option<T>>,
                              have: seq<bool>, n: nat, a: nat, b: nat, start: seq<Seen<T>>, seen: seq<Seen<T>>,
                                seen2: seq<Seen<T>>)
    requires a <= n <= b <= |known| && (forall s | s in start :: s == Unseen) && Reflects(placed, slots, have, seen2)
    requires forall k | k in m :: m[k] < |placed|
    requires Judged(whash, shortId, m, known, 0, a, false, start, seen) &&
             Judged(whash, shortId, m, known, n, b, true, seen, seen2)
    requires (a < n ==> |HeldSet(seen)| == |m|) && (b < |known| ==> |HeldSet(seen2)| == |m|)
    ensures Outcome(whash, shortId, m, known, placed, slots, n, a, b)
    ensures HeldSet(seen2) == set p: nat | p < |slots| && Verdict(whash, shortId, m, known, p, n, a, b).Held?
  {
    hide Judge, HeldSet;
    forall p: nat | p < |seen|
      ensures seen[p] == Judge(whash, shortId, m, known, p, 0, a, false, Unseen)
      ensures seen2[p] == Verdict(whash, shortId, m, known, p, n, a, b)
      ensures Shows(placed, slots, have, p, seen2[p])
      ensures p !in m.Values ==> seen[p] == Unseen && seen2[p] == Unseen
    {
      assert start[p] in start;
      if p !in m.Values {
        Untargeted(whash, shortId, m, known, p, 0, a, false, Unseen);
        Untargeted(whash, shortId, m, known, p, n, b, true, Unseen);
      }
    }
    if a < n {
      FullCount(m, seen);
    }
    if b < |known| {
      FullCount(m, seen2);
    }
    HeldIs(seen2);
  }

  lemma ReadyMade<T(!new), H>(isNull: T -> bool, whash: T -> H, shortId: H -> nat, msg: Message<T>,
                    pool: seq<Known<T, H>>, extra: seq<Known<T, H>>,
                              m: map<nat, nat>, crowded: nat -> bool, slots: seq<Option<T>>, count: nat, a: nat,
                                b: nat, seen: seq<Seen<T>>)
    requires Acceptable(isNull, msg) && Mappable(msg.shortIds, crowded)
    requires var placed := Placed(isNull, msg, |msg.prefilled|);
             && |msg.shortIds| == |Free(placed)| && IdMap(msg.shortIds, Wrapped(Free(placed)), m)
             && Outcome(whash, shortId, m, pool + extra, placed, slots, |pool|, a, b)
             && HeldSet(seen) == set p: nat | p < |slots| &&
                Verdict(whash, shortId, m, pool + extra, p, |pool|, a, b).Held?
    requires count == |HeldSet(seen)|
    ensures Ready(isNull, whash, shortId, msg, pool, extra, m, slots, count, a, b)
  {
  }

  lemma HeldIs<T>(seen: seq<Seen<T>>)
    ensures HeldSet(seen) == set p: nat | p < |seen| && seen[p].Held?
  {
  }

  lemma FillStarts<T>(slots: seq<Option<T>>, missing: seq<T>)
    ensures |Free(slots[..0])| == 0 && FilledIn(slots[..0], missing[..0]) == []
  {
  }

  lemma FillNext<T>(slots: seq<Option<T>>, i: nat, missing: seq<T>, offset: nat)
    requires i < |slots| && offset == |Free(slots[..i])| <= |missing|
    ensures |Free(slots[..i + 1])| == offset + if slots[i].None? then 1 else 0
    ensures slots[i].Some? ==>
              FilledIn(slots[..i + 1], missing[..offset]) == FilledIn(slots[..i], missing[..offset]) + [slots[i].value]
    ensures slots[i].None? && offset < |missing| ==>
              FilledIn(slots[..i + 1], missing[..offset + 1]) == FilledIn(slots[..i],
                missing[..offset]) + [missing[offset]]
  {
    assert slots[..i + 1][..i] == slots[..i];
    if slots[i].None? && offset < |missing| {
      assert missing[..offset + 1][..offset] == missing[..offset];
    }
  }

  /** Longer prefixes have no fewer free slots. */
  lemma {:induction false} FreePrefix<T>(slots: seq<Option<T>>, i: nat)
    requires i <= |slots|
    ensures |Free(slots[..i])| <= |Free(slots)|
    decreases |slots|
  {
    if i == |slots| {
      assert slots[..i] == slots;
    } else {
      FreePrefix(slots[..|slots| - 1], i);
      assert slots[..|slots| - 1][..i] == slots[..i];
    }
  }

  lemma PrefilledIs<T>(isNull: T -> bool, msg: Message<T>, i: nat)
    requires i < |msg.prefilled| && InBounds(isNull, msg, i)
    ensures PrefilledOk(isNull, msg, i) <==>
      !isNull(msg.prefilled[i].tx) && Pos(msg.prefilled, i) <= 0xFFFF && Pos(msg.prefilled, i) <= |msg.shortIds| + i
    ensures InBounds(isNull, msg, i + 1) <==> PrefilledOk(isNull, msg, i)
  {
  }

  lemma NothingMapped(ids: seq<nat>, free: seq<nat>)
    requires |ids| == |free|
    ensures Mapped(ids, free, 0, map[])
  {
  }

  // ---- from the sender's block to the receiver's ----

  /** The sender's message leaves every slot but the first free. */
  lemma CoinbasePlaced<T(!new), H>(isNull: T -> bool, whash: T -> H, shortId: H -> nat, vtx: seq<T>)
    requires vtx != [] && !isNull(vtx[0])
    ensures var msg := Compact(whash, shortId, vtx);
            && InBounds(isNull, msg, 1) && Count(msg) == |vtx| && !Endless(msg)
            && Placed(isNull, msg, 1)[0] == Some(vtx[0]) && forall p | 0 < p < |vtx| ::
                 Placed(isNull, msg, 1)[p] == None
  {
    var msg := Compact(whash, shortId, vtx);
    assert PrefilledOk(isNull, msg, 0);
  }

  /** The transaction at slot `p` is not the coinbase, and is known. */
  ghost predicate FoundAt<T, H>(whash: T -> H, shortId: H -> nat, known: seq<Known<T, H>>, vtx: seq<T>, p: nat) {
    0 < p < |vtx| && Knows(shortId, known, IdOf(whash, shortId, vtx, p))
  }

  /** For each known transaction past slot 2^16 the one 2^16 slots before it is known too, or is the same. */
  ghost predicate Survives<T, H>(whash: T -> H, shortId: H -> nat, known: seq<Known<T, H>>, vtx: seq<T>) {
    forall q: nat | 0x1_0000 <= q < |vtx| && FoundAt(whash, shortId, known, vtx, q) ::
      FoundAt(whash, shortId, known, vtx, q - 0x1_0000) || vtx[q] == vtx[q - 0x1_0000]
  }

  /** A slot past 2^16, or one of which neither its own transaction nor the one 2^16 slots on is known, or both are. */
  ghost predicate Wanted<T, H>(whash: T -> H, shortId: H -> nat, known: seq<Known<T, H>>, vtx: seq<T>, p: nat) {
    0 < p < |vtx| && (p >= 0x1_0000 || (FoundAt(whash, shortId, known, vtx, p) <==>
      FoundAt(whash, shortId, known, vtx, p + 0x1_0000)))
  }

  lemma FoundIs<T(!new), H>(isNull: T -> bool, whash: T -> H, shortId: H -> nat, known: seq<Known<T, H>>, vtx: seq<T>,
                  p: nat)
    requires vtx != [] && !isNull(vtx[0])
    ensures InBounds(isNull, Compact(whash, shortId, vtx), 1)
    ensures Found(whash, shortId, known, Placed(isNull, Compact(whash, shortId, vtx), 1), vtx, p) <==>
              FoundAt(whash, shortId, known, vtx, p)
  {
    hide Placed, InBounds, Knows;
    CoinbasePlaced(isNull, whash, shortId, vtx);
  }

  /**
   * A block sent in compact form. The receiver can use the message exactly when the block is not too large and the
   * short ids can be mapped. Suppose that it knows no other transaction with the short id of one in the block. Up to
   * 2^16 transactions, those it lacks complete the block as it was sent. Beyond that, with a pool that has no two
   * transactions with one short id, they do so exactly if for each known transaction past slot 2^16 the one 2^16 slots
   * before it is known too (or is the same), and it asks exactly for the slots of which neither or both are known.
   */
  method Relay<T(==, !new), H(==)>(isNull: T -> bool, whash: T -> H, shortId: H -> nat, crowded: nat -> bool,
                 vtx: seq<T>,
                                   pool: seq<Known<T, H>>, extra: seq<Known<T, H>>, check: seq<T> -> Check)
    returns (usable: Status, asked: seq<nat>, status: Status, rebuilt: seq<T>)
    requires vtx != [] && !isNull(vtx[0]) && NoConfusion(pool + extra, whash, shortId, vtx)
    ensures usable == if |vtx| > MAX_COUNT then Invalid
                      else if Mappable(Compact(whash, shortId, vtx).shortIds, crowded) then Ok else Failed
    ensures usable == Ok ==> (status == Ok <==> check(rebuilt) == Passes)
    ensures usable == Ok && |vtx| <= 0x1_0000 ==> rebuilt == vtx
    ensures usable == Ok && PoolApart(shortId, pool) ==>
              (rebuilt == vtx <==> Survives(whash, shortId, pool + extra, vtx))
    ensures usable == Ok && PoolApart(shortId, pool) ==>
              forall p: nat :: p in asked <==> Wanted(whash, shortId, pool + extra, vtx, p)
  {
    hide Describes, Ready, NoConfusion, FilledIn, Free, MissingOf, Mappable, PoolApart, Placed, InBounds, Survives,
         Wanted;
    var msg := MakeCompact(whash, shortId, vtx);
    CompactDescribes(isNull, whash, shortId, vtx);
    CoinbasePlaced(isNull, whash, shortId, vtx);
    var block := new PartialBlock(isNull, whash, shortId);
    var ended;
    ghost var m, a, b;
    ended, usable, m, a, b := block.InitData(msg, pool, extra, crowded);
    asked, status, rebuilt := [], usable, [];
    if usable == Ok {
      ghost var slots, count := block.available, block.mempoolCount;
      ReadyParts(isNull, whash, shortId, msg, pool, extra, m, slots, count, a, b);
      if |vtx| <= 0x1_0000 {
        RebuildsSmall(isNull, whash, shortId, msg, vtx, pool, extra, m, slots, count, a, b);
      }
      if PoolApart(shortId, pool) {
        RebuildsExactly(isNull, whash, shortId, msg, vtx, pool, extra, m, slots, count, a, b);
        SenderExactly(isNull, whash, shortId, vtx, pool + extra);
        AskedIs(isNull, whash, shortId, vtx, pool, extra, m, slots, count, a, b);
      }
      asked := Free(block.available);
      var missing := MissingOf(block.available, vtx);
      status, rebuilt := block.FillBlock(missing, check);
    }
  }

  lemma SenderExactly<T(!new), H>(isNull: T -> bool, whash: T -> H, shortId: H -> nat, vtx: seq<T>,
                        known: seq<Known<T, H>>)
    requires vtx != [] && !isNull(vtx[0])
    ensures InBounds(isNull, Compact(whash, shortId, vtx), 1)
    ensures NoneMisplaced(whash, shortId, known, Placed(isNull, Compact(whash, shortId, vtx), 1), vtx) <==>
              Survives(whash, shortId, known, vtx)
  {
    hide Placed, InBounds, FoundAt, Found;
    CoinbasePlaced(isNull, whash, shortId, vtx);
    forall q: nat
      ensures Found(whash, shortId, known, Placed(isNull, Compact(whash, shortId, vtx), 1), vtx, q) <==>
                FoundAt(whash, shortId, known, vtx, q)
    {
      FoundIs(isNull, whash, shortId, known, vtx, q);
    }
  }

  lemma AskedIs<T(!new), H>(isNull: T -> bool, whash: T -> H, shortId: H -> nat, vtx: seq<T>, pool: seq<Known<T, H>>,
                  extra: seq<Known<T, H>>,
                            m: map<nat, nat>, slots: seq<Option<T>>, count: nat, a: nat, b: nat)
    requires vtx != [] && !isNull(vtx[0]) && NoConfusion(pool + extra, whash, shortId, vtx) && PoolApart(shortId, pool)
    requires Ready(isNull, whash, shortId, Compact(whash, shortId, vtx), pool, extra, m, slots, count, a, b)
    ensures forall p: nat :: p in Free(slots) <==> Wanted(whash, shortId, pool + extra, vtx, p)
  {
    hide Free, Placed, InBounds, Ready, Found, FoundAt, NoConfusion, PoolApart, Describes;
    var msg, known := Compact(whash, shortId, vtx), pool + extra;
    CompactDescribes(isNull, whash, shortId, vtx);
    CoinbasePlaced(isNull, whash, shortId, vtx);
    ReadyParts(isNull, whash, shortId, msg, pool, extra, m, slots, count, a, b);
    FreeMembers(slots);
    NoCoinbase(whash, shortId, known, vtx);
    forall p: nat ensures p in Free(slots) <==> Wanted(whash, shortId, known, vtx, p)
    {
      if p < |slots| {
        SlotHolds(isNull, whash, shortId, msg, vtx, pool, extra, m, slots, count, a, b, p);
        FoundIs(isNull, whash, shortId, known, vtx, p);
        FoundIs(isNull, whash, shortId, known, vtx, p + 0x1_0000);
      }
    }
  }

  lemma FreeMembers<T>(slots: seq<Option<T>>)
    ensures forall p: nat :: p in Free(slots) <==> p < |slots| && slots[p].None?
  {
    hide Free;
    FreeIs(slots);
  }

  lemma NoCoinbase<T, H>(whash: T -> H, shortId: H -> nat, known: seq<Known<T, H>>, vtx: seq<T>)
    ensures !FoundAt(whash, shortId, known, vtx, 0)
  {
  }

  // ---- requested indexes ----

  predicate Ascending(xs: seq<nat>) {
    forall i, j | 0 <= i < j < |xs| :: xs[i] < xs[j]
  }

  predicate Narrow(xs: seq<nat>) {
    forall i | 0 <= i < |xs| :: xs[i] <= 0xFFFF
  }

  /** The distance to the index before, as the unsigned 64-bit number that is written. */
  function Delta(xs: seq<nat>, i: nat): nat
    requires i < |xs|
  {
    var d: int := xs[i] as int - (if i == 0 then 0 else xs[i - 1] + 1);
    d % 0x1_0000_0000_0000_0000
  }

  method WriteIndexes(xs: seq<nat>) returns (raw: seq<nat>)
    requires Narrow(xs)
    ensures raw == Deltas(xs)
  {
    raw := [];
    for i := 0 to |xs|
      invariant raw == Deltas(xs)[..i]
    {
      raw := raw + [Delta(xs, i)];
    }
  }

  function Deltas(xs: seq<nat>): seq<nat> {
    seq(|xs|, i requires 0 <= i < |xs| => Delta(xs, i))
  }

  /** The running sum with its 16-bit offset; nothing when a number or a sum does not fit 16 bits. */
  function Sums(raw: seq<nat>): (r: Option<seq<nat>>)
    ensures r.Some? ==> |r.value| == |raw|
  {
    if raw == [] then Some([])
    else
      var n := |raw| - 1;
      match Sums(raw[..n])
      case None => None
      case Some(xs) =>
        var offset := if n == 0 then 0 else (xs[|xs| - 1] + 1) % 0x1_0000;
        if raw[n] > 0xFFFF || raw[n] + offset > 0xFFFF then None else Some(xs + [raw[n] + offset])
  }

  method ReadIndexes(raw: seq<nat>) returns (r: Option<seq<nat>>)
    ensures r == Sums(raw)
  {
    for i := 0 to |raw|
      invariant forall j | 0 <= j < i :: raw[j] <= 0xFFFF
    {
      if raw[i] > 0xFFFF {
        TooWide(raw, i);
        return None;
      }
    }
    r := AddUp(raw);
  }

  /** The running sum, in place. */
  method AddUp(raw: seq<nat>) returns (r: Option<seq<nat>>)
    requires Narrow(raw)
    ensures r == Sums(raw)
  {
    hide Sums;
    var xs, offset := raw, 0;
    SumsNone(raw);
    for j := 0 to |xs|
      invariant |xs| == |raw| && xs[j..] == raw[j..]
      invariant Sums(raw[..j]) == Some(xs[..j])
      invariant offset == if j == 0 then 0 else (xs[j - 1] + 1) % 0x1_0000
    {
      assert xs[j] == xs[j..][0] == raw[j..][0] == raw[j];
      SumsNext(raw, j, xs[..j], offset);
      if xs[j] + offset > 0xFFFF {
        NoneStays(raw, j + 1);
        return None;
      }
      ghost var done := xs[..j];
      xs := xs[j := xs[j] + offset];
      assert xs[..j + 1] == done + [xs[j]];
      offset := (xs[j] + 1) % 0x1_0000;
    }
    assert raw[..|raw|] == raw && xs[..|xs|] == xs;
    r := Some(xs);
  }

  lemma SumsNone(raw: seq<nat>)
    ensures Sums(raw[..0]) == Some([])
  {
  }

  lemma SumsNext(raw: seq<nat>, j: nat, xs: seq<nat>, offset: nat)
    requires j < |raw| && raw[j] <= 0xFFFF && Sums(raw[..j]) == Some(xs) && |xs| == j
    requires offset == if j == 0 then 0 else (xs[j - 1] + 1) % 0x1_0000
    ensures Sums(raw[..j + 1]) == if raw[j] + offset > 0xFFFF then None else Some(xs + [raw[j] + offset])
  {
    assert raw[..j + 1][..j] == raw[..j];
  }

  lemma {:induction false} NoneStays(raw: seq<nat>, i: nat)
    requires i <= |raw| && Sums(raw[..i]) == None
    ensures Sums(raw) == None
    decreases |raw|
  {
    if i == |raw| {
      assert raw[..i] == raw;
    } else {
      assert raw[..|raw| - 1][..i] == raw[..i];
      NoneStays(raw[..|raw| - 1], i);
    }
  }

  lemma TooWide(raw: seq<nat>, i: nat)
    requires i < |raw| && raw[i] > 0xFFFF
    ensures Sums(raw) == None
  {
    assert raw[..i + 1][..i] == raw[..i];
    assert Sums(raw[..i + 1]) == None;
    NoneStays(raw, i + 1);
  }

  /** Indexes survive the trip exactly when they are strictly increasing; any other list is refused by the reader. */
  lemma {:induction false} IndexesRoundTrip(xs: seq<nat>)
    requires Narrow(xs)
    ensures Sums(Deltas(xs)) == if Ascending(xs) then Some(xs) else None
    decreases |xs|
  {
    hide Ascending, Delta;
    if xs == [] {
      NoneAscend();
    } else {
      var n := |xs| - 1;
      IndexesRoundTrip(xs[..n]);
      DeltasPrefix(xs, n);
      assert xs == xs[..n] + [xs[n]];
      AscendingLast(xs);
      DeltaIs(xs, n);
    }
  }

  lemma NoneAscend()
    ensures Ascending([])
  {
  }

  lemma DeltasPrefix(xs: seq<nat>, n: nat)
    requires n < |xs|
    ensures Deltas(xs)[..n] == Deltas(xs[..n]) && Deltas(xs)[n] == Delta(xs, n)
  {
  }

  lemma AscendingLast(xs: seq<nat>)
    requires xs != []
    ensures var n := |xs| - 1; Ascending(xs) <==> Ascending(xs[..n]) && (n > 0 ==> xs[n - 1] < xs[n])
  {
    var n := |xs| - 1;
    var init := xs[..n];
    assert forall i | 0 <= i < n :: init[i] == xs[i];
    if Ascending(init) && (n > 0 ==> xs[n - 1] < xs[n]) {
      forall i, j | 0 <= i < j < |xs| ensures xs[i] < xs[j]
      {
        if j == n && i < n - 1 {
          assert init[i] < init[n - 1];
        } else if j < n {
          assert init[i] < init[j];
        }
      }
    }
    if Ascending(xs) {
      assert Ascending(init);
    }
  }

  lemma DeltaIs(xs: seq<nat>, i: nat)
    requires i < |xs| && Narrow(xs)
    ensures i == 0 ==> Delta(xs, i) == xs[i]
    ensures i > 0 && xs[i - 1] < xs[i] ==> Delta(xs, i) == xs[i] - xs[i - 1] - 1
    ensures i > 0 && xs[i - 1] >= xs[i] ==> Delta(xs, i) > 0xFFFF
  {
  }
}
