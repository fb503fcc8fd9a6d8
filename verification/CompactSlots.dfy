/** The slots of a compact block: where prefilled transactions go and which short id stands for which free slot. */
module CompactSlots {
  import opened Collections

  datatype Prefilled<T> = Prefilled(index: nat, tx: T)
  datatype Message<T> = Message(nullHeader: bool, shortIds: seq<nat>, prefilled: seq<Prefilled<T>>)

  const MAX_COUNT := 4000000 / (4 * 10)

  function Count<T>(msg: Message<T>): nat {
    |msg.shortIds| + |msg.prefilled|
  }

  /** The slot of a prefilled transaction: its index counts from the one before. */
  function Pos<T>(pre: seq<Prefilled<T>>, i: nat): nat
    requires i < |pre|
  {
    if i == 0 then pre[0].index else Pos(pre, i - 1) + pre[i].index + 1
  }

  lemma {:induction false} PosAscends<T>(pre: seq<Prefilled<T>>, i: nat, j: nat)
    requires i < j < |pre|
    ensures Pos(pre, i) < Pos(pre, j)
    decreases j
  {
    if i < j - 1 {
      PosAscends(pre, i, j - 1);
    }
  }

  /** The first `k` prefilled transactions are real and inside the block. */
  predicate InBounds<T>(isNull: T -> bool, msg: Message<T>, k: nat)
    requires k <= |msg.prefilled|
  {
    forall i: nat | i < k :: PrefilledOk(isNull, msg, i)
  }

  predicate PrefilledOk<T>(isNull: T -> bool, msg: Message<T>, i: nat)
    requires i < |msg.prefilled|
  {
    !isNull(msg.prefilled[i].tx) && Pos(msg.prefilled, i) <= 0xFFFF && Pos(msg.prefilled, i) <= |msg.shortIds| + i
  }

  function Empty<T>(n: nat): (r: seq<Option<T>>)
    ensures |r| == n && forall p | 0 <= p < n :: r[p] == None
  {
    seq(n, i => None)
  }

  /** The slots after the first `k` prefilled transactions. */
  function Placed<T>(isNull: T -> bool, msg: Message<T>, k: nat): (r: seq<Option<T>>)
    requires k <= |msg.prefilled| && InBounds(isNull, msg, k)
    ensures |r| == Count(msg)
  {
    if k == 0 then Empty(Count(msg))
    else
      assert PrefilledOk(isNull, msg, k - 1);
      Placed(isNull, msg, k - 1)[Pos(msg.prefilled, k - 1) := Some(msg.prefilled[k - 1].tx)]
  }

  /** Every prefilled transaction has its own slot, and every other slot is free. */
  lemma {:induction false} PlacedIs<T>(isNull: T -> bool, msg: Message<T>, k: nat)
    requires k <= |msg.prefilled| && InBounds(isNull, msg, k)
    ensures forall i: nat | i < k :: PlacedAt(isNull, msg, k, i)
    ensures |Free(Placed(isNull, msg, k))| == Count(msg) - k
  {
    hide Free;
    if k == 0 {
      FreeOfEmpty(Empty<T>(Count(msg)));
    } else {
      PlacedIs(isNull, msg, k - 1);
      var before, p := Placed(isNull, msg, k - 1), Pos(msg.prefilled, k - 1);
      assert PrefilledOk(isNull, msg, k - 1);
      NotYetPlaced(isNull, msg, k - 1, p);
      FreeTakes(before, p, msg.prefilled[k - 1].tx);
      forall i: nat | i < k ensures PlacedAt(isNull, msg, k, i)
      {
        if i < k - 1 {
          assert PlacedAt(isNull, msg, k - 1, i);
          PosAscends(msg.prefilled, i, k - 1);
        }
      }
    }
  }

  ghost predicate PlacedAt<T>(isNull: T -> bool, msg: Message<T>, k: nat, i: nat)
    requires k <= |msg.prefilled| && InBounds(isNull, msg, k) && i < k
  {
    Pos(msg.prefilled, i) < Count(msg) && Placed(isNull, msg, k)[Pos(msg.prefilled, i)] == Some(msg.prefilled[i].tx)
  }

  /** A slot past the last prefilled one is free. */
  lemma {:induction false} NotYetPlaced<T>(isNull: T -> bool, msg: Message<T>, k: nat, p: nat)
    requires k <= |msg.prefilled| && InBounds(isNull, msg, k) && p < Count(msg)
    requires k > 0 ==> Pos(msg.prefilled, k - 1) < p
    ensures Placed(isNull, msg, k)[p] == None
  {
    if k > 1 {
      PosAscends(msg.prefilled, k - 2, k - 1);
    }
    if k > 0 {
      NotYetPlaced(isNull, msg, k - 1, p);
    }
  }

  // ---- the free slots in order ----

  function Free<T>(slots: seq<Option<T>>): seq<nat> {
    if slots == [] then []
    else Free(slots[..|slots| - 1]) + if slots[|slots| - 1].None? then [|slots| - 1] else []
  }

  /** Exactly the empty positions, ascending. */
  lemma {:induction false} FreeIs<T>(slots: seq<Option<T>>)
    ensures |Free(slots)| <= |slots|
    ensures forall i | 0 <= i < |Free(slots)| :: Free(slots)[i] < |slots| && slots[Free(slots)[i]] == None
    ensures forall i, j | 0 <= i < j < |Free(slots)| :: Free(slots)[i] < Free(slots)[j]
    ensures forall p | 0 <= p < |slots| && slots[p].None? :: p in Free(slots)
  {
    if slots != [] {
      var n := |slots| - 1;
      FreeIs(slots[..n]);
    }
  }

  lemma {:induction false} FreeOfEmpty<T>(slots: seq<Option<T>>)
    requires forall p | 0 <= p < |slots| :: slots[p] == None
    ensures |Free(slots)| == |slots|
  {
    if slots != [] {
      FreeOfEmpty(slots[..|slots| - 1]);
    }
  }

  lemma {:induction false} FreeTakes<T>(slots: seq<Option<T>>, p: nat, tx: T)
    requires p < |slots| && slots[p] == None
    ensures |Free(slots[p := Some(tx)])| == |Free(slots)| - 1
    decreases |slots|
  {
    var n, after := |slots| - 1, slots[p := Some(tx)];
    if p == n {
      assert after[..n] == slots[..n];
    } else {
      assert after[..n] == slots[..n][p := Some(tx)];
      FreeTakes(slots[..n], p, tx);
    }
  }

  /** Skipping occupied slots from just after one free slot leads to the next one. */
  lemma NextFree<T>(slots: seq<Option<T>>, i: nat, from: nat, p: nat)
    requires i < |Free(slots)| && (i == 0 ==> from == 0) && (i > 0 ==> from == Free(slots)[i - 1] + 1)
    requires from <= p && (forall q | from <= q < p && q < |slots| :: slots[q].Some?)
    ensures p <= Free(slots)[i] < |slots| && (p < |slots| && slots[p].None? ==> p == Free(slots)[i])
  {
    FreeIs(slots);
    var f := Free(slots);
    if p < |slots| && slots[p].None? {
      assert p in f;
      var j :| 0 <= j < |f| && f[j] == p;
    }
  }

  /** One of the first `k` prefilled transactions has slot `p`. */
  ghost predicate Prefills<T>(pre: seq<Prefilled<T>>, k: nat, p: nat)
    requires k <= |pre|
  {
    exists i: nat :: i < k && Pos(pre, i) == p
  }

  /** Only prefilled transactions occupy slots. */
  lemma {:induction false} PlacedOnly<T>(isNull: T -> bool, msg: Message<T>, k: nat, p: nat)
    requires k <= |msg.prefilled| && InBounds(isNull, msg, k) && p < Count(msg) && Placed(isNull, msg, k)[p].Some?
    ensures Prefills(msg.prefilled, k, p)
  {
    if k > 0 && Pos(msg.prefilled, k - 1) != p {
      PlacedOnly(isNull, msg, k - 1, p);
      var i: nat :| i < k - 1 && Pos(msg.prefilled, i) == p;
      assert i < k && Pos(msg.prefilled, i) == p;
    }
  }

  /**
   * The slots of an acceptable message: each prefilled transaction and each short id has one of its own, all of them
   * inside the block, and between them they take every slot.
   */
  lemma SlotsPartitioned<T>(isNull: T -> bool, msg: Message<T>)
    requires InBounds(isNull, msg, |msg.prefilled|)
    ensures var free := Free(Placed(isNull, msg, |msg.prefilled|));
            && |free| == |msg.shortIds|
            && (forall i: nat | i < |msg.prefilled| ::
                 Pos(msg.prefilled, i) < Count(msg) && Pos(msg.prefilled, i) !in free)
            && (forall j: nat | j < |free| :: free[j] < Count(msg))
            && (forall i: nat, j: nat | i < j < |free| :: free[i] < free[j])
            && (forall p: nat | p < Count(msg) :: p in free || Prefills(msg.prefilled, |msg.prefilled|, p))
  {
    var k := |msg.prefilled|;
    var placed := Placed(isNull, msg, k);
    PlacedIs(isNull, msg, k);
    FreeIs(placed);
    forall i: nat | i < k ensures Pos(msg.prefilled, i) < Count(msg) && Pos(msg.prefilled, i) !in Free(placed)
    {
      assert PlacedAt(isNull, msg, k, i);
    }
    forall p: nat | p < Count(msg) ensures p in Free(placed) || Prefills(msg.prefilled, k, p)
    {
      if placed[p].Some? {
        PlacedOnly(isNull, msg, k, p);
      }
    }
  }
}
