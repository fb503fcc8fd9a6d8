/** The cuckoo cache's table as a value: slots that are live or may be collected, recent or old. */
module CuckooTable {

  /** `collected` is the slot's garbage flag, `recent` its epoch flag. */
  datatype Slot<E> = Slot(element: E, collected: bool, recent: bool) {
    predicate Live() { !collected }
  }

  // ---- counting slots ----

  function LiveRecent<E>(s: Slot<E>): nat { if s.Live() && s.recent then 1 else 0 }
  function LiveOld<E>(s: Slot<E>): nat { if s.Live() && !s.recent then 1 else 0 }

  function Count<E>(f: Slot<E> -> nat, slots: seq<Slot<E>>): nat {
    if slots == [] then 0 else f(slots[0]) + Count(f, slots[1..])
  }

  lemma {:induction false} CountUpdate<E>(f: Slot<E> -> nat, slots: seq<Slot<E>>, i: nat, s: Slot<E>)
    requires i < |slots|
    ensures Count(f, slots[i := s]) + f(slots[i]) == Count(f, slots) + f(s)
  {
    if i == 0 {
      assert slots[i := s][1..] == slots[1..];
    } else {
      assert slots[i := s][1..] == slots[1..][i - 1 := s];
      CountUpdate(f, slots[1..], i - 1, s);
    }
  }

  function Recent<E>(slots: seq<Slot<E>>): nat { Count((s: Slot<E>) => LiveRecent(s), slots) }
  function Old<E>(slots: seq<Slot<E>>): nat { Count((s: Slot<E>) => LiveOld(s), slots) }

  lemma RecentUpdate<E>(slots: seq<Slot<E>>, i: nat, s: Slot<E>)
    requires i < |slots|
    ensures Recent(slots[i := s]) == Recent(slots) - LiveRecent(slots[i]) + LiveRecent(s)
    ensures Old(slots[i := s]) == Old(slots) - LiveOld(slots[i]) + LiveOld(s)
  {
    CountUpdate((s: Slot<E>) => LiveRecent(s), slots, i, s);
    CountUpdate((s: Slot<E>) => LiveOld(s), slots, i, s);
  }

  /** The live elements, with multiplicity. */
  function LiveBag<E>(slots: seq<Slot<E>>): multiset<E> {
    if slots == [] then multiset{} else LiveOf(slots[0]) + LiveBag(slots[1..])
  }

  function LiveOf<E>(s: Slot<E>): multiset<E> {
    if s.Live() then multiset{s.element} else multiset{}
  }

  lemma WithHead<E>(head: multiset<E>, a: multiset<E>, b: multiset<E>, c: multiset<E>, d: multiset<E>)
    requires a + b == c + d
    ensures (head + a) + b == (head + c) + d
  {
    assert (head + a) + b == head + (a + b);
    assert (head + c) + d == head + (c + d);
  }

  lemma {:induction false} LiveBagUpdate<E>(slots: seq<Slot<E>>, i: nat, s: Slot<E>)
    requires i < |slots|
    ensures LiveBag(slots[i := s]) + LiveOf(slots[i]) == LiveBag(slots) + LiveOf(s)
  {
    if i == 0 {
      assert slots[i := s][1..] == slots[1..];
    } else {
      assert slots[i := s][1..] == slots[1..][i - 1 := s];
      LiveBagUpdate(slots[1..], i - 1, s);
      hide LiveOf;
      WithHead(LiveOf(slots[0]), LiveBag(slots[i := s][1..]), LiveOf(slots[i]), LiveBag(slots[1..]), LiveOf(s));
    }
  }

  lemma {:induction false} LiveBagSize<E>(slots: seq<Slot<E>>)
    ensures |LiveBag(slots)| == Recent(slots) + Old(slots)
  {
    if slots != [] {
      LiveBagSize(slots[1..]);
    }
  }

  // ---- what the cache keeps true ----

  /** The eight places an element may be in; hashes are taken as fractions of 2^32. */
  datatype Hasher<!E> = Hasher(hash: (nat, E) -> nat, size: nat) {
    function Loc(e: E, i: nat): (loc: nat)
      requires size > 0
      ensures loc < size
    {
      var h := hash(i, e) % 0x1_0000_0000;
      ScaledDown(h, size);
      h * size / 0x1_0000_0000
    }

    ghost predicate MayBeAt(e: E, loc: nat)
      requires size > 0
    {
      exists i: nat :: i < 8 && Loc(e, i) == loc
    }
  }

  lemma ScaledDown(h: nat, size: nat)
    requires h < 0x1_0000_0000 && size > 0
    ensures h * size / 0x1_0000_0000 < size
  {
    assert h * size <= (0x1_0000_0000 - 1) * size;
  }

  /** `loc` is a place of `e`, and no place of `e` before it holds `e`. */
  ghost predicate NoneEarlier<E>(h: Hasher<E>, slots: seq<Slot<E>>, e: E, loc: nat)
    requires h.size > 0 && |slots| == h.size
  {
    exists i: nat :: i < 8 && h.Loc(e, i) == loc && forall j: nat | j < i :: slots[h.Loc(e, j)].element != e
  }

  /** Every written slot, live or not, holds an element at one of its own places, and an element
      is in one slot only. Slots never written hold `zero`; of those a live one is the first. */
  ghost predicate Placed<E>(h: Hasher<E>, zero: E, slots: seq<Slot<E>>) {
    && h.size > 0 && |slots| == h.size
    && (forall i | 0 <= i < |slots| && (slots[i].Live() || slots[i].element != zero) :: h.MayBeAt(slots[i].element, i))
    && (forall i, j | 0 <= i < j < |slots| && slots[i].element == slots[j].element :: slots[i].element == zero)
    && (forall i | 0 <= i < |slots| && slots[i].Live() && slots[i].element == zero :: NoneEarlier(h, slots, zero, i))
  }

  /** The element in hand is nowhere in the table, or is `zero` and not live anywhere. */
  ghost predicate Absent<E>(zero: E, slots: seq<Slot<E>>, e: E) {
    forall i | 0 <= i < |slots| && slots[i].element == e :: e == zero && slots[i].collected
  }

  /** There is one first place that holds an element. */
  lemma FirstIsOne<E>(h: Hasher<E>, slots: seq<Slot<E>>, e: E, a: nat, b: nat)
    requires h.size > 0 && |slots| == h.size && a < |slots| && b < |slots|
    requires slots[a].element == e == slots[b].element && NoneEarlier(h, slots, e, a) && NoneEarlier(h, slots, e, b)
    ensures a == b
  {
    var i: nat :| i < 8 && h.Loc(e, i) == a && forall j: nat | j < i :: slots[h.Loc(e, j)].element != e;
    var k: nat :| k < 8 && h.Loc(e, k) == b && forall j: nat | j < k :: slots[h.Loc(e, j)].element != e;
  }

  /** No two live slots hold the same element. */
  lemma LiveOnce<E>(h: Hasher<E>, zero: E, slots: seq<Slot<E>>, i: nat, j: nat)
    requires Placed(h, zero, slots) && i < j < |slots| && slots[i].Live() && slots[j].Live()
    ensures slots[i].element != slots[j].element
  {
    hide Hasher.MayBeAt, NoneEarlier;
    if slots[i].element == slots[j].element {
      FirstIsOne(h, slots, zero, i, j);
    }
  }

  /** Writing other slots does not bring `e` to an earlier place. */
  lemma NoneEarlierKept<E>(h: Hasher<E>, slots: seq<Slot<E>>, e: E, p: nat, loc: nat, s: Slot<E>)
    requires h.size > 0 && |slots| == h.size && loc < |slots| && NoneEarlier(h, slots, e, p)
    requires s.element != e || slots[loc].element == e || p == loc
    ensures NoneEarlier(h, slots[loc := s], e, p)
  {
    // the earliest index that leads to p
    var i := FirstIndex(h, slots, e, p);
    forall j: nat | j < i ensures slots[loc := s][h.Loc(e, j)].element != e
    {
      assert slots[h.Loc(e, j)].element != e && h.Loc(e, j) != p;
    }
  }

  lemma FirstIndex<E>(h: Hasher<E>, slots: seq<Slot<E>>, e: E, p: nat) returns (i: nat)
    requires h.size > 0 && |slots| == h.size && NoneEarlier(h, slots, e, p)
    ensures i < 8 && h.Loc(e, i) == p && forall j: nat | j < i :: slots[h.Loc(e, j)].element != e && h.Loc(e, j) != p
  {
    var k: nat :| k < 8 && h.Loc(e, k) == p && forall j: nat | j < k :: slots[h.Loc(e, j)].element != e;
    i := 0;
    while h.Loc(e, i) != p
      invariant i <= k && forall j: nat | j < i :: h.Loc(e, j) != p
      decreases k - i
    {
      i := i + 1;
    }
  }

  /** Writing an element to one of its places: the one it is in, or one if it is absent. */
  lemma PutKeepsPlaced<E>(h: Hasher<E>, zero: E, slots: seq<Slot<E>>, loc: nat, s: Slot<E>)
    requires Placed(h, zero, slots) && loc < |slots| && h.MayBeAt(s.element, loc)
    requires s.element == slots[loc].element || Absent(zero, slots, s.element)
    requires s.Live() && s.element == zero ==> NoneEarlier(h, slots, zero, loc)
    ensures Placed(h, zero, slots[loc := s])
    ensures slots[loc].Live() && slots[loc].element != s.element ==> Absent(zero, slots[loc := s], slots[loc].element)
  {
    hide Hasher.MayBeAt, NoneEarlier;
    var after := slots[loc := s];
    forall i | 0 <= i < |after| && after[i].Live() && after[i].element == zero ensures NoneEarlier(h, after, zero, i)
    {
      if i == loc {
        NoneEarlierKept(h, slots, zero, loc, loc, s);
      } else {
        assert NoneEarlier(h, slots, zero, i);
        NoneEarlierKept(h, slots, zero, i, loc, s);
      }
    }
    if slots[loc].Live() && slots[loc].element != s.element {
      forall i | 0 <= i < |after| && after[i].element == slots[loc].element
        ensures after[i].element == zero && after[i].collected
      {
        if i != loc && after[i].Live() {
          LiveOnce(h, zero, slots, if i < loc then i else loc, if i < loc then loc else i);
        }
      }
    }
  }
}
