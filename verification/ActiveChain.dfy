/** The active chain: an array of entries by height, kept equal to the tip's parent chain. */
module ActiveChain {
  import opened Powers
  import opened BlockTree

  /** The entries at every height are the tip's ancestors. */
  ghost predicate IsPath(v: seq<BlockIndex?>) {
    v == [] || (v[|v| - 1] != null && PathOf(v, v[|v| - 1]))
  }

  ghost predicate PathOf(v: seq<BlockIndex?>, tip: BlockIndex) {
    Linked(tip) && |v| == tip.height + 1 && forall h: nat | h < |v| :: v[h] == Ancestor(tip, h)
  }

  /** Heights from `from` up hold the tip's ancestors already. */
  ghost predicate SetAbove(v: seq<BlockIndex?>, tip: BlockIndex, from: nat)
    requires Linked(tip) && |v| == tip.height + 1
  {
    forall h: nat | from <= h < |v| :: v[h] == Ancestor(tip, h)
  }

  /** What the loop may rely on below: an entry that is there brings its own ancestors. */
  ghost predicate Settled(v: seq<BlockIndex?>, to: nat) {
    forall h: nat | h < to && h < |v| && v[h] != null :: BringsAncestors(v, h)
  }

  ghost predicate BringsAncestors(v: seq<BlockIndex?>, h: nat)
    requires h < |v| && v[h] != null
  {
    v[h].height == h && Linked(v[h]) && forall j: nat | j <= h :: v[j] == Ancestor(v[h], j)
  }

  lemma PathSettled(v: seq<BlockIndex?>, n: nat)
    requires IsPath(v)
    ensures Settled(Resized(v, n), n)
  {
    var r := Resized(v, n);
    forall h: nat | h < n && r[h] != null ensures BringsAncestors(r, h)
    {
      forall j: nat | j <= h ensures r[h].height == h && Linked(r[h]) && r[j] == Ancestor(r[h], j)
      {
        AncestorOfAncestor(v[|v| - 1], h, j);
      }
    }
  }

  function Resized(v: seq<BlockIndex?>, n: nat): (r: seq<BlockIndex?>)
    ensures |r| == n && (forall h: nat | h < n :: r[h] == if h < |v| then v[h] else null)
  {
    if n <= |v| then v[..n] else v + seq(n - |v|, i => null)
  }

  lemma Stops(v: seq<BlockIndex?>, tip: BlockIndex, h: nat)
    requires Linked(tip) && |v| == tip.height + 1 && h < |v| && SetAbove(v, tip, h + 1) && Settled(v, h + 1)
    requires v[h] == Ancestor(tip, h)
    ensures PathOf(v, tip)
  {
    assert BringsAncestors(v, h);
    forall j: nat | j < |v| ensures v[j] == Ancestor(tip, j)
    {
      if j <= h {
        AncestorOfAncestor(tip, h, j);
      }
    }
  }

  lemma SetsOne(v: seq<BlockIndex?>, tip: BlockIndex, h: nat)
    requires Linked(tip) && |v| == tip.height + 1 && h < |v| && SetAbove(v, tip, h + 1) && Settled(v, h + 1)
    ensures SetAbove(v[h := Ancestor(tip, h)], tip, h) && Settled(v[h := Ancestor(tip, h)], h)
    ensures h == 0 ==> PathOf(v[h := Ancestor(tip, h)], tip)
  {
    var r := v[h := Ancestor(tip, h)];
    forall k: nat | k < h && r[k] != null ensures BringsAncestors(r, k)
    {
      assert BringsAncestors(v, k);
    }
  }

  lemma NextDown(tip: BlockIndex, h: nat)
    requires Linked(tip) && h <= tip.height
    ensures Ancestor(tip, h).prev == if h == 0 then null else Ancestor(tip, h - 1)
  {
    if h > 0 {
      AncestorOfAncestor(tip, h, h - 1);
    }
  }

  class Chain {
    var vChain: seq<BlockIndex?>

    constructor ()
      ensures vChain == [] && IsPath(vChain)
    {
      vChain := [];
    }

    function Height(): int
      reads this
    {
      |vChain| - 1
    }

    function At(h: int): BlockIndex?
      reads this
    {
      if h < 0 || h >= |vChain| then null else vChain[h]
    }

    predicate Contains(b: BlockIndex)
      reads this
    {
      At(b.height) == b
    }

    function Next(b: BlockIndex): (r: BlockIndex?)
      requires IsPath(vChain) && Linked(b)
      reads this
      ensures r != null ==> r.prev == b && Contains(r)
      ensures r == null <==> !Contains(b) || b.height == Height()
    {
      if b.height + 1 < |vChain| then NextDown(vChain[|vChain| - 1], b.height + 1);
        if Contains(b) then At(b.height + 1) else null
      else null
    }

    /** Stops as soon as it meets an entry that is in place; still the whole parent chain of the new tip. */
    method SetTip(tip: BlockIndex?)
      requires IsPath(vChain) && (tip != null ==> Linked(tip))
      modifies this
      ensures IsPath(vChain)
      ensures tip == null ==> vChain == []
      ensures tip != null ==> PathOf(vChain, tip)
    {
      hide Settled, SetAbove, Ancestor;
      if tip == null {
        vChain := [];
        return;
      }
      var n := tip.height + 1;
      PathSettled(vChain, n);
      vChain := Resized(vChain, n);
      NothingAbove(vChain, tip);
      var walk: BlockIndex? := tip;
      AncestorSelf(tip);
      while walk != null && vChain[walk.height] != walk
        invariant |vChain| == n
        invariant walk == null ==> PathOf(vChain, tip)
        invariant walk != null ==> walk.height < n && walk == Ancestor(tip, walk.height)
        invariant walk != null ==> SetAbove(vChain, tip, walk.height + 1) && Settled(vChain, walk.height + 1)
        decreases if walk == null then 0 else walk.height + 1
      {
        SetsOne(vChain, tip, walk.height);
        NextDown(tip, walk.height);
        vChain := vChain[walk.height := walk];
        walk := walk.prev;
      }
      if walk != null {
        Stops(vChain, tip, walk.height);
      }
      AncestorSelf(tip);
    }

    /** The highest entry of the parent chain of `b` that is in this chain; null when there is none. */
    method FindFork(nodes: set<BlockIndex>, b: BlockIndex?) returns (r: BlockIndex?)
      requires IsPath(vChain) && TreeOk(nodes) && (b != null ==> b in nodes)
      ensures b == null || vChain == [] ==> r == null
      ensures b != null && vChain != [] ==> HighestCommon(b, vChain[|vChain| - 1], r)
    {
      hide TreeOk, IsPath, PathOf, HighestCommon, Ancestor;
      if b == null {
        return null;
      }
      TreeFacts(nodes, b);
      AncestorSelf(b);
      r := b;
      if b.height > Height() {
        r := GetAncestor(nodes, b, Height());
      }
      if vChain == [] {
        return null;
      }
      PathTip(vChain);
      ghost var tip: BlockIndex := vChain[|vChain| - 1];
      ghost var top := r.height;
      ForkStarts(b, tip, top);
      while r != null && !Contains(r)
        invariant r != null ==> r.height <= top && r == Ancestor(b, r.height) && NoForkAbove(b, tip, r.height + 1)
        invariant r == null ==> NoForkAbove(b, tip, 0)
        decreases if r == null then 0 else r.height + 1
      {
        PathAt(vChain, r.height);
        ForkStep(b, tip, r.height);
        NextDown(b, r.height);
        r := r.prev;
      }
      if r != null {
        PathAt(vChain, r.height);
      }
      ForkEnds(b, tip, r);
    }

    /** The ancestor at a height: read off this chain if it can be, through the skip pointers if not. */
    method Hop(nodes: set<BlockIndex>, walk: BlockIndex, height: nat) returns (r: BlockIndex)
      requires IsPath(vChain) && TreeOk(nodes) && walk in nodes && height <= walk.height
      requires forall h: nat | h < |vChain| :: vChain[h] in nodes
      ensures r in nodes && r == Ancestor(walk, height)
    {
      hide IsPath, PathOf, Ancestor;
      if Contains(walk) {
        PathUnder(vChain, walk.height, height);
        r := At(height);
      } else {
        r := GetAncestor(nodes, walk, height);
      }
    }

    /** Entries going back from `start`, or from the tip, at growing distances. */
    method GetLocator(nodes: set<BlockIndex>, start: BlockIndex?) returns (have: seq<BlockIndex>)
      requires IsPath(vChain) && TreeOk(nodes) && (start != null ==> start in nodes)
      requires forall h: nat | h < |vChain| :: vChain[h] in nodes
      ensures start == null && vChain == [] ==> have == []
      ensures start != null ==> Locates(have, start)
      ensures start == null && vChain != [] ==> Locates(have, vChain[|vChain| - 1])
    {
      hide TreeOk, IsPath, PathOf, Ancestor, GoesBack, Pace, Back, Locates;
      have := [];
      var walk := start;
      if walk == null {
        walk := At(Height());
      }
      if walk == null {
        PathTip(vChain);
        return;
      }
      ghost var from: BlockIndex := walk;
      TreeFacts(nodes, from);
      AncestorSelf(from);
      BackStarts(from);
      PathTip(vChain);
      var step := 1;
      while true
        invariant walk != null && walk in nodes && Linked(walk) && walk.height <= from.height &&
                  walk == Ancestor(from, walk.height)
        invariant GoesBack(have, from, walk.height) && Pace(|have|, step, walk.height, from.height)
        decreases walk.height
      {
        BackStep(have, from, walk.height);
        have := have + [walk];
        if walk.height == 0 {
          PaceEnds(|have|, step, from.height);
          BackEnds(have, from);
          return;
        }
        var height := if walk.height >= step then walk.height - step else 0;
        PaceStep(|have| - 1, step, walk.height, from.height);
        AncestorOfAncestor(from, walk.height, height);
        BackLower(have, from, walk.height, height);
        walk := Hop(nodes, walk, height);
        TreeFacts(nodes, walk);
        if |have| > 10 {
          step := step * 2;
        }
      }
    }
  }

  lemma NothingAbove(v: seq<BlockIndex?>, tip: BlockIndex)
    requires Linked(tip) && |v| == tip.height + 1
    ensures SetAbove(v, tip, |v|)
  {
  }

  lemma AncestorSelf(b: BlockIndex)
    requires Linked(b)
    ensures Ancestor(b, b.height) == b
  {
  }

  lemma TreeFacts(nodes: set<BlockIndex>, b: BlockIndex)
    requires TreeOk(nodes) && b in nodes
    ensures Linked(b)
  {
  }

  lemma PathTip(v: seq<BlockIndex?>)
    requires IsPath(v)
    ensures v != [] ==>
              v[|v| - 1] != null && Linked(v[|v| - 1]) && v[|v| - 1].height == |v| - 1 && PathOf(v, v[|v| - 1])
  {
  }

  lemma PathAt(v: seq<BlockIndex?>, h: nat)
    requires IsPath(v)
    ensures h < |v| ==>
              v[|v| - 1] != null && Linked(v[|v| - 1]) && v[|v| - 1].height == |v| - 1 &&
              v[h] == Ancestor(v[|v| - 1], h)
  {
  }

  lemma PathUnder(v: seq<BlockIndex?>, h: nat, j: nat)
    requires IsPath(v) && j <= h < |v|
    ensures v[h] != null && Linked(v[h]) && v[h].height == h && v[j] == Ancestor(v[h], j)
  {
    AncestorOfAncestor(v[|v| - 1], h, j);
  }

  // ---- the fork walk ----

  /** The two parent chains differ at every common height from `h` up. */
  ghost predicate NoForkAbove(a: BlockIndex, b: BlockIndex, h: nat)
    requires Linked(a) && Linked(b)
  {
    forall k: nat | h <= k <= a.height && k <= b.height :: Ancestor(a, k) != Ancestor(b, k)
  }

  lemma ForkStarts(a: BlockIndex, b: BlockIndex, top: nat)
    requires Linked(a) && Linked(b) && (top >= a.height || top >= b.height)
    ensures NoForkAbove(a, b, top + 1)
  {
  }

  lemma ForkStep(a: BlockIndex, b: BlockIndex, h: nat)
    requires Linked(a) && Linked(b) && NoForkAbove(a, b, h + 1) && h <= a.height &&
             (h > b.height || Ancestor(a, h) != Ancestor(b, h))
    ensures NoForkAbove(a, b, h)
  {
    forall k: nat | h <= k <= a.height && k <= b.height ensures Ancestor(a, k) != Ancestor(b, k)
    {
      assert k == h || k >= h + 1;
    }
  }

  lemma ForkEnds(a: BlockIndex, b: BlockIndex, r: BlockIndex?)
    requires Linked(a) && Linked(b)
    requires r == null ==> NoForkAbove(a, b, 0)
    requires r != null ==>
               r.height <= a.height && r.height <= b.height && r == Ancestor(a, r.height) == Ancestor(b, r.height) &&
               NoForkAbove(a, b, r.height + 1)
    ensures HighestCommon(a, b, r)
  {
  }

  // ---- the locator ----

  /** The least power of two that reaches `n`. */
  function CeilLog2(n: nat): (r: nat)
    requires n >= 1
  {
    if n == 1 then 0 else 1 + CeilLog2((n + 1) / 2)
  }

  lemma {:induction false} CeilLog2Is(n: nat)
    requires n >= 1
    ensures n <= Pow2(CeilLog2(n)) && (n > 1 ==> Pow2(CeilLog2(n) - 1) < n)
  {
    if n > 1 {
      CeilLog2Is((n + 1) / 2);
    }
  }

  /** Entries of the parent chain at strictly falling heights above `limit`, starting with `from` itself. */
  ghost predicate GoesBack(have: seq<BlockIndex>, from: BlockIndex, limit: nat)
    requires Linked(from)
  {
    && (forall i: nat | i < |have| ::
         limit < have[i].height <= from.height && have[i] == Ancestor(from, have[i].height))
    && (forall i: nat, j: nat | i < j < |have| :: have[j].height < have[i].height)
    && (if have == [] then limit == from.height else have[0] == from)
  }

  /** A locator: strictly descending, from the start to its genesis block, of logarithmic length. */
  ghost predicate Locates(have: seq<BlockIndex>, from: BlockIndex)
    requires Linked(from)
  {
    && have != [] && have[0] == from && have[|have| - 1] == Ancestor(from, 0)
    && (forall i: nat | i < |have| :: have[i].height <= from.height && have[i] == Ancestor(from, have[i].height))
    && (forall i: nat, j: nat | i < j < |have| :: have[j].height < have[i].height)
    && |have| <= 12 + CeilLog2(from.height + 1)
  }

  lemma BackStarts(from: BlockIndex)
    requires Linked(from)
    ensures GoesBack([], from, from.height) && Pace(0, 1, from.height, from.height)
  {
  }

  lemma BackStep(have: seq<BlockIndex>, from: BlockIndex, h: nat)
    requires Linked(from) && h <= from.height && GoesBack(have, from, h)
    ensures Back(have + [Ancestor(from, h)], from, h)
  {
    AncestorSelf(from);
  }

  /** As GoesBack, with the last entry at height `h`. */
  ghost predicate Back(have: seq<BlockIndex>, from: BlockIndex, h: nat)
    requires Linked(from) && h <= from.height
  {
    && have != [] && have[0] == from && have[|have| - 1] == Ancestor(from, h)
    && (forall i: nat | i < |have| :: h <= have[i].height <= from.height && have[i] == Ancestor(from, have[i].height))
    && (forall i: nat, j: nat | i < j < |have| :: have[j].height < have[i].height)
  }

  lemma BackLower(have: seq<BlockIndex>, from: BlockIndex, h: nat, lower: nat)
    requires Linked(from) && h <= from.height && Back(have, from, h) && lower < h
    ensures GoesBack(have, from, lower)
  {
  }

  lemma BackEnds(have: seq<BlockIndex>, from: BlockIndex)
    requires Linked(from) && Back(have, from, 0) && |have| <= 12 + CeilLog2(from.height + 1)
    ensures Locates(have, from)
  {
  }

  /** Where the walk is after `n` entries: eleven single steps, then doubling ones, unless it is at the bottom already.
      */
  ghost predicate Pace(n: nat, step: int, height: nat, top: nat) {
    && step == (if n <= 10 then 1 else Pow2(n - 10))
    && (n > 11 ==> Pow2(n - 11) < top)
    && (height == 0 || height == if n <= 11 then top - n else top - 9 - Pow2(n - 10))
  }

  lemma PaceStep(n: nat, step: int, height: nat, top: nat)
    requires Pace(n, step, height, top) && height > 0
    ensures step >= 1
    ensures Pace(n + 1, if n + 1 > 10 then step * 2 else step, if height >= step then height - step else 0, top)
  {
    if n >= 10 {
      assert Pow2(n - 9) == 2 * Pow2(n - 10);
    }
    assert Pow2(0) == 1 && Pow2(1) == 2;
  }

  lemma PaceEnds(n: nat, step: int, top: nat)
    requires n > 0 && Pace(n - 1, step, 0, top)
    ensures n <= 12 + CeilLog2(top + 1)
  {
    CeilLog2Is(top + 1);
    if n > 12 + CeilLog2(top + 1) {
      Pow2Grows(CeilLog2(top + 1), n - 12);
    }
  }
}
