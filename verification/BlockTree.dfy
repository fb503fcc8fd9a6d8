/** Block index entries linked by parent and skip pointers, and the walks over them. */
module BlockTree {
  import opened Powers

  class BlockIndex {
    const hash: nat
    const prev: BlockIndex?
    const height: nat
    var skip: BlockIndex?

    constructor (h: nat, p: BlockIndex?)
      ensures hash == h && prev == p && height == (if p == null then 0 else p.height + 1) && skip == null
    {
      hash, prev, skip := h, p, null;
      height := if p == null then 0 else p.height + 1;
    }
  }

  // ---- the parent chain ----

  /** Parents go down one height at a time to a block of height zero. */
  ghost predicate Linked(b: BlockIndex)
    decreases b.height
  {
    if b.prev == null then b.height == 0 else b.height == b.prev.height + 1 && Linked(b.prev)
  }

  /** The plain walk along the parents. */
  ghost function Ancestor(b: BlockIndex, h: nat): (r: BlockIndex)
    requires Linked(b) && h <= b.height
    ensures Linked(r) && r.height == h
    decreases b.height
  {
    if b.height == h then b else Ancestor(b.prev, h)
  }

  lemma {:induction false} AncestorOfAncestor(b: BlockIndex, mid: nat, h: nat)
    requires Linked(b) && h <= mid <= b.height
    ensures Ancestor(Ancestor(b, mid), h) == Ancestor(b, h)
    decreases b.height
  {
    if mid < b.height {
      AncestorOfAncestor(b.prev, mid, h);
    }
  }

  // ---- the skip heights ----

  function And(x: nat, y: nat): nat {
    if x == 0 then 0 else (if x % 2 == 1 && y % 2 == 1 then 1 else 0) + 2 * And(x / 2, y / 2)
  }

  /** Turns the lowest set bit off; zero stays zero. */
  function InvertLowestOne(n: nat): nat {
    if n == 0 then 0 else And(n, n - 1)
  }

  lemma {:induction false} AndSame(x: nat)
    ensures And(x, x) == x
  {
    if x > 0 {
      AndSame(x / 2);
    }
  }

  /** An odd multiple of a power of two loses exactly that power. */
  lemma {:induction false} LosesLowestBit(m: nat, k: nat)
    requires m % 2 == 1
    ensures m * Pow2(k) >= 1 && InvertLowestOne(m * Pow2(k)) == (m - 1) * Pow2(k)
    decreases k
  {
    hide InvertLowestOne;
    if k == 0 {
      LosesUnit(m);
    } else {
      LosesLowestBit(m, k - 1);
      InvertTwice(m * Pow2(k - 1));
      Doubled(m, Pow2(k - 1));
    }
  }

  lemma Doubled(m: int, p: int)
    ensures m * (2 * p) == 2 * (m * p) && (m - 1) * (2 * p) == 2 * ((m - 1) * p)
  {
  }

  lemma LosesUnit(m: nat)
    requires m % 2 == 1
    ensures InvertLowestOne(m) == m - 1
  {
    AndSame(m / 2);
    assert And(m, m - 1) == 2 * And(m / 2, (m - 1) / 2);
  }

  lemma InvertTwice(n: nat)
    requires n > 0
    ensures InvertLowestOne(2 * n) == 2 * InvertLowestOne(n)
  {
    assert (2 * n - 1) / 2 == n - 1;
  }

  lemma {:induction false} LowestBit(n: nat) returns (m: nat, k: nat)
    requires n > 0
    ensures m % 2 == 1 && n == m * Pow2(k)
  {
    if n % 2 == 1 {
      m, k := n, 0;
    } else {
      m, k := LowestBit(n / 2);
      assert n == 2 * (m * Pow2(k)) == m * Pow2(k + 1);
      k := k + 1;
    }
  }

  lemma InvertsLower(n: nat)
    ensures InvertLowestOne(n) <= n && (n > 0 ==> InvertLowestOne(n) < n)
  {
    if n > 0 {
      var m, k := LowestBit(n);
      LosesLowestBit(m, k);
      assert (m - 1) * Pow2(k) == m * Pow2(k) - Pow2(k);
    }
  }

  function SkipHeight(height: nat): (r: nat)
    ensures height > 0 ==> r < height
    ensures height == 0 ==> r == 0
  {
    if height < 2 then 0
    else
      InvertsLower(height);
      InvertsLower(height - 1);
      InvertsLower(InvertLowestOne(height - 1));
      if height % 2 == 1 then InvertLowestOne(InvertLowestOne(height - 1)) + 1 else InvertLowestOne(height)
  }

  // ---- a tree of entries ----

  /** Closed under parents, and every skip pointer is the ancestor at the skip height. */
  ghost predicate TreeOk(nodes: set<BlockIndex>)
    reads nodes
  {
    forall b | b in nodes :: Linked(b) && (b.prev != null ==> b.prev in nodes) && SkipOk(b)
  }

  ghost predicate SkipOk(b: BlockIndex)
    requires Linked(b)
    reads b
  {
    b.skip != null ==> b.height > 0 && b.skip == Ancestor(b, SkipHeight(b.height))
  }

  lemma {:induction false} AncestorIn(nodes: set<BlockIndex>, b: BlockIndex, h: nat)
    requires TreeOk(nodes) && b in nodes && h <= b.height
    ensures Ancestor(b, h) in nodes
    decreases b.height
  {
    if h < b.height {
      AncestorIn(nodes, b.prev, h);
    }
  }

  /** Through the skip pointers, the same entry as the plain walk; none for a height outside the chain. */
  method GetAncestor(nodes: set<BlockIndex>, b: BlockIndex, height: int) returns (r: BlockIndex?)
    requires TreeOk(nodes) && b in nodes
    ensures r == null <==> height > b.height || height < 0
    ensures r != null ==> r == Ancestor(b, height) && r in nodes
  {
    hide InvertLowestOne, SkipHeight;
    if height > b.height || height < 0 {
      return null;
    }
    var walk, heightWalk := b, b.height;
    while heightWalk > height
      invariant walk in nodes && heightWalk == walk.height && height <= heightWalk <= b.height
      invariant Ancestor(walk, height) == Ancestor(b, height)
    {
      var heightSkip := SkipHeight(heightWalk);
      var heightSkipPrev := SkipHeight(heightWalk - 1);
      assert Linked(walk) && SkipOk(walk);
      if walk.skip != null && (heightSkip == height ||
        (heightSkip > height && !(heightSkipPrev < heightSkip - 2 && heightSkipPrev >= height))) {
        AncestorIn(nodes, walk, heightSkip);
        AncestorOfAncestor(walk, heightSkip, height);
        walk, heightWalk := walk.skip, heightSkip;
      } else {
        walk, heightWalk := walk.prev, heightWalk - 1;
      }
    }
    r := walk;
  }

  method BuildSkip(nodes: set<BlockIndex>, b: BlockIndex)
    requires TreeOk(nodes) && b !in nodes && Linked(b) && (b.prev != null ==> b.prev in nodes)
    modifies b`skip
    ensures b.prev != null ==> b.skip == Ancestor(b, SkipHeight(b.height))
    ensures b.prev == null ==> b.skip == old(b.skip)
  {
    if b.prev != null {
      b.skip := GetAncestor(nodes, b.prev, SkipHeight(b.height));
    }
  }

  /** A new entry on top of a known one, or a new genesis block: the tree stays sound. */
  method AddBlock(nodes: set<BlockIndex>, hash: nat, prev: BlockIndex?) returns (b: BlockIndex, nodes': set<BlockIndex>)
    requires TreeOk(nodes) && (prev != null ==> prev in nodes)
    ensures fresh(b) && nodes' == nodes + {b} && TreeOk(nodes') && b.prev == prev && b.hash == hash
  {
    hide SkipHeight, Ancestor;
    b := new BlockIndex(hash, prev);
    BuildSkip(nodes, b);
    nodes' := nodes + {b};
  }

  /** Any tree grown one block at a time. */
  method Grow(parents: seq<nat>, hashes: seq<nat>) returns (all: seq<BlockIndex>, nodes: set<BlockIndex>)
    requires |parents| == |hashes| && forall i | 0 <= i < |parents| :: parents[i] < i || i == 0
    ensures TreeOk(nodes) && |all| == |parents| && forall b :: b in nodes <==> b in all
    ensures forall i | 0 < i < |all| :: all[i].prev == all[parents[i]]
  {
    hide TreeOk;
    all, nodes := [], {};
    EmptyTree();
    for i := 0 to |parents|
      invariant |all| == i && TreeOk(nodes) && (forall b :: b in nodes <==> b in all)
      invariant forall j | 0 < j < i :: all[j].prev == all[parents[j]]
    {
      var b;
      var parent: BlockIndex? := if i == 0 then null else all[parents[i]];
      b, nodes := AddBlock(nodes, hashes[i], parent);
      all := all + [b];
    }
  }

  lemma EmptyTree()
    ensures TreeOk({})
  {
  }

  // ---- common ancestors ----

  /** The highest entry on both parent chains; null when the chains have none. */
  ghost predicate HighestCommon(a: BlockIndex, b: BlockIndex, r: BlockIndex?)
    requires Linked(a) && Linked(b)
  {
    && (r != null ==>
         r.height <= a.height && r.height <= b.height && r == Ancestor(a, r.height) == Ancestor(b, r.height))
    && forall h: nat | h <= a.height && h <= b.height && Ancestor(a, h) == Ancestor(b, h) :: r != null && h <= r.height
  }

  lemma CommonOfAncestor(a: BlockIndex, b: BlockIndex, r: BlockIndex?)
    requires Linked(a) && Linked(b) && b.height <= a.height && HighestCommon(Ancestor(a, b.height), b, r)
    ensures HighestCommon(a, b, r) && HighestCommon(b, a, r)
  {
    var m := Ancestor(a, b.height);
    if r != null {
      AncestorOfAncestor(a, b.height, r.height);
    }
    forall h: nat | h <= b.height && Ancestor(a, h) == Ancestor(b, h) ensures r != null && h <= r.height
    {
      AncestorOfAncestor(a, b.height, h);
      assert h <= m.height && Ancestor(m, h) == Ancestor(b, h);
    }
  }

  /** Stepping both sides down once while they differ loses no common ancestor. */
  lemma StepDown(a: BlockIndex, b: BlockIndex, r: BlockIndex?)
    requires Linked(a) && Linked(b) && a.height == b.height && a != b && a.prev != null && b.prev != null
    requires HighestCommon(a.prev, b.prev, r)
    ensures HighestCommon(a, b, r)
  {
    forall h: nat | h <= a.height && Ancestor(a, h) == Ancestor(b, h) ensures r != null && h <= r.height
    {
      assert h != a.height;
      assert Ancestor(a.prev, h) == Ancestor(b.prev, h);
    }
  }

  lemma SameHeights(a: BlockIndex, b: BlockIndex)
    requires Linked(a) && Linked(b) && a.height == b.height
    ensures a.prev == null <==> b.prev == null
    ensures a == b ==> HighestCommon(a, b, a)
    ensures a != b && a.prev == null ==> HighestCommon(a, b, null)
  {
  }

  /** The walk the loop makes, as a function of two entries of one height. */
  ghost function Meet(a: BlockIndex, b: BlockIndex): (r: BlockIndex?)
    requires Linked(a) && Linked(b) && a.height == b.height
    ensures HighestCommon(a, b, r)
    decreases a.height
  {
    SameHeights(a, b);
    if a == b then a
    else if a.prev == null then null
    else
      StepDown(a, b, Meet(a.prev, b.prev));
      Meet(a.prev, b.prev)
  }

  lemma CommonEitherWay(a: BlockIndex, b: BlockIndex, r: BlockIndex?)
    requires Linked(a) && Linked(b) && HighestCommon(a, b, r)
    ensures HighestCommon(b, a, r)
  {
  }

  /** Both sides step down together until they meet; two chains of one height run out together. */
  method StepTogether(nodes: set<BlockIndex>, a: BlockIndex, b: BlockIndex) returns (r: BlockIndex?)
    requires TreeOk(nodes) && a in nodes && b in nodes && a.height == b.height
    ensures r == Meet(a, b)
  {
    hide HighestCommon, Ancestor, SkipOk;
    var pa: BlockIndex?, pb: BlockIndex? := a, b;
    while pa != pb && pa != null && pb != null
      invariant pa == null <==> pb == null
      invariant pa != null ==> pa in nodes && pb in nodes && pa.height == pb.height && Meet(pa, pb) == Meet(a, b)
      invariant pa == null ==> Meet(a, b) == null
      decreases if pa == null then 0 else pa.height + 1
    {
      SameHeights(pa, pb);
      pa, pb := pa.prev, pb.prev;
    }
    assert pa == pb;
    r := pa;
  }

  method LastCommonAncestor(nodes: set<BlockIndex>, a: BlockIndex, b: BlockIndex) returns (r: BlockIndex?)
    requires TreeOk(nodes) && a in nodes && b in nodes
    ensures HighestCommon(a, b, r)
  {
    hide HighestCommon, Meet, SkipOk;
    if a.height > b.height {
      var pa := GetAncestor(nodes, a, b.height);
      r := StepTogether(nodes, pa, b);
      CommonOfAncestor(a, b, r);
    } else if b.height > a.height {
      var pb := GetAncestor(nodes, b, a.height);
      r := StepTogether(nodes, a, pb);
      CommonEitherWay(a, pb, r);
      CommonOfAncestor(b, a, r);
    } else {
      r := StepTogether(nodes, a, b);
    }
  }
}
