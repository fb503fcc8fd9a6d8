/** The partial Merkle tree of BIP 37 as values: what the builder emits and what the extractor makes of any input. */
module PartialMerkle {
  import opened Powers
  import opened MerkleTree

  // ---- the builder ----

  /** The marked positions from `a` up to `b`, in order. */
  function Marked(mask: seq<bool>, a: nat, b: nat): (r: seq<nat>)
    requires a <= b <= |mask|
    ensures |r| <= b - a
    decreases b
  {
    if a == b then [] else Marked(mask, a, b - 1) + (if mask[b - 1] then [b - 1] else [])
  }

  /** The marked positions are exactly those whose mask bit is set, in ascending order. */
  lemma {:induction false} MarkedIs(mask: seq<bool>, a: nat, b: nat)
    requires a <= b <= |mask|
    ensures forall p :: p in Marked(mask, a, b) <==> a <= p < b && mask[p]
    ensures Ascending(Marked(mask, a, b))
    decreases b
  {
    if a < b {
      MarkedIs(mask, a, b - 1);
      var r := Marked(mask, a, b - 1);
      forall i | 0 <= i < |r| ensures r[i] < b - 1
      {
        assert r[i] in r;
      }
    }
  }

  lemma {:induction false} MarkedSplit(mask: seq<bool>, a: nat, b: nat, c: nat)
    requires a <= b <= c <= |mask|
    ensures Marked(mask, a, c) == Marked(mask, a, b) + Marked(mask, b, c)
    decreases c
  {
    if b < c {
      MarkedSplit(mask, a, b, c - 1);
    }
  }

  ghost predicate Ascending(xs: seq<nat>) {
    forall i, j | 0 <= i < j < |xs| :: xs[i] < xs[j]
  }

  lemma AscendingJoin(xs: seq<nat>, ys: seq<nat>, mid: nat)
    requires Ascending(xs) && Ascending(ys)
    requires (forall x | x in xs :: x < mid) && (forall y | y in ys :: mid <= y)
    ensures Ascending(xs + ys)
  {
    var zs := xs + ys;
    forall i, j | 0 <= i < j < |zs| ensures zs[i] < zs[j]
    {
      if i < |xs| <= j {
        assert xs[i] in xs && ys[j - |xs|] in ys;
      }
    }
  }

  function Below(mask: seq<bool>, height: nat, pos: nat): seq<nat>
    requires pos < Width(|mask|, height)
  {
    InRange(|mask|, height, pos);
    Marked(mask, First(height, pos), Last(|mask|, height, pos))
  }

  lemma InRange(n: nat, height: nat, pos: nat)
    requires pos < Width(n, height)
    ensures First(height, pos) < Last(n, height, pos) <= n && First(height, pos) == pos * Pow2(height)
    ensures height == 0 ==> First(height, pos) == pos && Last(n, height, pos) == pos + 1
  {
    WidthIs(n, height, pos);
    assert First(height, pos + 1) == First(height, pos) + Pow2(height);
  }

  datatype Tree<T> = Tree(bits: seq<bool>, hashes: seq<T>)

  /** What the builder emits for one node, depth first. */
  function Build<T>(join: (T, T) -> T, txids: seq<T>, mask: seq<bool>, height: nat, pos: nat): Tree<T>
    requires |mask| == |txids| && pos < Width(|txids|, height)
    decreases height
  {
    var wanted := Below(mask, height, pos) != [];
    if height == 0 || !wanted then Tree([wanted], [CalcHash(join, height, pos, txids)])
    else
      Children(|txids|, height - 1, pos);
      var left := Build(join, txids, mask, height - 1, pos * 2);
      if pos * 2 + 1 < Width(|txids|, height - 1) then
        var right := Build(join, txids, mask, height - 1, pos * 2 + 1);
        Tree([true] + left.bits + right.bits, left.hashes + right.hashes)
      else Tree([true] + left.bits, left.hashes)
  }

  /** The builder's definition, one node at a time. */
  lemma BuildNode<T>(join: (T, T) -> T, txids: seq<T>, mask: seq<bool>, height: nat, pos: nat)
    requires |mask| == |txids| && pos < Width(|txids|, height)
    ensures height > 0 ==> pos * 2 < Width(|txids|, height - 1)
    ensures var t := Build(join, txids, mask, height, pos);
            var wanted := Below(mask, height, pos) != [];
            if height == 0 || !wanted then t == Tree([wanted], [CalcHash(join, height, pos, txids)])
            else
              var left := Build(join, txids, mask, height - 1, pos * 2);
              if pos * 2 + 1 < Width(|txids|, height - 1) then
                var right := Build(join, txids, mask, height - 1, pos * 2 + 1);
                t == Tree([true] + left.bits + right.bits, left.hashes + right.hashes)
              else t == Tree([true] + left.bits, left.hashes)
  {
    if height > 0 {
      Children(|txids|, height - 1, pos);
    }
  }

  /** The marked leaves below a node are those below its children. */
  lemma BelowSplit(mask: seq<bool>, height: nat, pos: nat)
    requires pos < Width(|mask|, height + 1)
    ensures pos * 2 < Width(|mask|, height)
    ensures Below(mask, height + 1, pos) ==
      Below(mask, height, pos * 2) + if pos * 2 + 1 < Width(|mask|, height) then Below(mask, height, pos * 2 + 1)
        else []
  {
    hide Width, First, Last, Marked;
    var n := |mask|;
    Children(n, height, pos);
    InRange(n, height + 1, pos);
    InRange(n, height, pos * 2);
    if pos * 2 + 1 < Width(n, height) {
      InRange(n, height, pos * 2 + 1);
      MarkedSplit(mask, First(height + 1, pos), Last(n, height, pos * 2), Last(n, height + 1, pos));
    }
  }

  /** Between one and the number of leaves below, and no more than one plus a path for every match; a bit for each
      hash. */
  lemma {:induction false} HashCount<T>(join: (T, T) -> T, txids: seq<T>, mask: seq<bool>, height: nat, pos: nat)
    requires |mask| == |txids| && pos < Width(|txids|, height)
    ensures var t := Build(join, txids, mask, height, pos);
            && 1 <= |t.hashes| <= Last(|txids|, height, pos) - First(height, pos)
            && |t.hashes| <= 1 + |Below(mask, height, pos)| * height
            && |t.hashes| <= |t.bits|
    decreases height
  {
    hide Width, First, Last, Below, CalcHash;
    var n := |txids|;
    InRange(n, height, pos);
    if height > 0 && Below(mask, height, pos) != [] {
      Children(n, height - 1, pos);
      BelowSplit(mask, height - 1, pos);
      HashCount(join, txids, mask, height - 1, pos * 2);
      var m1 := |Below(mask, height - 1, pos * 2)|;
      if pos * 2 + 1 < Width(n, height - 1) {
        HashCount(join, txids, mask, height - 1, pos * 2 + 1);
        PathBound(m1, |Below(mask, height - 1, pos * 2 + 1)|, height);
      } else {
        PathBound(m1, 0, height);
      }
    }
  }

  lemma PathBound(a: nat, b: nat, height: nat)
    requires height > 0 && a + b > 0
    ensures 2 + a * (height - 1) + b * (height - 1) <= 1 + (a + b) * height
  {
    assert (a + b) * height == a * (height - 1) + b * (height - 1) + a + b;
  }

  // ---- the extractor ----

  datatype Found<T> = Found(root: T, bitsUsed: nat, hashesUsed: nat, matches: seq<T>, indices: seq<nat>, bad: bool)

  /** Two subtrees joined; subtrees with the same hash mean a duplicated transaction and are refused. */
  function Both<T(==)>(join: (T, T) -> T, left: Found<T>, right: Found<T>): Found<T> {
    Found(join(left.root, right.root), right.bitsUsed, right.hashesUsed,
          left.matches + right.matches, left.indices + right.indices,
          left.bad || right.bad || right.root == left.root)
  }

  /** What the extractor makes of arbitrary bits and hashes, starting at the two cursors. */
  function Extract<T(==)>(join: (T, T) -> T, zero: T, n: nat, t: Tree<T>, height: nat, pos: nat, b: nat,
                     k: nat): Found<T>
    decreases height
  {
    if b >= |t.bits| then Found(zero, b, k, [], [], true)
    else if height == 0 || !t.bits[b] then
      if k >= |t.hashes| then Found(zero, b + 1, k, [], [], true)
      else if height == 0 && t.bits[b] then Found(t.hashes[k], b + 1, k + 1, [t.hashes[k]], [pos], false)
      else Found(t.hashes[k], b + 1, k + 1, [], [], false)
    else
      var left := Extract(join, zero, n, t, height - 1, pos * 2, b + 1, k);
      if pos * 2 + 1 < Width(n, height - 1) then
        var right := Extract(join, zero, n, t, height - 1, pos * 2 + 1, left.bitsUsed, left.hashesUsed);
        Both(join, left, right)
      else left.(root := join(left.root, left.root))
  }

  const MAX_TRANSACTIONS := 4000000 / (4 * 60)

  /** The whole extraction: the early refusals, the walk, the checks on what it consumed. */
  function ExtractAll<T(==)>(join: (T, T) -> T, zero: T, n: nat, t: Tree<T>): Found<T> {
    if n == 0 || n > MAX_TRANSACTIONS || |t.hashes| > n || |t.bits| < |t.hashes| then Found(zero, 0, 0, [], [], false)
    else
      var f := Extract(join, zero, n, t, Height(n), 0, 0, 0);
      if f.bad || (f.bitsUsed + 7) / 8 != (|t.bits| + 7) / 8 || f.hashesUsed != |t.hashes| then f.(root := zero) else f
  }

  /** Reported pairs are entries of the list, each once and in order, between two positions. */
  ghost predicate Truthful<T>(txids: seq<T>, matches: seq<T>, indices: seq<nat>, from: nat, to: nat) {
    && |matches| == |indices| && Ascending(indices)
    && (forall p | p in indices :: from <= p < to)
    && (forall i | 0 <= i < |indices| :: indices[i] < |txids| && matches[i] == txids[indices[i]])
  }

  lemma TruthfulJoin<T>(txids: seq<T>, m1: seq<T>, i1: seq<nat>, m2: seq<T>, i2: seq<nat>, from: nat, mid: nat, to: nat)
    requires from <= mid <= to && Truthful(txids, m1, i1, from, mid) && Truthful(txids, m2, i2, mid, to)
    ensures Truthful(txids, m1 + m2, i1 + i2, from, to)
  {
    AscendingJoin(i1, i2, mid);
  }

  /** A node whose extracted hash is the true one yields only true entries, whatever was supplied. */
  lemma {:induction false} NodeTruthful<T(!new)>(join: (T, T) -> T, zero: T, txids: seq<T>, t: Tree<T>, height: nat,
                                          pos: nat, b: nat, k: nat)
    requires Injective(join) && pos < Width(|txids|, height)
    requires var f := Extract(join, zero, |txids|, t, height, pos, b, k);
             !f.bad && f.root == CalcHash(join, height, pos, txids)
    ensures var f := Extract(join, zero, |txids|, t, height, pos, b, k);
            Truthful(txids, f.matches, f.indices, First(height, pos), Last(|txids|, height, pos))
    decreases height
  {
    hide Width, First, Last, Truthful;
    var n := |txids|;
    InRange(n, height, pos);
    if height == 0 || !t.bits[b] {
      TruthfulLeaf(txids, pos);
      TruthfulNone(txids, First(height, pos), Last(n, height, pos));
    } else {
      Children(n, height - 1, pos);
      var left := Extract(join, zero, n, t, height - 1, pos * 2, b + 1, k);
      NodeTruthful(join, zero, txids, t, height - 1, pos * 2, b + 1, k);
      InRange(n, height - 1, pos * 2);
      if pos * 2 + 1 < Width(n, height - 1) {
        var right := Extract(join, zero, n, t, height - 1, pos * 2 + 1, left.bitsUsed, left.hashesUsed);
        NodeTruthful(join, zero, txids, t, height - 1, pos * 2 + 1, left.bitsUsed, left.hashesUsed);
        InRange(n, height - 1, pos * 2 + 1);
        TruthfulJoin(txids, left.matches, left.indices, right.matches, right.indices,
                     First(height, pos), First(height - 1, pos * 2 + 1), Last(n, height, pos));
      }
    }
  }

  lemma TruthfulLeaf<T>(txids: seq<T>, pos: nat)
    ensures pos < |txids| ==> Truthful(txids, [txids[pos]], [pos], pos, pos + 1)
  {
  }

  lemma TruthfulNone<T>(txids: seq<T>, from: nat, to: nat)
    ensures Truthful(txids, [], [], from, to)
  {
  }

  /**
   * Soundness: when the extraction answers with the Merkle root of a list of the announced length, every reported
   * pair is an entry of that list. A root equal to the null value that stands for failure is the one exception.
   */
  lemma Soundness<T(!new)>(join: (T, T) -> T, zero: T, txids: seq<T>, t: Tree<T>)
    requires Injective(join) && txids != [] && LevelRoot(join, txids) != zero
    requires ExtractAll(join, zero, |txids|, t).root == LevelRoot(join, txids)
    ensures var f := ExtractAll(join, zero, |txids|, t); Truthful(txids, f.matches, f.indices, 0, |txids|)
  {
    hide Width, First, Last, Extract, CalcHash, LevelRoot, Truthful;
    var n := |txids|;
    TopIsRoot(join, Height(n), txids);
    InRange(n, Height(n), 0);
    RootRange(n);
    NodeTruthful(join, zero, txids, t, Height(n), 0, 0, 0);
  }

  lemma RootRange(n: nat)
    requires n > 0
    ensures First(Height(n), 0) == 0 && Last(n, Height(n), 0) == n
  {
    WidthIs(n, Height(n), 1);
  }

  /** Once the hashes are used up, a walk only fails. */
  lemma {:induction false} OutOfHashes<T>(join: (T, T) -> T, zero: T, n: nat, t: Tree<T>, height: nat, pos: nat,
                                          b: nat, k: nat)
    requires k >= |t.hashes|
    ensures var f := Extract(join, zero, n, t, height, pos, b, k);
            f.bad && f.matches == [] && f.indices == [] && f.hashesUsed == k
    decreases height
  {
    hide Width;
    if b < |t.bits| && height > 0 && t.bits[b] {
      OutOfHashes(join, zero, n, t, height - 1, pos * 2, b + 1, k);
      var left := Extract(join, zero, n, t, height - 1, pos * 2, b + 1, k);
      OutOfHashes(join, zero, n, t, height - 1, pos * 2 + 1, left.bitsUsed, left.hashesUsed);
    }
  }

  /** With set bits and one hash, the walk reports that hash as the first entry. */
  lemma {:induction false} ForgedFirst<T>(join: (T, T) -> T, zero: T, n: nat, t: Tree<T>, height: nat, b: nat)
    requires |t.hashes| == 1 && b + height < |t.bits| && (forall bit | bit in t.bits :: bit)
    ensures var f := Extract(join, zero, n, t, height, 0, b, 0);
            && f.matches == [t.hashes[0]] && f.indices == [0] && f.hashesUsed == 1
            && (if height == 0 then f.bitsUsed == b + 1 else n > 1 ==> f.bad)
    decreases height
  {
    hide Width;
    assert t.bits[b] in t.bits;
    if height > 0 {
      ForgedFirst(join, zero, n, t, height - 1, b + 1);
      var left := Extract(join, zero, n, t, height - 1, 0, b + 1, 0);
      OutOfHashes(join, zero, n, t, height - 1, 1, left.bitsUsed, left.hashesUsed);
      WidthIs(n, 0, 1);
    }
  }

  /** The exception is real: for every list whose root is null, a failed extraction that
      reports any other first entry has the list's root for its answer. */
  lemma NullRootProvesNothing<T>(join: (T, T) -> T, zero: T, txids: seq<T>, forged: T)
    requires 0 < |txids| <= MAX_TRANSACTIONS && LevelRoot(join, txids) == zero && forged != txids[0]
    ensures var f := ExtractAll(join, zero, |txids|, Tree(seq(Height(|txids|) + 16, i => true), [forged]));
            && f.root == LevelRoot(join, txids) && f.matches == [forged] && f.indices == [0]
            && !Truthful(txids, f.matches, f.indices, 0, |txids|)
  {
    hide Width, LevelRoot, Extract;
    var n := |txids|;
    ForgedFirst(join, zero, n, Tree(seq(Height(n) + 16, i => true), [forged]), Height(n), 0);
    WidthIs(n, 0, 1);
  }

  // ---- the round trip ----

  function Pick<T>(xs: seq<T>, at: seq<nat>): (r: seq<T>)
    requires InBounds(xs, at)
    ensures |r| == |at| && forall i | 0 <= i < |r| :: r[i] == xs[at[i]]
  {
    seq(|at|, i requires 0 <= i < |at| => xs[at[i]])
  }

  predicate InBounds<T>(xs: seq<T>, at: seq<nat>) {
    forall i | 0 <= i < |at| :: at[i] < |xs|
  }

  ghost predicate Contains<T>(xs: seq<T>, at: nat, part: seq<T>) {
    at + |part| <= |xs| && xs[at..at + |part|] == part
  }

  lemma ContainsParts<T>(xs: seq<T>, at: nat, a: seq<T>, b: seq<T>)
    requires Contains(xs, at, a + b)
    ensures Contains(xs, at, a) && Contains(xs, at + |a|, b)
  {
    var s := xs[at..at + |a + b|];
    assert s[..|a|] == a && s[|a|..] == b;
    assert s[..|a|] == xs[at..at + |a|] && s[|a|..] == xs[at + |a|..at + |a + b|];
  }

  lemma ContainsFirst<T>(xs: seq<T>, at: nat, part: seq<T>)
    requires Contains(xs, at, part) && part != []
    ensures at < |xs| && xs[at] == part[0]
  {
    assert xs[at..at + |part|][0] == part[0];
  }

  lemma BelowInBounds<T>(txids: seq<T>, mask: seq<bool>, height: nat, pos: nat)
    requires |mask| == |txids| && pos < Width(|mask|, height)
    ensures InBounds(txids, Below(mask, height, pos))
  {
    InRange(|mask|, height, pos);
    MarkedIs(mask, First(height, pos), Last(|mask|, height, pos));
    var at := Below(mask, height, pos);
    forall i | 0 <= i < |at| ensures at[i] < |txids|
    {
      assert at[i] in at;
    }
  }

  /** The extractor's view of a node the builder emitted. */
  ghost function Replayed<T>(join: (T, T) -> T, txids: seq<T>, mask: seq<bool>, height: nat, pos: nat, b: nat,
                             k: nat): Found<T>
    requires |mask| == |txids| && pos < Width(|txids|, height)
  {
    BelowInBounds(txids, mask, height, pos);
    var t := Build(join, txids, mask, height, pos);
    var at := Below(mask, height, pos);
    Found(CalcHash(join, height, pos, txids), b + |t.bits|, k + |t.hashes|, Pick(txids, at), at, false)
  }

  lemma PickJoin<T>(xs: seq<T>, a: seq<nat>, b: seq<nat>)
    requires InBounds(xs, a) && InBounds(xs, b)
    ensures InBounds(xs, a + b) && Pick(xs, a + b) == Pick(xs, a) + Pick(xs, b)
  {
  }

  /** Where a descended node's own bit and its children's parts lie. */
  lemma BuildParts<T>(join: (T, T) -> T, txids: seq<T>, mask: seq<bool>, t: Tree<T>, height: nat, pos: nat, b: nat,
                      k: nat)
    requires |mask| == |txids| && height > 0 && pos < Width(|txids|, height) && Below(mask, height, pos) != []
    requires Contains(t.bits, b, Build(join, txids, mask, height, pos).bits)
    requires Contains(t.hashes, k, Build(join, txids, mask, height, pos).hashes)
    ensures b < |t.bits| && t.bits[b] && pos * 2 < Width(|txids|, height - 1)
    ensures var left := Build(join, txids, mask, height - 1, pos * 2);
            && Contains(t.bits, b + 1, left.bits) && Contains(t.hashes, k, left.hashes)
            && (pos * 2 + 1 < Width(|txids|, height - 1) ==>
                  var right := Build(join, txids, mask, height - 1, pos * 2 + 1);
                  Contains(t.bits, b + 1 + |left.bits|, right.bits) &&
                  Contains(t.hashes, k + |left.hashes|, right.hashes))
  {
    hide Width, Contains, Below, CalcHash, Build;
    var node := Build(join, txids, mask, height, pos);
    BuildNode(join, txids, mask, height, pos);
    ContainsFirst(t.bits, b, node.bits);
    var left := Build(join, txids, mask, height - 1, pos * 2);
    if pos * 2 + 1 < Width(|txids|, height - 1) {
      var right := Build(join, txids, mask, height - 1, pos * 2 + 1);
      assert node.bits == [true] + (left.bits + right.bits);
      ContainsParts(t.bits, b, [true], left.bits + right.bits);
      ContainsParts(t.bits, b + 1, left.bits, right.bits);
      ContainsParts(t.hashes, k, left.hashes, right.hashes);
    } else {
      ContainsParts(t.bits, b, [true], left.bits);
    }
  }

  /** A replayed node is its replayed children put together. */
  lemma ReplayedParts<T(!new)>(join: (T, T) -> T, txids: seq<T>, mask: seq<bool>, height: nat, pos: nat, b: nat, k: nat)
    requires Injective(join) && Distinct(txids)
    requires |mask| == |txids| && height > 0 && pos < Width(|txids|, height) && Below(mask, height, pos) != []
    ensures pos * 2 < Width(|txids|, height - 1)
    ensures var node, left := Replayed(join, txids, mask, height, pos, b, k),
            Replayed(join, txids, mask, height - 1, pos * 2, b + 1, k);
            && (pos * 2 + 1 < Width(|txids|, height - 1) ==>
                  var right := Replayed(join, txids, mask, height - 1, pos * 2 + 1, left.bitsUsed, left.hashesUsed);
                  node == Both(join, left, right))
            && (pos * 2 + 1 >= Width(|txids|, height - 1) ==> node == left.(root := join(left.root, left.root)))
  {
    hide Width, Below, Distinct, Injective, Pick;
    Children(|txids|, height - 1, pos);
    BelowSplit(mask, height - 1, pos);
    BelowInBounds(txids, mask, height, pos);
    BelowInBounds(txids, mask, height - 1, pos * 2);
    if pos * 2 + 1 < Width(|txids|, height - 1) {
      BelowInBounds(txids, mask, height - 1, pos * 2 + 1);
      NodesDiffer(join, height - 1, pos * 2, pos * 2 + 1, txids);
      PickJoin(txids, Below(mask, height - 1, pos * 2), Below(mask, height - 1, pos * 2 + 1));
    }
  }

  /** A node that is not descended into. */
  lemma ReplaysLeaf<T>(join: (T, T) -> T, zero: T, txids: seq<T>, mask: seq<bool>, t: Tree<T>, height: nat, pos: nat,
                       b: nat, k: nat)
    requires |mask| == |txids| && pos < Width(|txids|, height) && (height == 0 || Below(mask, height, pos) == [])
    requires Contains(t.bits, b, Build(join, txids, mask, height, pos).bits)
    requires Contains(t.hashes, k, Build(join, txids, mask, height, pos).hashes)
    ensures Extract(join, zero, |txids|, t, height, pos, b, k) == Replayed(join, txids, mask, height, pos, b, k)
  {
    hide Width, Contains, Below, Pick;
    var node := Build(join, txids, mask, height, pos);
    ContainsFirst(t.bits, b, node.bits);
    ContainsFirst(t.hashes, k, node.hashes);
    BelowInBounds(txids, mask, height, pos);
    LeafBelow(mask, pos);
    PickFew(txids, Below(mask, height, pos));
  }

  /** Extraction consumes exactly what the builder emitted for a node and recovers its hash and matches. */
  lemma {:induction false} Replays<T(!new)>(join: (T, T) -> T, zero: T, txids: seq<T>, mask: seq<bool>, t: Tree<T>,
                                     height: nat, pos: nat, b: nat, k: nat)
    requires Injective(join) && Distinct(txids) && |mask| == |txids| && pos < Width(|txids|, height)
    requires Contains(t.bits, b, Build(join, txids, mask, height, pos).bits)
    requires Contains(t.hashes, k, Build(join, txids, mask, height, pos).hashes)
    ensures Extract(join, zero, |txids|, t, height, pos, b, k) == Replayed(join, txids, mask, height, pos, b, k)
    decreases height
  {
    hide Width, Contains, Below, Distinct, Injective, Pick, Build, CalcHash, Both;
    if height == 0 || Below(mask, height, pos) == [] {
      ReplaysLeaf(join, zero, txids, mask, t, height, pos, b, k);
    } else {
      BuildParts(join, txids, mask, t, height, pos, b, k);
      ReplayedParts(join, txids, mask, height, pos, b, k);
      var left := Build(join, txids, mask, height - 1, pos * 2);
      Replays(join, zero, txids, mask, t, height - 1, pos * 2, b + 1, k);
      if pos * 2 + 1 < Width(|txids|, height - 1) {
        Replays(join, zero, txids, mask, t, height - 1, pos * 2 + 1, b + 1 + |left.bits|, k + |left.hashes|);
      }
    }
  }

  lemma LeafBelow(mask: seq<bool>, pos: nat)
    ensures pos < Width(|mask|, 0) <==> pos < |mask|
    ensures pos < |mask| ==> Below(mask, 0, pos) == if mask[pos] then [pos] else []
  {
    WidthIs(|mask|, 0, pos);
    if pos < |mask| {
      InRange(|mask|, 0, pos);
      assert Marked(mask, pos, pos) == [];
    }
  }

  lemma PickFew<T>(xs: seq<T>, at: seq<nat>)
    requires InBounds(xs, at)
    ensures at == [] ==> Pick(xs, at) == []
    ensures |at| == 1 ==> Pick(xs, at) == [xs[at[0]]]
  {
  }

  ghost function Whole<T>(join: (T, T) -> T, txids: seq<T>, mask: seq<bool>): Tree<T>
    requires |mask| == |txids| > 0
  {
    OneRoot(|txids|);
    Build(join, txids, mask, Height(|txids|), 0)
  }

  /**
   * Round trip: for distinct ids the tree built for a mask, padded with up to seven further bits, extracts to the
   * Merkle root and exactly the masked ids with their positions in order. It fits the size rules of the format.
   */
  lemma RoundTrip<T(!new)>(join: (T, T) -> T, zero: T, txids: seq<T>, mask: seq<bool>, padding: seq<bool>)
    requires Injective(join) && Distinct(txids) && |mask| == |txids| && 0 < |txids| <= MAX_TRANSACTIONS
    requires var w := Whole(join, txids, mask); (|w.bits| + |padding| + 7) / 8 == (|w.bits| + 7) / 8
    ensures var w := Whole(join, txids, mask);
            var f := ExtractAll(join, zero, |txids|, Tree(w.bits + padding, w.hashes));
            && f.root == LevelRoot(join, txids) && !f.bad
            && f.indices == Marked(mask, 0, |mask|)
            && InBounds(txids, f.indices) && f.matches == Pick(txids, f.indices)
  {
    hide Width, First, Last, Contains, Distinct, Injective, Pick, LevelRoot, Extract, Build, CalcHash, Marked;
    var n, w := |txids|, Whole(join, txids, mask);
    OneRoot(n);
    TopIsRoot(join, Height(n), txids);
    RootRange(n);
    HashCount(join, txids, mask, Height(n), 0);
    BelowInBounds(txids, mask, Height(n), 0);
    var t := Tree(w.bits + padding, w.hashes);
    ContainsPrefix(w.bits, padding);
    ContainsPrefix(w.hashes, []);
    assert w.hashes + [] == w.hashes;
    Replays(join, zero, txids, mask, t, Height(n), 0, 0, 0);
  }

  lemma ContainsPrefix<T>(part: seq<T>, rest: seq<T>)
    ensures Contains(part + rest, 0, part)
  {
  }

  /** The stored hashes: at most one for each transaction, and at most one more than a path for each match. */
  lemma WholeHashCount<T>(join: (T, T) -> T, txids: seq<T>, mask: seq<bool>)
    requires |mask| == |txids| > 0
    ensures var w := Whole(join, txids, mask);
            |w.hashes| <= |txids| && |w.hashes| <= 1 + |Marked(mask, 0, |mask|)| * Height(|txids|)
  {
    hide Width, First, Last, Build, Marked;
    OneRoot(|txids|);
    RootRange(|txids|);
    HashCount(join, txids, mask, Height(|txids|), 0);
  }
}
