/** The Merkle tree over the transaction ids of a block, computed node by node and level by level. */
module MerkleTree {
  import opened Powers

  /** The number of nodes at a height. */
  function Width(n: nat, height: nat): nat {
    (n + Pow2(height) - 1) / Pow2(height)
  }

  /** A position is inside the tree exactly when its first leaf is. */
  lemma WidthIs(n: nat, height: nat, pos: nat)
    ensures pos < Width(n, height) <==> pos * Pow2(height) < n
  {
    var m, q := Pow2(height), Width(n, height);
    assert n + m - 1 == q * m + (n + m - 1) % m;
    if pos < q {
      MulLe(pos, q - 1, m);
      assert (q - 1) * m == q * m - m;
    } else {
      MulLe(q, pos, m);
    }
  }

  function First(height: nat, pos: nat): nat {
    pos * Pow2(height)
  }

  /** One past the last leaf below a node. */
  function Last(n: nat, height: nat, pos: nat): nat {
    if n < First(height, pos + 1) then n else First(height, pos + 1)
  }

  lemma ChildFirst(height: nat, pos: nat)
    ensures First(height + 1, pos) == First(height, pos * 2)
  {
    MulAssoc(pos, 2, Pow2(height));
  }

  /** The leaves below a node are those below its left child, then those below its right child if there is one. */
  lemma Children(n: nat, height: nat, pos: nat)
    requires pos < Width(n, height + 1)
    ensures pos * 2 < Width(n, height)
    ensures First(height, pos * 2) == First(height + 1, pos) < Last(n, height + 1, pos) <= n
    ensures pos * 2 + 1 < Width(n, height) ==>
              First(height, pos * 2 + 1) == Last(n, height, pos * 2) &&
              Last(n, height, pos * 2 + 1) == Last(n, height + 1, pos)
    ensures pos * 2 + 1 >= Width(n, height) ==> Last(n, height, pos * 2) == Last(n, height + 1, pos)
  {
    WidthIs(n, height + 1, pos);
    WidthIs(n, height, pos * 2);
    WidthIs(n, height, pos * 2 + 1);
    ChildFirst(height, pos);
    ChildFirst(height, pos + 1);
    assert First(height, pos * 2 + 2) == First(height, pos * 2 + 1) + Pow2(height);
    assert First(height + 1, pos + 1) == First(height + 1, pos) + Pow2(height + 1);
  }

  /** The hash of one node; a last node without a right sibling is paired with itself. */
  function CalcHash<T>(join: (T, T) -> T, height: nat, pos: nat, txids: seq<T>): T
    requires pos < Width(|txids|, height)
  {
    WidthIs(|txids|, height, pos);
    if height == 0 then txids[pos]
    else
      Children(|txids|, height - 1, pos);
      var left := CalcHash(join, height - 1, pos * 2, txids);
      var right := if pos * 2 + 1 < Width(|txids|, height - 1) then CalcHash(join, height - 1, pos * 2 + 1, txids)
        else left;
      join(left, right)
  }

  ghost predicate Injective<T(!new)>(join: (T, T) -> T) {
    forall a, b, c, d :: join(a, b) == join(c, d) ==> a == c && b == d
  }

  ghost predicate Distinct<T>(xs: seq<T>) {
    forall i: nat, j: nat | i < j < |xs| :: xs[i] != xs[j]
  }

  /** With distinct ids, no two nodes of one height have the same hash. */
  lemma {:induction false} NodesDiffer<T(!new)>(join: (T, T) -> T, height: nat, p: nat, q: nat, txids: seq<T>)
    requires Injective(join) && Distinct(txids) && p < q < Width(|txids|, height)
    ensures CalcHash(join, height, p, txids) != CalcHash(join, height, q, txids)
    decreases height
  {
    if height == 0 {
      WidthIs(|txids|, 0, q);
    } else {
      Children(|txids|, height - 1, p);
      Children(|txids|, height - 1, q);
      NodesDiffer(join, height - 1, p * 2, q * 2, txids);
    }
  }

  // ---- the height, and the root level by level ----

  ghost predicate IsHeight(n: nat, height: nat) {
    Width(n, height) <= 1 && forall j: nat | j < height :: Width(n, j) > 1
  }

  function HeightFrom(n: nat, height: nat): (r: nat)
    requires forall j: nat | j < height :: Width(n, j) > 1
    ensures IsHeight(n, r) && r >= height
    decreases n - height
  {
    if Width(n, height) <= 1 then height
    else
      WidthIs(n, height, 1);
      Pow2Above(height);
      HeightFrom(n, height + 1)
  }

  function Height(n: nat): (r: nat)
    ensures IsHeight(n, r)
  {
    HeightFrom(n, 0)
  }

  lemma HeightUnique(n: nat, a: nat, b: nat)
    requires IsHeight(n, a) && IsHeight(n, b)
    ensures a == b
  {
  }

  lemma OneRoot(n: nat)
    requires n > 0
    ensures Width(n, Height(n)) == 1
  {
    WidthIs(n, Height(n), 0);
  }

  /** The next level up: neighbours joined in pairs, the last one with itself when it has no neighbour. */
  function Paired<T>(join: (T, T) -> T, level: seq<T>): (r: seq<T>)
    ensures |r| == (|level| + 1) / 2
  {
    seq((|level| + 1) / 2, i requires 0 <= i < (|level| + 1) / 2 =>
      join(level[2 * i], if 2 * i + 1 < |level| then level[2 * i + 1] else level[2 * i]))
  }

  /** The Merkle root by its level-by-level definition. */
  function LevelRoot<T>(join: (T, T) -> T, level: seq<T>): T
    requires level != []
    decreases |level|
  {
    if |level| == 1 then level[0] else LevelRoot(join, Paired(join, level))
  }

  lemma HalvesAt(n: nat, height: nat, pos: nat)
    ensures pos < Width(n, height + 1) <==> pos < Width((n + 1) / 2, height)
  {
    hide Width;
    WidthIs(n, height + 1, pos);
    WidthIs((n + 1) / 2, height, pos);
    MulAssoc(2, pos, Pow2(height));
    assert pos * Pow2(height + 1) == 2 * (pos * Pow2(height));
  }

  lemma WidthHalves(n: nat, height: nat)
    ensures Width(n, height + 1) == Width((n + 1) / 2, height)
  {
    hide Width;
    HalvesAt(n, height, Width(n, height + 1));
    HalvesAt(n, height, Width((n + 1) / 2, height));
  }

  /** A node over the ids is the same node, one height lower, over the paired level. */
  lemma {:induction false} NodeOfPaired<T>(join: (T, T) -> T, height: nat, pos: nat, txids: seq<T>)
    requires pos < Width(|txids|, height + 1)
    ensures pos < Width(|Paired(join, txids)|, height)
    ensures CalcHash(join, height + 1, pos, txids) == CalcHash(join, height, pos, Paired(join, txids))
    decreases height
  {
    hide Width, First, Last;
    WidthHalves(|txids|, height);
    Children(|txids|, height, pos);
    if height == 0 {
      WidthIs(|txids|, 0, pos * 2);
      WidthIs(|txids|, 0, pos * 2 + 1);
    } else {
      WidthHalves(|txids|, height - 1);
      Children(|Paired(join, txids)|, height - 1, pos);
      NodeOfPaired(join, height - 1, pos * 2, txids);
      if pos * 2 + 1 < Width(|txids|, height) {
        NodeOfPaired(join, height - 1, pos * 2 + 1, txids);
      }
    }
  }

  lemma HeightOfPaired(n: nat, height: nat)
    requires n > 0 && IsHeight(n, height)
    ensures Width(n, height) == 1 && (height == 0 <==> n == 1)
    ensures height > 0 ==> IsHeight((n + 1) / 2, height - 1)
  {
    hide Width;
    WidthIs(n, height, 0);
    WidthIs(n, 0, 1);
    if height > 0 {
      WidthHalves(n, height - 1);
      var m := (n + 1) / 2;
      forall j: nat | j < height - 1 ensures Width(m, j) > 1 {
        WidthHalves(n, j);
      }
    }
  }

  /** The node at the top is the Merkle root. */
  lemma {:induction false} TopIsRoot<T>(join: (T, T) -> T, height: nat, txids: seq<T>)
    requires txids != [] && IsHeight(|txids|, height)
    ensures Width(|txids|, height) == 1 && CalcHash(join, height, 0, txids) == LevelRoot(join, txids)
    decreases height
  {
    hide Width, IsHeight;
    HeightOfPaired(|txids|, height);
    if height > 0 {
      NodeOfPaired(join, height - 1, 0, txids);
      TopIsRoot(join, height - 1, Paired(join, txids));
    }
  }
}
