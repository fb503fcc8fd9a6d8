/** The partial Merkle tree object: built from ids and a mask, written to bytes, read back, and asked for its matches.
    */
module MerkleBlock {
  import opened Powers
  import opened MerkleTree
  import opened PartialMerkle

  // ---- flag bits in bytes, least significant bit first ----

  function Bit(k: nat): bv8
    requires k < 8
  {
    1 << k
  }

  predicate Has(x: bv8, k: nat)
    requires k < 8
  {
    x & Bit(k) != 0
  }

  /** Setting one bit of a byte sets that bit and no other. */
  lemma SetBit(x: bv8, k: nat, j: nat)
    requires k < 8 && j < 8
    ensures Has(x | Bit(k), j) <==> j == k || Has(x, j)
  {
    assert Bit(0) == 1 && Bit(1) == 2 && Bit(2) == 4 && Bit(3) == 8;
    assert Bit(4) == 16 && Bit(5) == 32 && Bit(6) == 64 && Bit(7) == 128;
  }

  /** Bit `p` of a byte string. */
  predicate BitAt(bytes: seq<bv8>, p: nat)
    requires p < 8 * |bytes|
  {
    Has(bytes[p / 8], p % 8)
  }

  function BitsOf(bytes: seq<bv8>): (r: seq<bool>)
    ensures |r| == 8 * |bytes|
  {
    seq(8 * |bytes|, p requires 0 <= p < 8 * |bytes| => BitAt(bytes, p))
  }

  /** The bits in order, then nothing up to the end of the last byte. */
  ghost predicate Packs(bytes: seq<bv8>, bits: seq<bool>, done: nat)
    requires done <= |bits|
  {
    && |bytes| == (|bits| + 7) / 8
    && forall p: nat | p < 8 * |bytes| :: BitAt(bytes, p) <==> p < done && bits[p]
  }

  lemma SamePlace(p: nat, q: nat)
    ensures p / 8 == q / 8 && p % 8 == q % 8 <==> p == q
  {
  }

  lemma SetBitAt(bytes: seq<bv8>, p: nat, q: nat)
    requires p < 8 * |bytes| && q < 8 * |bytes|
    ensures BitAt(bytes[p / 8 := bytes[p / 8] | Bit(p % 8)], q) <==> q == p || BitAt(bytes, q)
  {
    hide Has, Bit;
    SamePlace(p, q);
    if q / 8 == p / 8 {
      SetBit(bytes[p / 8], p % 8, q % 8);
    }
  }

  lemma PackOne(bytes: seq<bv8>, bits: seq<bool>, p: nat)
    requires p < |bits| && Packs(bytes, bits, p)
    ensures p / 8 < |bytes|
    ensures Packs(if bits[p] then bytes[p / 8 := bytes[p / 8] | Bit(p % 8)] else bytes, bits, p + 1)
  {
    hide BitAt, Bit;
    var after := if bits[p] then bytes[p / 8 := bytes[p / 8] | Bit(p % 8)] else bytes;
    forall q: nat | q < 8 * |after| ensures BitAt(after, q) <==> q < p + 1 && bits[q]
    {
      assert BitAt(bytes, q) <==> q < p && bits[q];
      SetBitAt(bytes, p, q);
    }
  }

  lemma NothingSet(n: nat, bits: seq<bool>)
    requires n == (|bits| + 7) / 8
    ensures Packs(seq(n, i => 0), bits, 0)
  {
    var bytes: seq<bv8> := seq(n, i => 0);
    forall p: nat | p < 8 * |bytes| ensures !BitAt(bytes, p)
    {
      assert bytes[p / 8] & Bit(p % 8) == 0;
    }
  }

  method Pack(bits: seq<bool>) returns (bytes: seq<bv8>)
    ensures Packs(bytes, bits, |bits|)
  {
    hide Packs, BitAt;
    bytes := seq((|bits| + 7) / 8, i => 0);
    NothingSet((|bits| + 7) / 8, bits);
    for p := 0 to |bits|
      invariant Packs(bytes, bits, p)
    {
      PackOne(bytes, bits, p);
      if bits[p] {
        bytes := bytes[p / 8 := bytes[p / 8] | Bit(p % 8)];
      }
    }
  }

  method Unpack(bytes: seq<bv8>) returns (bits: seq<bool>)
    ensures bits == BitsOf(bytes)
  {
    bits := seq(8 * |bytes|, i => false);
    for p := 0 to |bits|
      invariant |bits| == 8 * |bytes| && bits[..p] == BitsOf(bytes)[..p]
    {
      bits := bits[p := bytes[p / 8] & Bit(p % 8) != 0];
      assert BitsOf(bytes)[p] == BitAt(bytes, p);
    }
  }

  /** Packing and unpacking gives the bits back, followed by fewer than eight clear ones. */
  lemma Unpacked(bytes: seq<bv8>, bits: seq<bool>) returns (padding: seq<bool>)
    requires Packs(bytes, bits, |bits|)
    ensures BitsOf(bytes) == bits + padding && |padding| < 8
    ensures (|bits| + |padding| + 7) / 8 == (|bits| + 7) / 8
  {
    padding := seq(8 * |bytes| - |bits|, i => false);
    var all, again := bits + padding, BitsOf(bytes);
    forall p: nat | p < |all| ensures again[p] == all[p]
    {
      assert BitAt(bytes, p) <==> p < |bits| && bits[p];
    }
  }

  // ---- the object ----

  datatype Bytes<T> = Bytes(transactions: nat, hashes: seq<T>, flags: seq<bv8>)

  class PartialMerkleTree<T(==, !new)> {
    const join: (T, T) -> T
    const zero: T
    var transactions: nat
    var bits: seq<bool>
    var hashes: seq<T>
    var bad: bool

    constructor Default(j: (T, T) -> T, z: T)
      ensures transactions == 0 && bad && join == j && zero == z
    {
      join, zero, transactions, bits, hashes, bad := j, z, 0, [], [], true;
    }

    /** A tree for a nonempty list of ids and a mask over it. */
    constructor FromMask(j: (T, T) -> T, z: T, txids: seq<T>, mask: seq<bool>)
      requires |mask| == |txids| > 0
      ensures join == j && zero == z && transactions == |txids| && !bad
      ensures Tree(bits, hashes) == Whole(j, txids, mask)
    {
      join, zero, transactions, bits, hashes, bad := j, z, |txids|, [], [], false;
      new;
      var height := TreeHeight();
      OneRoot(|txids|);
      TraverseAndBuild(height, 0, txids, mask);
    }

    method TreeHeight() returns (height: nat)
      ensures height == Height(transactions)
    {
      hide Width;
      height := 0;
      while Width(transactions, height) > 1
        invariant forall j: nat | j < height :: Width(transactions, j) > 1
        decreases transactions - height
      {
        WidthIs(transactions, height, 1);
        Pow2Above(height);
        height := height + 1;
      }
      HeightUnique(transactions, height, Height(transactions));
    }

    method TraverseAndBuild(height: nat, pos: nat, txids: seq<T>, mask: seq<bool>)
      requires |mask| == |txids| == transactions && pos < Width(transactions, height)
      modifies this`bits, this`hashes
      ensures var t := Build(join, txids, mask, height, pos);
              bits == old(bits) + t.bits && hashes == old(hashes) + t.hashes
      decreases height
    {
      hide Width, First, Last, CalcHash, Marked, Build;
      BuildNode(join, txids, mask, height, pos);
      InRange(transactions, height, pos);
      var first, last := First(height, pos), Last(transactions, height, pos);
      MarkedNone(mask, first);
      var wanted, p := false, first;
      while p < last
        invariant first <= p <= last && wanted == (Marked(mask, first, p) != [])
        invariant bits == old(bits) && hashes == old(hashes)
      {
        MarkedNext(mask, first, p);
        wanted := wanted || mask[p];
        p := p + 1;
      }
      bits := bits + [wanted];
      if height == 0 || !wanted {
        hashes := hashes + [CalcHash(join, height, pos, txids)];
      } else {
        Children(transactions, height - 1, pos);
        TraverseAndBuild(height - 1, pos * 2, txids, mask);
        if pos * 2 + 1 < Width(transactions, height - 1) {
          TraverseAndBuild(height - 1, pos * 2 + 1, txids, mask);
        }
      }
    }

    method TraverseAndExtract(height: nat, pos: nat, b: nat, k: nat, matches: seq<T>, indices: seq<nat>)
      returns (root: T, b': nat, k': nat, matches': seq<T>, indices': seq<nat>)
      modifies this`bad
      ensures var f := Extract(join, zero, transactions, Tree(bits, hashes), height, pos, b, k);
              && root == f.root && b' == f.bitsUsed && k' == f.hashesUsed
              && matches' == matches + f.matches && indices' == indices + f.indices
              && (bad <==> old(bad) || f.bad)
      decreases height
    {
      hide Width, Extract;
      ghost var t := Tree(bits, hashes);
      if b >= |bits| {
        ExtractLeaf(join, zero, transactions, t, height, pos, b, k);
        bad := true;
        return zero, b, k, matches, indices;
      }
      var wanted := bits[b];
      b' := b + 1;
      if height == 0 || !wanted {
        ExtractLeaf(join, zero, transactions, t, height, pos, b, k);
        if k >= |hashes| {
          bad := true;
          return zero, b', k, matches, indices;
        }
        root, k', matches', indices' := hashes[k], k + 1, matches, indices;
        if height == 0 && wanted {
          matches', indices' := matches + [root], indices + [pos];
        }
      } else {
        ExtractNode(join, zero, transactions, t, height, pos, b, k);
        var left, right;
        left, b', k', matches', indices' := TraverseAndExtract(height - 1, pos * 2, b', k, matches, indices);
        if pos * 2 + 1 < Width(transactions, height - 1) {
          right, b', k', matches', indices' := TraverseAndExtract(height - 1, pos * 2 + 1, b', k', matches', indices');
          if right == left {
            bad := true;
          }
        } else {
          right := left;
        }
        root := join(left, right);
      }
    }

    /** The matched list is emptied first; the index list the caller passes in is only appended to. */
    method ExtractMatches(indices: seq<nat>) returns (root: T, matches: seq<T>, indices': seq<nat>)
      modifies this`bad
      ensures var f := ExtractAll(join, zero, transactions, Tree(bits, hashes));
              && matches == f.matches && indices' == indices + f.indices
              && root == (if old(bad) then zero else f.root) && (bad <==> old(bad) || f.bad)
    {
      hide Extract;
      matches, indices' := [], indices;
      if transactions == 0 || transactions > MAX_TRANSACTIONS || |hashes| > transactions || |bits| < |hashes| {
        return zero, matches, indices';
      }
      var height := TreeHeight();
      var b, k;
      root, b, k, matches, indices' := TraverseAndExtract(height, 0, 0, 0, matches, indices');
      if bad || (b + 7) / 8 != (|bits| + 7) / 8 || k != |hashes| {
        root := zero;
      }
    }

    method Write() returns (s: Bytes<T>)
      ensures s.transactions == transactions && s.hashes == hashes && Packs(s.flags, bits, |bits|)
    {
      var flags := Pack(bits);
      s := Bytes(transactions, hashes, flags);
    }

    method Read(s: Bytes<T>)
      modifies this
      ensures transactions == s.transactions && hashes == s.hashes && bits == BitsOf(s.flags) && !bad
    {
      transactions, hashes := s.transactions, s.hashes;
      bits := Unpack(s.flags);
      bad := false;
    }
  }

  lemma ExtractLeaf<T>(join: (T, T) -> T, zero: T, n: nat, t: Tree<T>, height: nat, pos: nat, b: nat, k: nat)
    requires b >= |t.bits| || height == 0 || !t.bits[b]
    ensures Extract(join, zero, n, t, height, pos, b, k) ==
      if b >= |t.bits| then Found(zero, b, k, [], [], true)
      else if k >= |t.hashes| then Found(zero, b + 1, k, [], [], true)
      else if t.bits[b] then Found(t.hashes[k], b + 1, k + 1, [t.hashes[k]], [pos], false)
      else Found(t.hashes[k], b + 1, k + 1, [], [], false)
  {
  }

  lemma ExtractNode<T>(join: (T, T) -> T, zero: T, n: nat, t: Tree<T>, height: nat, pos: nat, b: nat, k: nat)
    requires b < |t.bits| && height > 0 && t.bits[b]
    ensures var left := Extract(join, zero, n, t, height - 1, pos * 2, b + 1, k);
            Extract(join, zero, n, t, height, pos, b, k) ==
              if pos * 2 + 1 < Width(n, height - 1) then
                Both(join, left, Extract(join, zero, n, t, height - 1, pos * 2 + 1, left.bitsUsed, left.hashesUsed))
              else left.(root := join(left.root, left.root))
  {
  }

  lemma MarkedNone(mask: seq<bool>, a: nat)
    requires a <= |mask|
    ensures Marked(mask, a, a) == []
  {
  }

  lemma MarkedNext(mask: seq<bool>, a: nat, p: nat)
    requires a <= p < |mask|
    ensures Marked(mask, a, p + 1) != [] <==> Marked(mask, a, p) != [] || mask[p]
  {
  }

  /** Built, written to bytes, read into another object and extracted: the Merkle root and the masked ids in order. */
  method ThroughBytes<T(==, !new)>(join: (T, T) -> T, zero: T, txids: seq<T>, mask: seq<bool>)
    returns (root: T, matches: seq<T>, indices: seq<nat>)
    requires Injective(join) && Distinct(txids) && |mask| == |txids| && 0 < |txids| <= MAX_TRANSACTIONS
    ensures root == LevelRoot(join, txids) && indices == Marked(mask, 0, |mask|)
    ensures |matches| == |indices| && forall i | 0 <= i < |indices| ::
              indices[i] < |txids| && matches[i] == txids[indices[i]]
  {
    hide Packs, ExtractAll, Injective, Distinct, Whole, LevelRoot, Marked;
    var sender := new PartialMerkleTree.FromMask(join, zero, txids, mask);
    var s := sender.Write();
    var receiver := new PartialMerkleTree.Default(join, zero);
    receiver.Read(s);
    ghost var padding := Unpacked(s.flags, sender.bits);
    RoundTrip(join, zero, txids, mask, padding);
    root, matches, indices := receiver.ExtractMatches([]);
  }
}
