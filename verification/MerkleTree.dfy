/** The block's Merkle tree: the flat bottom-up array, the branch of one transaction and
    the check of a branch.  A 256-bit hash is a number, and the hash of two hashes an
    uninterpreted function. */
module MerkleTree {
  import opened Arithmetic

  type Hash = nat
  type HashPair = (Hash, Hash) -> Hash

  /** The number of nodes at height h over n leaves. */
  function CalcTreeWidth(n: nat, h: nat): nat {
    (n + Pow2(h) - 1) / Pow2(h)
  }

  lemma DivBounds(a: nat, b: nat)
    requires 0 < b
    ensures (a / b) * b <= a < (a / b + 1) * b
  {
    assert a == b * (a / b) + a % b;
  }

  /** Node p exists at height h exactly when its first leaf does. */
  lemma NodeExists(n: nat, h: nat, p: nat)
    ensures p < CalcTreeWidth(n, h) <==> p * Pow2(h) < n
  {
    var b := Pow2(h);
    var w := CalcTreeWidth(n, h);
    DivBounds(n + b - 1, b);
    if p < w {
      assert (p + 1) * b <= w * b;
      assert (p + 1) * b == p * b + b;
    } else {
      assert (w + 1) * b <= (p + 1) * b;
      assert (p + 1) * b == p * b + b;
    }
  }

  /** A node exists exactly when its left child does. */
  lemma LeftChildExists(n: nat, h: nat, p: nat)
    ensures p < CalcTreeWidth(n, h + 1) <==> 2 * p < CalcTreeWidth(n, h)
  {
    NodeExists(n, h + 1, p);
    NodeExists(n, h, 2 * p);
    assert p * (2 * Pow2(h)) == 2 * p * Pow2(h);
  }

  /** A level is half as wide as the one below, rounded up. */
  lemma WidthHalves(n: nat, h: nat)
    ensures CalcTreeWidth(n, h + 1) == (CalcTreeWidth(n, h) + 1) / 2
  {
    hide CalcTreeWidth;
    var v := CalcTreeWidth(n, h + 1);
    LeftChildExists(n, h, v);
    if v > 0 {
      LeftChildExists(n, h, v - 1);
    }
  }

  /** The height of the tree over n leaves, counted up from h. */
  function HeightFrom(n: nat, h: nat): (r: nat)
    ensures h <= r && CalcTreeWidth(n, r) <= 1
    ensures forall k :: h <= k < r ==> CalcTreeWidth(n, k) > 1
    decreases CalcTreeWidth(n, h)
  {
    WidthHalves(n, h);
    if CalcTreeWidth(n, h) > 1 then HeightFrom(n, h + 1) else h
  }

  function Height(n: nat): nat {
    HeightFrom(n, 0)
  }

  /** The hash of node pos at height h, computed from the top. */
  function CalcHash(hash: HashPair, txids: seq<Hash>, h: nat, pos: nat): Hash
    requires pos < CalcTreeWidth(|txids|, h)
    decreases h
  {
    if h == 0 then txids[pos]
    else
      WidthHalves(|txids|, h - 1);
      var left := CalcHash(hash, txids, h - 1, 2 * pos);
      var right := if 2 * pos + 1 < CalcTreeWidth(|txids|, h - 1) then CalcHash(hash, txids, h - 1, 2 * pos + 1)
          else left;
      hash(left, right)
  }

  /** The level above: neighbours are hashed, and a last odd one with itself. */
  function NextLevel(hash: HashPair, level: seq<Hash>): (r: seq<Hash>)
    ensures |r| == (|level| + 1) / 2
  {
    seq((|level| + 1) / 2, i requires 0 <= i < (|level| + 1) / 2 =>
      hash(level[2 * i], level[if 2 * i + 1 < |level| then 2 * i + 1 else |level| - 1]))
  }

  /** All levels, bottom-up, one after the other. */
  function Flat(hash: HashPair, level: seq<Hash>): (r: seq<Hash>)
    ensures |level| <= |r|
    decreases |level|
  {
    if |level| <= 1 then level else level + Flat(hash, NextLevel(hash, level))
  }

  /** Where level h of a tree over n leaves starts in the flat array. */
  function Offset(n: nat, h: nat): nat {
    if h == 0 then 0 else n + Offset((n + 1) / 2, h - 1)
  }

  /** One level up the leaves are the parents: the same node, one level lower. */
  lemma {:induction false} CalcHashOfNextLevel(hash: HashPair, level: seq<Hash>, h: nat, pos: nat)
    requires pos < CalcTreeWidth(|level|, h + 1)
    ensures pos < CalcTreeWidth((|level| + 1) / 2, h)
    ensures CalcHash(hash, level, h + 1, pos) == CalcHash(hash, NextLevel(hash, level), h, pos)
    decreases h
  {
    WidthOfNextLevel(|level|, h);
    if h == 0 {
      CalcHashOfParents(hash, level, pos);
    } else {
      var k: nat := h - 1;
      var next := NextLevel(hash, level);
      WidthHalves(|level|, h);
      WidthOfNextLevel(|level|, k);
      var c := if 2 * pos + 1 < CalcTreeWidth(|level|, h) then 2 * pos + 1 else 2 * pos;
      CalcHashUnfolds(hash, level, h, pos);
      CalcHashUnfolds(hash, next, k, pos);
      hide CalcTreeWidth, Pow2, NextLevel, CalcHash;
      assert CalcHash(hash, level, h, 2 * pos) == CalcHash(hash, next, k, 2 * pos) by {
        CalcHashOfNextLevel(hash, level, k, 2 * pos);
      }
      assert CalcHash(hash, level, h, c) == CalcHash(hash, next, k, c) by {
        CalcHashOfNextLevel(hash, level, k, c);
      }
    }
  }

  lemma CalcHashUnfolds(hash: HashPair, txids: seq<Hash>, h: nat, pos: nat)
    requires pos < CalcTreeWidth(|txids|, h + 1)
    ensures 2 * pos < CalcTreeWidth(|txids|, h)
    ensures CalcHash(hash, txids, h + 1, pos) ==
              hash(CalcHash(hash, txids, h, 2 * pos),
                   CalcHash(hash, txids, h, if 2 * pos + 1 < CalcTreeWidth(|txids|, h) then 2 * pos + 1 else 2 * pos))
  {
    WidthHalves(|txids|, h);
  }

  lemma CalcHashOfParents(hash: HashPair, level: seq<Hash>, pos: nat)
    requires pos < CalcTreeWidth(|level|, 1)
    ensures pos < CalcTreeWidth((|level| + 1) / 2, 0)
    ensures CalcHash(hash, level, 1, pos) == CalcHash(hash, NextLevel(hash, level), 0, pos)
  {
    WidthOfNextLevel(|level|, 0);
    WidthOfLeaves(|level|);
    WidthOfLeaves((|level| + 1) / 2);
    hide CalcTreeWidth, Pow2;
    assert CalcHash(hash, level, 0, 2 * pos) == level[2 * pos];
  }

  lemma WidthOfLeaves(n: nat)
    ensures CalcTreeWidth(n, 0) == n
  {
  }

  lemma {:induction false} WidthOfNextLevel(n: nat, h: nat)
    ensures CalcTreeWidth(n, h + 1) == CalcTreeWidth((n + 1) / 2, h)
    decreases h
  {
    WidthHalves(n, h);
    if h > 0 {
      WidthOfNextLevel(n, h - 1);
      WidthHalves((n + 1) / 2, h - 1);
    }
  }

  lemma FlatStartsWithLeaves(hash: HashPair, level: seq<Hash>, p: nat)
    requires p < CalcTreeWidth(|level|, 0)
    ensures p < |Flat(hash, level)| && Flat(hash, level)[p] == CalcHash(hash, level, 0, p)
  {
    WidthOfLeaves(|level|);
  }

  lemma FlatSplits(hash: HashPair, level: seq<Hash>, i: nat)
    requires |level| > 1 && i < |Flat(hash, NextLevel(hash, level))|
    ensures |Flat(hash, level)| == |level| + |Flat(hash, NextLevel(hash, level))|
    ensures Flat(hash, level)[|level| + i] == Flat(hash, NextLevel(hash, level))[i]
  {
    var rest := Flat(hash, NextLevel(hash, level));
    assert Flat(hash, level) == level + rest;
    assert (level + rest)[|level| + i] == rest[i];
  }

  /** The flat array holds at level h, position p exactly the hash computed from the top. */
  lemma {:induction false} FlatHoldsEveryNode(hash: HashPair, level: seq<Hash>, h: nat, p: nat)
    requires p < CalcTreeWidth(|level|, h) && (h == 0 || CalcTreeWidth(|level|, h - 1) > 1)
    ensures Offset(|level|, h) + p < |Flat(hash, level)|
    ensures Flat(hash, level)[Offset(|level|, h) + p] == CalcHash(hash, level, h, p)
    decreases h
  {
    hide CalcTreeWidth, CalcHash, Pow2, Flat;
    if h == 0 {
      FlatStartsWithLeaves(hash, level, p);
    } else {
      var n, next := |level|, NextLevel(hash, level);
      WidthOfNextLevel(n, h - 1);
      WiderBelow(n, h - 1);
      if h > 1 {
        WidthOfNextLevel(n, h - 2);
      }
      FlatHoldsEveryNode(hash, next, h - 1, p);
      CalcHashOfNextLevel(hash, level, h - 1, p);
      FlatSplits(hash, level, Offset(|next|, h - 1) + p);
    }
  }

  lemma {:induction false} WiderBelow(n: nat, h: nat)
    requires CalcTreeWidth(n, h) > 1
    ensures n > 1
  {
    if h > 0 {
      WidthHalves(n, h - 1);
      WiderBelow(n, h - 1);
    }
  }

  // ----- the root -----

  lemma HeightOfNextLevel(n: nat)
    requires n > 1
    ensures Height(n) == Height((n + 1) / 2) + 1
  {
    WidthOfLeaves(n);
    hide CalcTreeWidth;
    var r, r2 := Height(n), Height((n + 1) / 2);
    WidthOfNextLevel(n, r2);
    assert r <= r2 + 1;
    if r < r2 + 1 {
      if r > 0 {
        WidthOfNextLevel(n, r - 1);
      }
      assert false;
    }
  }

  /** There is exactly one node at the top. */
  lemma TopNode(n: nat)
    requires 0 < n
    ensures CalcTreeWidth(n, Height(n)) == 1
  {
    NodeExists(n, Height(n), 0);
  }

  /** The recursively computed root; an empty block's root is zero. */
  function MerkleRoot(hash: HashPair, txids: seq<Hash>): Hash {
    if txids == [] then 0
    else
      TopNode(|txids|);
      CalcHash(hash, txids, Height(|txids|), 0)
  }

  /** Building one level does not change the root. */
  lemma RootOfNextLevel(hash: HashPair, level: seq<Hash>)
    requires |level| > 1
    ensures MerkleRoot(hash, NextLevel(hash, level)) == MerkleRoot(hash, level)
  {
    HeightOfNextLevel(|level|);
    TopNode(|level|);
    CalcHashOfNextLevel(hash, level, Height((|level| + 1) / 2), 0);
  }

  lemma RootOfOne(hash: HashPair, level: seq<Hash>)
    requires |level| == 1
    ensures MerkleRoot(hash, level) == level[0]
  {
    WidthOfLeaves(1);
    assert Height(1) == 0;
  }

  /** The last entry of the flat array is the recursively computed root. */
  lemma {:induction false} FlatEndsWithRoot(hash: HashPair, level: seq<Hash>)
    requires level != []
    ensures Flat(hash, level)[|Flat(hash, level)| - 1] == MerkleRoot(hash, level)
    decreases |level|
  {
    if |level| == 1 {
      RootOfOne(hash, level);
    } else {
      hide Flat, MerkleRoot;
      FlatEndsWithRoot(hash, NextLevel(hash, level));
      RootOfNextLevel(hash, level);
      FlatSplits(hash, level, |Flat(hash, NextLevel(hash, level))| - 1);
    }
  }

  /** A level above holds the hash of every two neighbours, the left one first, and of a last odd one with itself; the
      flat array is the leaves and then that of the level above. */
  lemma LevelIs(hash: HashPair, level: seq<Hash>, i: nat)
    ensures 2 * i + 1 < |level| ==>
              i < |NextLevel(hash, level)| && NextLevel(hash, level)[i] == hash(level[2 * i], level[2 * i + 1])
    ensures 2 * i + 1 == |level| ==>
              i + 1 == |NextLevel(hash, level)| && NextLevel(hash, level)[i] == hash(level[2 * i], level[2 * i])
    ensures |level| > 1 ==> Flat(hash, level) == level + Flat(hash, NextLevel(hash, level))
    ensures |level| <= 1 ==> Flat(hash, level) == level
  {
  }

  /** The roots of up to four leaves. */
  lemma RootsAre(hash: HashPair, a: Hash, b: Hash, c: Hash, d: Hash)
    ensures MerkleRoot(hash, []) == 0 && MerkleRoot(hash, [a]) == a && MerkleRoot(hash, [a, b]) == hash(a, b)
    ensures MerkleRoot(hash, [a, b, c]) == hash(hash(a, b), hash(c, c))
    ensures MerkleRoot(hash, [a, b, c, d]) == hash(hash(a, b), hash(c, d))
  {
    hide *;
    EmptyRoot(hash);
    RootOfOne(hash, [a]);
    RootOfTwo(hash, a, b);
    RootOfTwo(hash, hash(a, b), hash(c, c));
    RootOfTwo(hash, hash(a, b), hash(c, d));
    RootOfNextLevel(hash, [a, b, c]);
    RootOfNextLevel(hash, [a, b, c, d]);
    LevelIs(hash, [a, b, c], 0);
    LevelIs(hash, [a, b, c], 1);
    LevelIs(hash, [a, b, c, d], 0);
    LevelIs(hash, [a, b, c, d], 1);
    assert NextLevel(hash, [a, b, c]) == [hash(a, b), hash(c, c)];
    assert NextLevel(hash, [a, b, c, d]) == [hash(a, b), hash(c, d)];
  }

  lemma RootOfTwo(hash: HashPair, a: Hash, b: Hash)
    ensures MerkleRoot(hash, [a, b]) == hash(a, b)
  {
    RootOfNextLevel(hash, [a, b]);
    assert NextLevel(hash, [a, b]) == [hash(a, b)];
    RootOfOne(hash, [hash(a, b)]);
  }

  // ----- the block's tree -----

  /** The part of a block that holds its Merkle tree; vtx lists the transaction hashes. */
  class CBlock {
    const hash: HashPair
    const vtx: seq<Hash>
    var vMerkleTree: seq<Hash>

    constructor (hash: HashPair, vtx: seq<Hash>)
      ensures this.hash == hash && this.vtx == vtx && Valid()
    {
      this.hash, this.vtx, vMerkleTree := hash, vtx, [];
    }

    /** The tree has not been built, or is complete. */
    ghost predicate Valid()
      reads this
    {
      vMerkleTree == [] || vMerkleTree == Flat(hash, vtx)
    }

    method BuildMerkleTree() returns (root: Hash)
      modifies this`vMerkleTree
      ensures Valid() && vMerkleTree == Flat(hash, vtx)
      ensures root == MerkleRoot(hash, vtx)
    {
      hide Flat, NextLevel, MerkleRoot;
      PushLeaves();
      var j: nat, nSize: nat := 0, |vtx|;
      ghost var level := vtx;
      while nSize > 1
        invariant nSize == |level| && |vMerkleTree| == j + nSize && vMerkleTree[j..] == level
        invariant vMerkleTree[..j] + Flat(hash, level) == Flat(hash, vtx)
        decreases nSize
      {
        LevelAppended(hash, vMerkleTree, level, j, vtx);
        BuildLevel(j, nSize);
        level := NextLevel(hash, level);
        j := j + nSize;
        nSize := (nSize + 1) / 2;
      }
      FlatOfOne(hash, level);
      assert vMerkleTree == vMerkleTree[..j] + level;
      EmptyRoot(hash);
      if vtx == [] {
        root := 0;
      } else {
        FlatEndsWithRoot(hash, vtx);
        root := vMerkleTree[|vMerkleTree| - 1];
      }
    }

    method PushLeaves()
      modifies this`vMerkleTree
      ensures vMerkleTree == vtx
    {
      vMerkleTree := [];
      for i := 0 to |vtx|
        invariant vMerkleTree == vtx[..i]
      {
        vMerkleTree := vMerkleTree + [vtx[i]];
      }
    }

    /** The hashes beside the path from transaction nIndex to the root; builds the tree if
        that has not happened yet. */
    method GetMerkleBranch(nIndex: nat) returns (vMerkleBranch: seq<Hash>)
      requires Valid() && nIndex < |vtx|
      modifies this`vMerkleTree
      ensures Valid() && vMerkleTree == Flat(hash, vtx)
      ensures vMerkleBranch == Branch(hash, vtx, nIndex)
    {
      if vMerkleTree == [] {
        var root := BuildMerkleTree();
      }
      vMerkleBranch := CollectBranch(hash, vtx, vMerkleTree, |vtx|, nIndex);
    }

    static method CollectBranch(hash: HashPair, ghost vtx: seq<Hash>, tree: seq<Hash>, size: nat, nIndex: nat)
      returns (vMerkleBranch: seq<Hash>)
      requires nIndex < |vtx| == size && tree == Flat(hash, vtx)
      ensures vMerkleBranch == Branch(hash, vtx, nIndex)
    {
      vMerkleBranch := [];
      var j: nat, nSize: nat, index: nat := 0, size, nIndex;
      ghost var level := vtx;
      assert tree[j..] == tree;
      while nSize > 1
        invariant j <= |tree| && nSize == |level| && index < nSize && tree[j..] == Flat(hash, level)
        invariant vMerkleBranch + Branch(hash, level, index) == Branch(hash, vtx, nIndex)
        decreases nSize
      {
        var i := Sibling(index, nSize);
        BranchStep(hash, tree, level, j, index, vMerkleBranch);
        hide Flat, Branch, NextLevel, Sibling;
        vMerkleBranch := vMerkleBranch + [tree[j + i]];
        level := NextLevel(hash, level);
        index := index / 2;
        j := j + nSize;
        nSize := (nSize + 1) / 2;
      }
    }

    /** The root that a hash, a branch and an index lead to; index -1 leads nowhere.  The index is
        shifted arithmetically, so that a negative one stays negative. */
    static method CheckMerkleBranch(hash: HashPair, x: Hash, vMerkleBranch: seq<Hash>, nIndex: int) returns (root: Hash)
      ensures root == if nIndex == -1 then 0 else Climb(hash, x, vMerkleBranch, nIndex)
    {
      if nIndex == -1 {
        return 0;
      }
      root := x;
      var index := nIndex;
      for k := 0 to |vMerkleBranch|
        invariant Climb(hash, root, vMerkleBranch[k..], index) == Climb(hash, x, vMerkleBranch, nIndex)
      {
        var otherside := vMerkleBranch[k];
        assert vMerkleBranch[k..][1..] == vMerkleBranch[k + 1..];
        root := if index % 2 == 1 then hash(otherside, root) else hash(root, otherside);
        index := index / 2;
      }
    }

    /** Appends the level above the one that starts at j. */
    method BuildLevel(j: nat, nSize: nat)
      requires nSize > 1 && |vMerkleTree| == j + nSize
      modifies this`vMerkleTree
      ensures vMerkleTree == old(vMerkleTree) + NextLevel(hash, old(vMerkleTree)[j..])
    {
      ghost var level := vMerkleTree[j..];
      var i := 0;
      while i < nSize
        invariant 0 <= i <= nSize + 1 && i % 2 == 0
        invariant vMerkleTree == old(vMerkleTree) + NextLevel(hash, level)[..i / 2]
      {
        var i2 := if i + 1 < nSize - 1 then i + 1 else nSize - 1;
        assert vMerkleTree[j + i] == level[i] && vMerkleTree[j + i2] == level[i2];
        vMerkleTree := vMerkleTree + [hash(vMerkleTree[j + i], vMerkleTree[j + i2])];
        i := i + 2;
      }
    }
  }

  lemma Regroup(tree: seq<Hash>, level: seq<Hash>, rest: seq<Hash>, j: nat)
    requires j + |level| <= |tree| && tree[j..j + |level|] == level
    ensures tree[..j] + (level + rest) == tree[..j + |level|] + rest
  {
    assert tree[..j + |level|] == tree[..j] + level;
  }

  lemma LevelAppended(hash: HashPair, tree: seq<Hash>, level: seq<Hash>, j: nat, leaves: seq<Hash>)
    requires |level| > 1 && |tree| == j + |level| && tree[j..] == level
    requires tree[..j] + Flat(hash, level) == Flat(hash, leaves)
    ensures var next := NextLevel(hash, level);
            var longer := tree + next;
            && longer[|tree|..] == next
            && longer[..|tree|] + Flat(hash, next) == Flat(hash, leaves)
  {
    FlatUnfolds(hash, level);
    hide Flat, NextLevel;
    var next := NextLevel(hash, level);
    assert tree[j..j + |level|] == level;
    Regroup(tree, level, Flat(hash, next), j);
    assert (tree + next)[..|tree|] == tree && tree[..j + |level|] == tree;
  }

  lemma FlatOfOne(hash: HashPair, level: seq<Hash>)
    requires |level| <= 1
    ensures Flat(hash, level) == level
  {
  }

  lemma EmptyRoot(hash: HashPair)
    ensures MerkleRoot(hash, []) == 0
  {
  }

  lemma FlatUnfolds(hash: HashPair, level: seq<Hash>)
    requires |level| > 1
    ensures Flat(hash, level) == level + Flat(hash, NextLevel(hash, level))
  {
    hide NextLevel;
  }

  lemma BranchUnfolds(hash: HashPair, level: seq<Hash>, i: nat)
    requires |level| > 1 && i < |level|
    ensures Branch(hash, level, i) == [level[Sibling(i, |level|)]] + Branch(hash, NextLevel(hash, level), i / 2)
  {
    hide NextLevel;
  }

  lemma BranchStep(hash: HashPair, tree: seq<Hash>, level: seq<Hash>, j: nat, i: nat, branch: seq<Hash>)
    requires |level| > 1 && i < |level| && j <= |tree| && tree[j..] == Flat(hash, level)
    ensures j + |level| <= |tree| && tree[j + |level|..] == Flat(hash, NextLevel(hash, level))
    ensures tree[j + Sibling(i, |level|)] == level[Sibling(i, |level|)]
    ensures branch + Branch(hash, level, i) == branch + [level[Sibling(i, |level|)]] +
            Branch(hash, NextLevel(hash, level), i / 2)
  {
    FlatUnfolds(hash, level);
    BranchUnfolds(hash, level, i);
    hide Flat, Branch, NextLevel, Sibling;
    var rest := Flat(hash, NextLevel(hash, level));
    assert tree[j..] == level + rest;
    assert tree[j + |level|..] == tree[j..][|level|..] == rest;
    assert tree[j + Sibling(i, |level|)] == tree[j..][Sibling(i, |level|)];
  }

  // ----- branches -----

  /** The other child of i's parent. */
  function Sibling(i: nat, size: nat): (s: nat)
    requires i < size
    ensures s < size
  {
    var x := if i % 2 == 0 then i + 1 else i - 1;
    if x < size - 1 then x else size - 1
  }

  /** The hashes beside the path from leaf i to the root. */
  function Branch(hash: HashPair, level: seq<Hash>, i: nat): seq<Hash>
    requires i < |level|
    decreases |level|
  {
    if |level| <= 1 then []
    else [level[Sibling(i, |level|)]] + Branch(hash, NextLevel(hash, level), i / 2)
  }

  /** The root that a leaf hash, a branch and an index lead to. */
  function Climb(hash: HashPair, x: Hash, branch: seq<Hash>, i: int): Hash
    decreases |branch|
  {
    if branch == [] then x
    else Climb(hash, if i % 2 == 1 then hash(branch[0], x) else hash(x, branch[0]), branch[1..], i / 2)
  }

  lemma ParentOf(hash: HashPair, level: seq<Hash>, i: nat)
    requires |level| > 1 && i < |level|
    ensures i / 2 < |NextLevel(hash, level)|
    ensures NextLevel(hash, level)[i / 2] ==
      if i % 2 == 1 then hash(level[Sibling(i, |level|)], level[i]) else hash(level[i], level[Sibling(i, |level|)])
  {
  }

  /** Every leaf's own branch leads to the root. */
  lemma {:induction false} BranchLeadsToRoot(hash: HashPair, level: seq<Hash>, i: nat)
    requires i < |level|
    ensures Climb(hash, level[i], Branch(hash, level, i), i) == MerkleRoot(hash, level)
    decreases |level|
  {
    if |level| == 1 {
      RootOfOne(hash, level);
    } else {
      hide MerkleRoot;
      var next, branch := NextLevel(hash, level), Branch(hash, level, i);
      ParentOf(hash, level, i);
      BranchLeadsToRoot(hash, next, i / 2);
      RootOfNextLevel(hash, level);
      assert branch[1..] == Branch(hash, next, i / 2);
    }
  }

  ghost predicate Injective(hash: HashPair) {
    forall a, b, c, d :: hash(a, b) == hash(c, d) ==> a == c && b == d
  }

  /** With a collision-free hash nothing else leads to the root at index i: the leaf is the
      block's transaction i and the branch is its own. */
  lemma {:induction false} OnlyTheBranchLeadsToRoot(hash: HashPair, level: seq<Hash>, i: nat, x: Hash,
                                                    branch: seq<Hash>)
    requires Injective(hash) && i < |level| && |branch| == |Branch(hash, level, i)|
    requires Climb(hash, x, branch, i) == MerkleRoot(hash, level)
    ensures x == level[i] && branch == Branch(hash, level, i)
    decreases |level|
  {
    if |level| == 1 {
      RootOfOne(hash, level);
    } else {
      var next := NextLevel(hash, level);
      ParentOf(hash, level, i);
      RootOfNextLevel(hash, level);
      BranchUnfolds(hash, level, i);
      ClimbUnfolds(hash, x, branch, i);
      hide MerkleRoot, NextLevel, Branch, Sibling, Climb, Injective;
      var sibling := level[Sibling(i, |level|)];
      var y := if i % 2 == 1 then hash(branch[0], x) else hash(x, branch[0]);
      OnlyTheBranchLeadsToRoot(hash, next, i / 2, y, branch[1..]);
      if i % 2 == 1 {
        InjectiveAt(hash, branch[0], x, sibling, level[i]);
      } else {
        InjectiveAt(hash, x, branch[0], level[i], sibling);
      }
      assert branch == [branch[0]] + branch[1..];
    }
  }

  lemma ClimbUnfolds(hash: HashPair, x: Hash, branch: seq<Hash>, i: nat)
    requires branch != []
    ensures Climb(hash, x, branch, i) == Climb(hash, if i % 2 == 1 then hash(branch[0], x)
                                               else hash(x, branch[0]), branch[1..], i / 2)
  {
  }

  lemma InjectiveAt(hash: HashPair, a: Hash, b: Hash, c: Hash, d: Hash)
    requires Injective(hash) && hash(a, b) == hash(c, d)
    ensures a == c && b == d
  {
  }
}
