/** The class that holds a partial Merkle tree: construction from a block, the traversals,
    the checks around them, and the packing of the bits into bytes. */
module PartialMerkleTree {
  import opened Arithmetic
  import opened MerkleTree
  import opened PartialMerkle

  /** What ExtractMatches returns: the root, or 0 on any failure, and the hashes met. */
  datatype Extraction = Extraction(root: Hash, matches: seq<Hash>)

  function Checked(hash: HashPair, n: nat, bits: seq<bool>, hashes: seq<Hash>, fBad: bool): Extraction {
    if n == 0 || n > MAX_TRANSACTIONS || |hashes| > n || |bits| < |hashes| then Extraction(0, [])
    else
      var w := Extract(hash, n, Height(n), 0, bits, hashes);
      if fBad || w.bad || (|bits| - |w.bits| + 7) / 8 != (|bits| + 7) / 8 || w.hashes != []
      then Extraction(0, w.matches) else Extraction(w.hash, w.matches)
  }

  /** Nothing is extracted for no transactions or more than 16666, for more hashes than transactions, or for fewer bits
      than hashes.  Otherwise the root is that of the traversal from the top, and 0 if the traversal ran out of data, if
      more than the padding of the last byte is left of the bits, or anything of the hashes. */
  lemma CheckedExactly(hash: HashPair, n: nat, bits: seq<bool>, hashes: seq<Hash>, fBad: bool)
    ensures n < 1 || 16666 < n || n < |hashes| || |hashes| > |bits| ==>
              Checked(hash, n, bits, hashes, fBad).root == 0 && Checked(hash, n, bits, hashes, fBad).matches == []
    ensures 1 <= n <= 16666 && |hashes| <= n && |hashes| <= |bits| ==>
              var x, w := Checked(hash, n, bits, hashes, fBad), Extract(hash, n, Height(n), 0, bits, hashes);
              var used := |bits| - |w.bits|;
              && x.matches == w.matches
              && (!fBad && !w.bad && w.hashes == [] && used + 7 - (used + 7) % 8 == |bits| + 7 - (|bits| + 7) % 8 ==>
                    x.root == w.hash)
              && (fBad || w.bad || w.hashes != [] || used + 7 - (used + 7) % 8 != |bits| + 7 - (|bits| + 7) % 8 ==>
                    x.root == 0)
  {
    hide Extract, Height;
  }

  /** The height of the tree is the least at which there is one node. */
  lemma HeightIs(n: nat, h: nat)
    requires n > 0
    ensures CalcTreeWidth(n, Height(n)) == 1 && (h < Height(n) ==> CalcTreeWidth(n, h) > 1)
    ensures CalcTreeWidth(n, h) * Pow2(h) >= n && (CalcTreeWidth(n, h) - 1) * Pow2(h) < n
  {
    TopNode(n);
    var w := CalcTreeWidth(n, h);
    NodeExists(n, h, w);
    if w > 0 {
      NodeExists(n, h, w - 1);
    } else {
      NodeExists(n, h, 0);
    }
    hide CalcTreeWidth;
  }

  /** What the traversal takes from its data: a bit for every node, and a hash for every one it does not descend into,
      which is a match exactly at a leaf whose bit is set. */
  lemma ExtractTakes(hash: HashPair, n: nat, h: nat, pos: nat, bits: seq<bool>, hashes: seq<Hash>)
    ensures var w := Extract(hash, n, h, pos, bits, hashes);
            && (bits == [] ==> w.bad && w.hash == 0 && w.matches == [])
            && (bits != [] && (h == 0 || !bits[0]) ==>
                  && w.bits == bits[1..] && (w.bad <==> hashes == [])
                  && (hashes != [] ==> w.hash == hashes[0] && w.hashes == hashes[1..])
                  && (hashes == [] ==> w.hash == 0)
                  && w.matches == if h == 0 && bits[0] && hashes != [] then [hashes[0]] else [])
            && (bits != [] && bits[0] && h > 0 ==>
                  var left := Extract(hash, n, h - 1, 2 * pos, bits[1..], hashes);
                  var right := Extract(hash, n, h - 1, 2 * pos + 1, left.bits, left.hashes);
                  if 2 * pos + 1 < CalcTreeWidth(n, h - 1) then
                    && w.hash == hash(left.hash, right.hash) && w.matches == left.matches + right.matches
                    && w.bits == right.bits && w.hashes == right.hashes && (!w.bad <==> !left.bad && !right.bad)
                  else
                    && w.hash == hash(left.hash, left.hash) && w.matches == left.matches
                    && w.bits == left.bits && w.hashes == left.hashes && w.bad == left.bad)
  {
    if bits != [] && bits[0] && h > 0 {
      ExtractUnfolds(hash, n, h - 1, pos, bits, hashes);
    }
  }

  /** What the traversal from the top of a non-empty block stores. */
  function BuildAll(hash: HashPair, txids: seq<Hash>, mask: seq<bool>): Part
    requires txids != [] && |mask| == |txids|
  {
    TopNode(|txids|);
    Build(hash, txids, mask, Height(|txids|), 0)
  }

  lemma WholeBlock(txids: seq<Hash>, mask: seq<bool>)
    requires txids != [] && |mask| == |txids|
    ensures CalcTreeWidth(|txids|, Height(|txids|)) == 1
    ensures First(Height(|txids|), 0) == 0 && Last(|txids|, Height(|txids|), 0) == |txids|
    ensures Under(txids, mask, Height(|txids|), 0) == Matched(txids, mask, 0, |txids|)
  {
    var n, h := |txids|, Height(|txids|);
    TopNode(n);
    NodeExists(n, h, 1);
    assert 0 * Pow2(h) == 0;
  }

  /** Round trip: the tree built for a block and a mask, with its bits padded to whole bytes,
      yields the block's root and exactly the masked transactions, in order. */
  lemma RoundTrip(hash: HashPair, txids: seq<Hash>, mask: seq<bool>, padding: seq<bool>)
    requires txids != [] && |txids| <= MAX_TRANSACTIONS && |mask| == |txids|
    requires |padding| < 8 && (padding == [] || (|BuildAll(hash, txids, mask).bits| + |padding|) % 8 == 0)
    ensures var part := BuildAll(hash, txids, mask);
            Checked(hash, |txids|, part.bits + padding, part.hashes, false) ==
              Extraction(MerkleRoot(hash, txids), Matched(txids, mask, 0, |txids|))
  {
    hide *;
    var n, h, part := |txids|, Height(|txids|), BuildAll(hash, txids, mask);
    WholeBlock(txids, mask);
    AllIsTop(hash, txids, mask);
    BuiltExtractsBack(hash, txids, mask, h, 0, padding, []);
    ExtractsWhole(hash, txids, mask, padding);
    SameByteCount(|part.bits|, |padding|);
    assert |part.bits + padding| == |part.bits| + |padding|;
    CheckedExactly(hash, n, part.bits + padding, part.hashes, false);
    var x := Checked(hash, n, part.bits + padding, part.hashes, false);
    assert x == Extraction(x.root, x.matches);
  }

  lemma AllIsTop(hash: HashPair, txids: seq<Hash>, mask: seq<bool>)
    requires txids != [] && |mask| == |txids|
    ensures 0 < CalcTreeWidth(|txids|, Height(|txids|))
    ensures BuildAll(hash, txids, mask) == Build(hash, txids, mask, Height(|txids|), 0)
    ensures MerkleRoot(hash, txids) == CalcHash(hash, txids, Height(|txids|), 0)
    ensures var part := BuildAll(hash, txids, mask);
            1 <= |part.hashes| <= |txids| && |part.hashes| <= |part.bits| && part.hashes + [] == part.hashes
    ensures 16666 == MAX_TRANSACTIONS
  {
    WholeBlock(txids, mask);
    BuildSizes(hash, txids, mask, Height(|txids|), 0);
    hide Build, CalcHash, Under, Height, CalcTreeWidth, Pow2;
  }

  /** What the traversal of the whole block yields, with padding after the bits. */
  lemma ExtractsWhole(hash: HashPair, txids: seq<Hash>, mask: seq<bool>, padding: seq<bool>)
    requires txids != [] && |mask| == |txids| && 0 < CalcTreeWidth(|txids|, Height(|txids|))
    requires ExtractsBack(hash, txids, mask, Height(|txids|), 0, padding, [])
    ensures var part := BuildAll(hash, txids, mask);
            Extract(hash, |txids|, Height(|txids|), 0, part.bits + padding, part.hashes) ==
              Walk(MerkleRoot(hash, txids), padding, [], false, Matched(txids, mask, 0, |txids|))
  {
    WholeBlock(txids, mask);
    AllIsTop(hash, txids, mask);
    hide Build, BuildAll, CalcHash, Under, Height, CalcTreeWidth, Pow2, Extract, MerkleRoot, Matched;
  }

  lemma SameByteCount(used: nat, padding: nat)
    requires padding < 8 && (padding == 0 || (used + padding) % 8 == 0)
    ensures (used + 7) / 8 == (used + padding + 7) / 8
  {
  }

  /** The size guarantees for a whole block: at most as many hashes as transactions, and few
      hashes and bits when few transactions are masked. */
  lemma SizeGuarantees(hash: HashPair, txids: seq<Hash>, mask: seq<bool>)
    requires txids != [] && |mask| == |txids|
    ensures var part := BuildAll(hash, txids, mask);
            var k, h := |Matched(txids, mask, 0, |txids|)|, Height(|txids|);
            && 1 <= |part.hashes| <= |txids| && |part.hashes| <= 1 + k * h
            && |part.hashes| <= |part.bits| <= 1 + 2 * (k * h)
  {
    WholeBlock(txids, mask);
    BuildSizes(hash, txids, mask, Height(|txids|), 0);
  }

  /** Soundness: for arbitrary bits and hashes sent for a block of n transactions, when the
      extraction ends with the block's true root then the hashes it yields are real ones of
      the block, in block order. */
  lemma Soundness(hash: HashPair, txids: seq<Hash>, bits: seq<bool>, hashes: seq<Hash>, fBad: bool)
    requires Injective(hash) && MerkleRoot(hash, txids) != 0
    requires Checked(hash, |txids|, bits, hashes, fBad).root == MerkleRoot(hash, txids)
    ensures exists mask ::
      |mask| == |txids| && Checked(hash, |txids|, bits, hashes, fBad).matches == Matched(txids, mask, 0, |txids|)
  {
    TopNode(|txids|);
    ExtractIsSound(hash, txids, Height(|txids|), 0, bits, hashes);
    var mask :| |mask| == |txids| && Checked(hash, |txids|, bits, hashes, fBad).matches ==
        Under(txids, mask, Height(|txids|), 0);
    WholeBlock(txids, mask);
  }

  // ----- the documented bound on the number of bits -----

  /** How many nodes that the traversal descends from have one child only. */
  function SingleChildren(txids: seq<Hash>, mask: seq<bool>, h: nat, pos: nat): nat
    requires |mask| == |txids| && pos < CalcTreeWidth(|txids|, h)
    decreases h
  {
    if h == 0 || Under(txids, mask, h, pos) == [] then 0
    else
      LeftChildExists(|txids|, h - 1, pos);
      SingleChildren(txids, mask, h - 1, 2 * pos) +
      if 2 * pos + 1 < CalcTreeWidth(|txids|, h - 1) then SingleChildren(txids, mask, h - 1, 2 * pos + 1) else 1
  }

  lemma SingleChildrenUnfolds(txids: seq<Hash>, mask: seq<bool>, g: nat, pos: nat)
    requires |mask| == |txids| && pos < CalcTreeWidth(|txids|, g + 1)
    ensures 2 * pos < CalcTreeWidth(|txids|, g)
    ensures SingleChildren(txids, mask, g + 1, pos) ==
              if Under(txids, mask, g + 1, pos) == [] then 0
              else SingleChildren(txids, mask, g, 2 * pos) +
                   if 2 * pos + 1 < CalcTreeWidth(|txids|, g) then SingleChildren(txids, mask, g, 2 * pos + 1) else 1
  {
    LeftChildExists(|txids|, g, pos);
  }

  /** There is one bit more than the documentation allows for every such node. */
  lemma {:induction false} BitCount(hash: HashPair, txids: seq<Hash>, mask: seq<bool>, h: nat, pos: nat)
    requires |mask| == |txids| && pos < CalcTreeWidth(|txids|, h)
    ensures var part := Build(hash, txids, mask, h, pos);
            |part.bits| == 2 * |part.hashes| - 1 + SingleChildren(txids, mask, h, pos)
    decreases h
  {
    hide *;
    if h == 0 {
      BitsOfLeaf(hash, txids, mask, pos);
    } else {
      var g: nat := h - 1;
      LeftChildExists(|txids|, g, pos);
      if Under(txids, mask, h, pos) != [] {
        BitCount(hash, txids, mask, g, 2 * pos);
        if 2 * pos + 1 < CalcTreeWidth(|txids|, g) {
          BitCount(hash, txids, mask, g, 2 * pos + 1);
        }
      }
      BitsOfNode(hash, txids, mask, g, pos);
    }
  }

  lemma BitsOfLeaf(hash: HashPair, txids: seq<Hash>, mask: seq<bool>, pos: nat)
    requires |mask| == |txids| && pos < CalcTreeWidth(|txids|, 0)
    ensures var part := Build(hash, txids, mask, 0, pos);
            |part.bits| == 2 * |part.hashes| - 1 + SingleChildren(txids, mask, 0, pos)
  {
    BuildLeaf(hash, txids, mask, pos);
  }

  lemma BitsOfNode(hash: HashPair, txids: seq<Hash>, mask: seq<bool>, g: nat, pos: nat)
    requires |mask| == |txids| && pos < CalcTreeWidth(|txids|, g + 1) && 2 * pos < CalcTreeWidth(|txids|, g)
    requires Under(txids, mask, g + 1, pos) != [] ==>
               var part := Build(hash, txids, mask, g, 2 * pos);
               |part.bits| == 2 * |part.hashes| - 1 + SingleChildren(txids, mask, g, 2 * pos)
    requires Under(txids, mask, g + 1, pos) != [] && 2 * pos + 1 < CalcTreeWidth(|txids|, g) ==>
               var part := Build(hash, txids, mask, g, 2 * pos + 1);
               |part.bits| == 2 * |part.hashes| - 1 + SingleChildren(txids, mask, g, 2 * pos + 1)
    ensures var part := Build(hash, txids, mask, g + 1, pos);
            |part.bits| == 2 * |part.hashes| - 1 + SingleChildren(txids, mask, g + 1, pos)
  {
    hide *;
    BuildUnfolds(hash, txids, mask, g, pos);
    SingleChildrenUnfolds(txids, mask, g, pos);
  }

  /** The last node of level g is an only child and has a masked transaction under it. */
  predicate LonelyMatch(txids: seq<Hash>, mask: seq<bool>, g: nat)
    requires |mask| == |txids| && txids != []
  {
    NodeExists(|txids|, g, 0);
    CalcTreeWidth(|txids|, g) % 2 == 1 && Under(txids, mask, g, CalcTreeWidth(|txids|, g) - 1) != []
  }

  ghost predicate NoLonelyMatch(txids: seq<Hash>, mask: seq<bool>, h: nat)
    requires |mask| == |txids| && txids != []
  {
    forall g: nat :: g < h ==> !LonelyMatch(txids, mask, g)
  }

  lemma NoLonelyMatchStep(txids: seq<Hash>, mask: seq<bool>, h: nat)
    requires |mask| == |txids| && txids != []
    ensures NoLonelyMatch(txids, mask, h + 1) <==> NoLonelyMatch(txids, mask, h) && !LonelyMatch(txids, mask, h)
  {
    hide LonelyMatch;
  }

  lemma {:induction false} NoSingleBeforeLast(txids: seq<Hash>, mask: seq<bool>, h: nat, pos: nat)
    requires |mask| == |txids| && pos + 1 < CalcTreeWidth(|txids|, h)
    ensures SingleChildren(txids, mask, h, pos) == 0
    decreases h
  {
    if h > 0 {
      var g: nat := h - 1;
      SingleChildrenUnfolds(txids, mask, g, pos);
      LeftChildExists(|txids|, g, pos + 1);
      hide Under, CalcTreeWidth, Pow2, SingleChildren;
      NoSingleBeforeLast(txids, mask, g, 2 * pos);
      NoSingleBeforeLast(txids, mask, g, 2 * pos + 1);
    }
  }

  lemma LonelyIsOnlyChild(txids: seq<Hash>, mask: seq<bool>, g: nat, pos: nat)
    requires |mask| == |txids| && txids != [] && pos + 1 == CalcTreeWidth(|txids|, g + 1)
    ensures 2 * pos < CalcTreeWidth(|txids|, g) <= 2 * pos + 2
    ensures LonelyMatch(txids, mask, g) <==>
            2 * pos + 1 >= CalcTreeWidth(|txids|, g) && Under(txids, mask, g, 2 * pos) != []
  {
    WidthHalves(|txids|, g);
  }

  lemma SinglesAbovePair(txids: seq<Hash>, mask: seq<bool>, g: nat, pos: nat)
    requires |mask| == |txids| && txids != [] && pos + 1 == CalcTreeWidth(|txids|, g + 1)
    requires 2 * pos + 2 == CalcTreeWidth(|txids|, g) && Under(txids, mask, g + 1, pos) != []
    ensures SingleChildren(txids, mask, g + 1, pos) == SingleChildren(txids, mask, g, 2 * pos + 1)
    ensures NoLonelyMatch(txids, mask, g + 1) <==> NoLonelyMatch(txids, mask, g)
  {
    SingleChildrenUnfolds(txids, mask, g, pos);
    LonelyIsOnlyChild(txids, mask, g, pos);
    NoLonelyMatchStep(txids, mask, g);
    hide Under, CalcTreeWidth, Pow2, SingleChildren, LonelyMatch, NoLonelyMatch;
    NoSingleBeforeLast(txids, mask, g, 2 * pos);
  }

  lemma SinglesAboveSingle(txids: seq<Hash>, mask: seq<bool>, g: nat, pos: nat)
    requires |mask| == |txids| && txids != [] && pos + 1 == CalcTreeWidth(|txids|, g + 1)
    requires 2 * pos + 1 == CalcTreeWidth(|txids|, g) && Under(txids, mask, g + 1, pos) != []
    ensures SingleChildren(txids, mask, g + 1, pos) != 0 && !NoLonelyMatch(txids, mask, g + 1)
  {
    SingleChildrenUnfolds(txids, mask, g, pos);
    UnderSplits(txids, mask, g, pos);
    LonelyIsOnlyChild(txids, mask, g, pos);
    NoLonelyMatchStep(txids, mask, g);
    hide Under, CalcTreeWidth, Pow2, SingleChildren, LonelyMatch, NoLonelyMatch;
  }

  lemma {:induction false} SinglesOfLast(txids: seq<Hash>, mask: seq<bool>, h: nat, pos: nat)
    requires |mask| == |txids| && txids != [] && pos + 1 == CalcTreeWidth(|txids|, h)
    ensures SingleChildren(txids, mask, h, pos) == 0 <==> NoLonelyMatch(txids, mask, h)
    decreases h
  {
    if h > 0 {
      var g: nat := h - 1;
      if Under(txids, mask, h, pos) == [] {
        SingleChildrenUnfolds(txids, mask, g, pos);
        LonelyBelow(txids, mask, h, pos);
      } else {
        WidthHalves(|txids|, g);
        hide Under, CalcTreeWidth, Pow2, SingleChildren, NoLonelyMatch;
        if 2 * pos + 2 == CalcTreeWidth(|txids|, g) {
          SinglesOfLast(txids, mask, g, 2 * pos + 1);
          SinglesAbovePair(txids, mask, g, pos);
        } else {
          SinglesAboveSingle(txids, mask, g, pos);
        }
      }
    }
  }

  /** Without masked transactions under the last node of a level there are none under the
      last node of any level below. */
  lemma {:induction false} LonelyBelow(txids: seq<Hash>, mask: seq<bool>, h: nat, pos: nat)
    requires |mask| == |txids| && txids != [] && pos + 1 == CalcTreeWidth(|txids|, h)
    ensures Under(txids, mask, h, pos) == [] ==> NoLonelyMatch(txids, mask, h)
    decreases h
  {
    if h > 0 && Under(txids, mask, h, pos) == [] {
      var g: nat := h - 1;
      var n := |txids|;
      UnderSplits(txids, mask, g, pos);
      WidthHalves(n, g);
      LonelyBelow(txids, mask, g, CalcTreeWidth(n, g) - 1);
      NoLonelyMatchStep(txids, mask, g);
    }
  }

  /** The documentation bounds the bits by twice the number of hashes less one.  That holds
      exactly when no masked transaction is under a last node without a sibling. */
  lemma DocumentedBitBound(hash: HashPair, txids: seq<Hash>, mask: seq<bool>)
    requires txids != [] && |mask| == |txids|
    ensures var part := BuildAll(hash, txids, mask);
            |part.bits| <= 2 * |part.hashes| - 1 <==> NoLonelyMatch(txids, mask, Height(|txids|))
  {
    TopNode(|txids|);
    BitCount(hash, txids, mask, Height(|txids|), 0);
    SinglesOfLast(txids, mask, Height(|txids|), 0);
  }

  /** Five transactions with only the last one masked exceed the documented bound. */
  lemma DocumentedBitBoundFails(hash: HashPair)
    ensures var part := BuildAll(hash, [1, 2, 3, 4, 5], [false, false, false, false, true]);
            |part.bits| > 2 * |part.hashes| - 1
  {
    var txids, mask := [1, 2, 3, 4, 5], [false, false, false, false, true];
    WidthOfLeaves(5);
    BuildLeaf(hash, txids, mask, 4);
    assert LonelyMatch(txids, mask, 0);
    TopNode(5);
    assert 0 < Height(5);
    DocumentedBitBound(hash, txids, mask);
  }

  // ----- bits in bytes -----

  function Mask(k: nat): bv8
    requires k < 8
  {
    if k == 0 then 0x01 else if k == 1 then 0x02 else if k == 2 then 0x04 else if k == 3 then 0x08
    else if k == 4 then 0x10 else if k == 5 then 0x20 else if k == 6 then 0x40 else 0x80
  }

  predicate HasBit(b: bv8, k: nat)
    requires k < 8
  {
    b & Mask(k) != 0
  }

  /** Setting bit k of a byte changes bit k only. */
  lemma SetBit(b: bv8, k: nat, j: nat)
    requires k < 8 && j < 8
    ensures HasBit(b | Mask(k), j) <==> HasBit(b, j) || j == k
  {
  }

  /** Bit k of a byte is worth two to the k. */
  lemma BitsAre(k: nat)
    requires k < 8
    ensures HasBit(1, k) <==> k == 0
    ensures HasBit(2, k) <==> k == 1
    ensures HasBit(4, k) <==> k == 2
    ensures HasBit(8, k) <==> k == 3
    ensures HasBit(16, k) <==> k == 4
    ensures HasBit(32, k) <==> k == 5
    ensures HasBit(64, k) <==> k == 6
    ensures HasBit(128, k) <==> k == 7
    ensures !HasBit(0, k)
  {
  }

  /** Bit p of the packed bytes, counting from the least significant bit of each byte. */
  predicate PackedBit(vBytes: seq<bv8>, p: nat)
    requires p < 8 * |vBytes|
  {
    HasBit(vBytes[p / 8], p % 8)
  }

  method PackBits(vBits: seq<bool>) returns (vBytes: seq<bv8>)
    ensures |vBytes| == (|vBits| + 7) / 8
    ensures forall p :: 0 <= p < 8 * |vBytes| ==> (PackedBit(vBytes, p) <==> p < |vBits| && vBits[p])
  {
    vBytes := seq((|vBits| + 7) / 8, i => 0);
    for p := 0 to |vBits|
      invariant |vBytes| == (|vBits| + 7) / 8
      invariant forall q :: 0 <= q < 8 * |vBytes| ==> (PackedBit(vBytes, q) <==> q < p && vBits[q])
    {
      ghost var before := vBytes;
      vBytes := vBytes[p / 8 := vBytes[p / 8] | if vBits[p] then Mask(p % 8) else 0];
      forall q | 0 <= q < 8 * |vBytes| ensures PackedBit(vBytes, q) <==> q < p + 1 && vBits[q] {
        PackStep(before, vBytes, p, vBits[p], q);
      }
    }
  }

  lemma PackStep(before: seq<bv8>, after: seq<bv8>, p: nat, bit: bool, q: nat)
    requires p < 8 * |before| && q < 8 * |before|
    requires after == before[p / 8 := before[p / 8] | if bit then Mask(p % 8) else 0]
    ensures PackedBit(after, q) <==> PackedBit(before, q) || (bit && q == p)
  {
    if q / 8 == p / 8 {
      SetBit(before[p / 8], p % 8, q % 8);
      assert before[p / 8] | 0 == before[p / 8];
    }
  }

  method UnpackBits(vBytes: seq<bv8>) returns (vBits: seq<bool>)
    ensures |vBits| == 8 * |vBytes| && forall p :: 0 <= p < |vBits| ==> vBits[p] == PackedBit(vBytes, p)
  {
    vBits := [];
    for p := 0 to 8 * |vBytes|
      invariant |vBits| == p && forall q :: 0 <= q < p ==> vBits[q] == PackedBit(vBytes, q)
    {
      vBits := vBits + [vBytes[p / 8] & Mask(p % 8) != 0];
    }
  }

  /** Packing and unpacking adds less than a byte of padding. */
  lemma PackedAndUnpacked(bits: seq<bool>, vBytes: seq<bv8>, bits': seq<bool>)
    requires |vBytes| == (|bits| + 7) / 8 && |bits'| == 8 * |vBytes|
    requires forall p :: 0 <= p < 8 * |vBytes| ==> (PackedBit(vBytes, p) <==> p < |bits| && bits[p])
    requires forall p :: 0 <= p < |bits'| ==> bits'[p] == PackedBit(vBytes, p)
    ensures |bits| <= |bits'| < |bits| + 8 && bits' == bits + bits'[|bits|..]
  {
    hide PackedBit;
    forall p | 0 <= p < |bits| ensures bits'[p] == bits[p] {
      assert bits'[p] == PackedBit(vBytes, p);
    }
  }

  // ----- the class -----

  function Appended(a: Part, b: Part): Part {
    Part(a.bits + b.bits, a.hashes + b.hashes)
  }

  lemma AppendBit(start: Part)
    ensures Appended(start, Part([true], [])) == Part(start.bits + [true], start.hashes)
  {
    assert start.hashes + [] == start.hashes;
  }

  lemma AppendAssociates(a: Part, b: Part, c: Part)
    ensures Appended(Appended(a, b), c) == Appended(a, Appended(b, c))
  {
    assert (a.bits + b.bits) + c.bits == a.bits + (b.bits + c.bits);
    assert (a.hashes + b.hashes) + c.hashes == a.hashes + (b.hashes + c.hashes);
  }

  /** A node's bit, its left part and its right part, stored one after the other. */
  lemma AppendChildren(start: Part, hash: HashPair, txids: seq<Hash>, mask: seq<bool>, g: nat, pos: nat)
    requires |mask| == |txids| && pos < CalcTreeWidth(|txids|, g + 1) && Under(txids, mask, g + 1, pos) != []
    ensures 2 * pos < CalcTreeWidth(|txids|, g)
    ensures var left := Appended(Appended(start, Part([true], [])), Build(hash, txids, mask, g, 2 * pos));
            Appended(start, Build(hash, txids, mask, g + 1, pos)) ==
              if 2 * pos + 1 < CalcTreeWidth(|txids|, g) then Appended(left, Build(hash, txids, mask, g, 2 * pos + 1))
                else left
  {
    BuildUnfolds(hash, txids, mask, g, pos);
    hide Build, Under, CalcTreeWidth;
    var bit, left := Part([true], []), Build(hash, txids, mask, g, 2 * pos);
    AppendAssociates(start, bit, left);
    assert [] + left.hashes == left.hashes;
    if 2 * pos + 1 < CalcTreeWidth(|txids|, g) {
      AppendAssociates(start, Appended(bit, left), Build(hash, txids, mask, g, 2 * pos + 1));
    }
  }

  /** A traversal that started with fBad and vMatch has had the outcome w. */
  ghost predicate Walked(w: Walk, fBad: bool, vMatch: seq<Hash>, h: Hash, bits: seq<bool>, hashes: seq<Hash>,
                         fBad': bool, vMatch': seq<Hash>)
  {
    h == w.hash && bits == w.bits && hashes == w.hashes && fBad' == (fBad || w.bad) && vMatch' == vMatch + w.matches
  }

  lemma WalkedPair(hash: HashPair, left: Walk, right: Walk, fBad: bool, vMatch: seq<Hash>, fBad1: bool,
                   vMatch1: seq<Hash>, bits: seq<bool>, hashes: seq<Hash>, fBad': bool, vMatch': seq<Hash>)
    requires Walked(left, fBad, vMatch, left.hash, left.bits, left.hashes, fBad1, vMatch1)
    requires Walked(right, fBad1, vMatch1, right.hash, bits, hashes, fBad', vMatch')
    ensures Walked(Joined(hash, left, right), fBad, vMatch, hash(left.hash, right.hash), bits, hashes, fBad', vMatch')
  {
  }

  class CPartialMerkleTree {
    const hash: HashPair
    var nTransactions: nat
    var vBits: seq<bool>
    var vHash: seq<Hash>
    var fBad: bool

    /** The partial tree of a block's transactions and a mask. */
    constructor FromBlock(hash: HashPair, vTxid: seq<Hash>, vMatch: seq<bool>)
      requires vTxid != [] && |vMatch| == |vTxid|
      ensures this.hash == hash && nTransactions == |vTxid| && !fBad &&
              Part(vBits, vHash) == BuildAll(hash, vTxid, vMatch)
    {
      this.hash, nTransactions, fBad := hash, |vTxid|, false;
      vBits, vHash := [], [];
      new;
      var nHeight := CalcHeight(nTransactions);
      TopNode(|vTxid|);
      TraverseAndBuild(nHeight, 0, vTxid, vMatch);
    }

    /** A partial tree as it arrives from the network. */
    constructor FromBytes(hash: HashPair, nTransactions: nat, vHash: seq<Hash>, vBytes: seq<bv8>)
      ensures this.hash == hash && this.nTransactions == nTransactions && this.vHash == vHash && !fBad
      ensures |vBits| == 8 * |vBytes| && forall p :: 0 <= p < |vBits| ==> vBits[p] == PackedBit(vBytes, p)
    {
      this.hash, this.nTransactions, this.vHash := hash, nTransactions, vHash;
      var bits := UnpackBits(vBytes);
      vBits := bits;
      fBad := false;
    }

    static method CalcHeight(n: nat) returns (h: nat)
      ensures h == Height(n)
    {
      h := 0;
      while CalcTreeWidth(n, h) > 1
        invariant HeightFrom(n, h) == Height(n)
        decreases CalcTreeWidth(n, h)
      {
        WidthHalves(n, h);
        h := h + 1;
      }
    }

    method TraverseAndBuild(height: nat, pos: nat, vTxid: seq<Hash>, vMatch: seq<bool>)
      requires |vMatch| == |vTxid| == nTransactions && pos < CalcTreeWidth(nTransactions, height)
      modifies this`vBits, this`vHash
      ensures Part(vBits, vHash) == Appended(Part(old(vBits), old(vHash)), Build(hash, vTxid, vMatch, height, pos))
      decreases height
    {
      var fParentOfMatch := IsParentOfMatch(height, pos, vTxid, vMatch);
      ghost var start := Part(vBits, vHash);
      vBits := vBits + [fParentOfMatch];
      if height == 0 || !fParentOfMatch {
        StoredHash(hash, vTxid, vMatch, height, pos);
        vHash := vHash + [CalcHash(hash, vTxid, height, pos)];
      } else {
        BuildChildren(height - 1, pos, vTxid, vMatch, start);
      }
    }

    method BuildChildren(g: nat, pos: nat, vTxid: seq<Hash>, vMatch: seq<bool>, ghost start: Part)
      requires |vMatch| == |vTxid| == nTransactions && pos < CalcTreeWidth(nTransactions, g + 1) &&
               Under(vTxid, vMatch, g + 1, pos) != []
      requires vBits == start.bits + [true] && vHash == start.hashes
      modifies this`vBits, this`vHash
      ensures Part(vBits, vHash) == Appended(start, Build(hash, vTxid, vMatch, g + 1, pos))
      decreases g + 1, 0
    {
      AppendBit(start);
      AppendChildren(start, hash, vTxid, vMatch, g, pos);
      hide Build, Under, CalcTreeWidth, Appended;
      TraverseAndBuild(g, 2 * pos, vTxid, vMatch);
      if 2 * pos + 1 < CalcTreeWidth(nTransactions, g) {
        TraverseAndBuild(g, 2 * pos + 1, vTxid, vMatch);
      }
    }

    method IsParentOfMatch(height: nat, pos: nat, ghost vTxid: seq<Hash>, vMatch: seq<bool>)
      returns (fParentOfMatch: bool)
      requires |vMatch| == |vTxid| == nTransactions && pos < CalcTreeWidth(nTransactions, height)
      ensures fParentOfMatch <==> Under(vTxid, vMatch, height, pos) != []
    {
      NodeRange(nTransactions, height, pos);
      NothingMatched(vTxid, vMatch, First(height, pos), Last(nTransactions, height, pos));
      fParentOfMatch := false;
      var p := pos * Pow2(height);
      while p < (pos + 1) * Pow2(height) && p < nTransactions
        invariant First(height, pos) <= p <= Last(nTransactions, height, pos)
        invariant fParentOfMatch == AnyMatch(vMatch, First(height, pos), p)
      {
        fParentOfMatch := fParentOfMatch || vMatch[p];
        p := p + 1;
      }
    }

    /** Consumes the bits and hashes of one subtree and returns its hash; on running out of
        data it sets fBad and goes on with zero hashes. */
    method TraverseAndExtract(height: nat, pos: nat, nBitsUsed: nat, nHashUsed: nat, vMatch: seq<Hash>)
      returns (h: Hash, nBitsUsed': nat, nHashUsed': nat, vMatch': seq<Hash>)
      requires nBitsUsed <= |vBits| && nHashUsed <= |vHash|
      modifies this`fBad
      ensures nBitsUsed' <= |vBits| && nHashUsed' <= |vHash|
      ensures Walked(Extract(hash, nTransactions, height, pos, vBits[nBitsUsed..], vHash[nHashUsed..]), old(fBad),
                     vMatch, h, vBits[nBitsUsed'..], vHash[nHashUsed'..], fBad, vMatch')
      decreases height
    {
      h, nBitsUsed', nHashUsed', vMatch' := 0, nBitsUsed, nHashUsed, vMatch;
      if nBitsUsed >= |vBits| {
        fBad := true;
        return;
      }
      var fParentOfMatch := vBits[nBitsUsed];
      nBitsUsed' := nBitsUsed + 1;
      assert vBits[nBitsUsed..][1..] == vBits[nBitsUsed'..];
      if height == 0 || !fParentOfMatch {
        if nHashUsed >= |vHash| {
          fBad := true;
          return;
        }
        h := vHash[nHashUsed];
        nHashUsed' := nHashUsed + 1;
        assert vHash[nHashUsed..][1..] == vHash[nHashUsed'..];
        if height == 0 && fParentOfMatch {
          vMatch' := vMatch + [h];
        }
      } else {
        h, nBitsUsed', nHashUsed', vMatch' := Descend(height - 1, pos, nBitsUsed, nHashUsed, vMatch);
      }
    }

    /** The traversal of a node that is parent of a masked transaction: both its subtrees. */
    method Descend(g: nat, pos: nat, nBitsUsed: nat, nHashUsed: nat, vMatch: seq<Hash>)
      returns (h: Hash, nBitsUsed': nat, nHashUsed': nat, vMatch': seq<Hash>)
      requires nBitsUsed < |vBits| && nHashUsed <= |vHash| && vBits[nBitsUsed]
      modifies this`fBad
      ensures nBitsUsed' <= |vBits| && nHashUsed' <= |vHash|
      ensures Walked(Extract(hash, nTransactions, g + 1, pos, vBits[nBitsUsed..], vHash[nHashUsed..]), old(fBad),
                     vMatch, h, vBits[nBitsUsed'..], vHash[nHashUsed'..], fBad, vMatch')
      decreases g + 1, 0
    {
      ghost var w := Extract(hash, nTransactions, g, 2 * pos, vBits[nBitsUsed + 1..], vHash[nHashUsed..]);
      ghost var bad0 := fBad;
      ExtractUnfolds(hash, nTransactions, g, pos, vBits[nBitsUsed..], vHash[nHashUsed..]);
      assert vBits[nBitsUsed..][1..] == vBits[nBitsUsed + 1..];
      hide Extract, CalcTreeWidth, Joined;
      var left;
      left, nBitsUsed', nHashUsed', vMatch' := TraverseAndExtract(g, 2 * pos, nBitsUsed + 1, nHashUsed, vMatch);
      if 2 * pos + 1 < CalcTreeWidth(nTransactions, g) {
        ghost var w' := Extract(hash, nTransactions, g, 2 * pos + 1, vBits[nBitsUsed'..], vHash[nHashUsed'..]);
        ghost var bad1, vMatch1 := fBad, vMatch';
        var right;
        right, nBitsUsed', nHashUsed', vMatch' := TraverseAndExtract(g, 2 * pos + 1, nBitsUsed', nHashUsed', vMatch');
        WalkedPair(hash, w, w', bad0, vMatch, bad1, vMatch1, vBits[nBitsUsed'..], vHash[nHashUsed'..], fBad, vMatch');
        h := hash(left, right);
      } else {
        h := hash(left, left);
      }
    }

    /** The block's root and the masked hashes, or 0 for the root when anything is wrong. */
    method ExtractMatches() returns (root: Hash, vMatch: seq<Hash>)
      modifies this`fBad
      ensures Extraction(root, vMatch) == Checked(hash, nTransactions, vBits, vHash, old(fBad))
    {
      vMatch := [];
      if nTransactions == 0 || nTransactions > MAX_TRANSACTIONS || |vHash| > nTransactions || |vBits| < |vHash| {
        return 0, [];
      }
      var nHeight := CalcHeight(nTransactions);
      var nBitsUsed, nHashUsed;
      assert vBits[0..] == vBits && vHash[0..] == vHash;
      root, nBitsUsed, nHashUsed, vMatch := TraverseAndExtract(nHeight, 0, 0, 0, []);
      if fBad {
        return 0, vMatch;
      }
      if (nBitsUsed + 7) / 8 != (|vBits| + 7) / 8 {
        return 0, vMatch;
      }
      if nHashUsed != |vHash| {
        return 0, vMatch;
      }
    }
  }

  /** From one node to another: a partial tree built from a block, sent as bytes, and read
      back yields the block's root and the masked transactions. */
  method SendAndExtract(hash: HashPair, vTxid: seq<Hash>, vMatch: seq<bool>) returns (root: Hash, matches: seq<Hash>)
    requires vTxid != [] && |vTxid| <= MAX_TRANSACTIONS && |vMatch| == |vTxid|
    ensures root == MerkleRoot(hash, vTxid) && matches == Matched(vTxid, vMatch, 0, |vTxid|)
  {
    hide Checked, BuildAll, Build, Extract, Matched, MerkleRoot, PackedBit, CalcTreeWidth, Height;
    var sent := new CPartialMerkleTree.FromBlock(hash, vTxid, vMatch);
    var vBytes := PackBits(sent.vBits);
    var received := new CPartialMerkleTree.FromBytes(hash, sent.nTransactions, sent.vHash, vBytes);
    root, matches := received.ExtractMatches();
    ghost var part := BuildAll(hash, vTxid, vMatch);
    PackedAndUnpacked(part.bits, vBytes, received.vBits);
    RoundTrip(hash, vTxid, vMatch, received.vBits[|part.bits|..]);
  }

  lemma StoredHash(hash: HashPair, txids: seq<Hash>, mask: seq<bool>, h: nat, pos: nat)
    requires |mask| == |txids| && pos < CalcTreeWidth(|txids|, h) && (h == 0 || Under(txids, mask, h, pos) == [])
    ensures Build(hash, txids, mask, h, pos) == Part([Under(txids, mask, h, pos) != []],
                                                     [CalcHash(hash, txids, h, pos)])
  {
    if h == 0 {
      BuildLeaf(hash, txids, mask, pos);
    } else {
      BuildUnfolds(hash, txids, mask, h - 1, pos);
    }
  }
}
