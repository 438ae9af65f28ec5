/** The partial Merkle tree: some of a block's transaction hashes, with the hashes needed to
    recompute the root, encoded as a list of bits and a list of hashes. */
module PartialMerkle {
  import opened Arithmetic
  import opened MerkleTree

  const MAX_BLOCK_SIZE := 1000000
  const MAX_TRANSACTIONS := MAX_BLOCK_SIZE / 60

  // ----- leaves under a node -----

  function First(h: nat, pos: nat): nat {
    pos * Pow2(h)
  }

  function Last(n: nat, h: nat, pos: nat): nat {
    var end := (pos + 1) * Pow2(h);
    if end < n then end else n
  }

  lemma NodeRange(n: nat, h: nat, pos: nat)
    requires pos < CalcTreeWidth(n, h)
    ensures First(h, pos) < Last(n, h, pos) <= n
  {
    NodeExists(n, h, pos);
    assert (pos + 1) * Pow2(h) == pos * Pow2(h) + Pow2(h);
  }

  /** A node's leaves are those of its left child followed by those of its right child, if any. */
  lemma ChildRanges(n: nat, h: nat, pos: nat)
    requires pos < CalcTreeWidth(n, h + 1)
    ensures 2 * pos < CalcTreeWidth(n, h)
    ensures First(h + 1, pos) == First(h, 2 * pos)
    ensures 2 * pos + 1 < CalcTreeWidth(n, h) ==>
              Last(n, h, 2 * pos) == First(h, 2 * pos + 1) && Last(n, h + 1, pos) == Last(n, h, 2 * pos + 1)
    ensures 2 * pos + 1 >= CalcTreeWidth(n, h) ==> Last(n, h + 1, pos) == Last(n, h, 2 * pos)
  {
    LeftChildExists(n, h, pos);
    NodeExists(n, h, 2 * pos + 1);
    hide CalcTreeWidth;
    var b := Pow2(h);
    assert Pow2(h + 1) == 2 * b;
    assert pos * (2 * b) == 2 * pos * b;
    assert (pos + 1) * (2 * b) == (2 * pos + 1 + 1) * b;
    assert (2 * pos + 1 + 1) * b == (2 * pos + 1) * b + b;
  }

  // ----- the masked transactions -----

  predicate AnyMatch(mask: seq<bool>, lo: nat, hi: nat)
    requires hi <= |mask|
  {
    exists p :: lo <= p < hi && mask[p]
  }

  /** The masked transaction hashes among leaves lo to hi, in block order. */
  function Matched(txids: seq<Hash>, mask: seq<bool>, lo: nat, hi: nat): seq<Hash>
    requires lo <= hi <= |txids| == |mask|
    decreases hi - lo
  {
    if lo == hi then []
    else (if mask[lo] then [txids[lo]] else []) + Matched(txids, mask, lo + 1, hi)
  }

  lemma {:induction false} MatchedSplits(txids: seq<Hash>, mask: seq<bool>, lo: nat, mid: nat, hi: nat)
    requires lo <= mid <= hi <= |txids| == |mask|
    ensures Matched(txids, mask, lo, hi) == Matched(txids, mask, lo, mid) + Matched(txids, mask, mid, hi)
    decreases mid - lo
  {
    if lo < mid {
      MatchedSplits(txids, mask, lo + 1, mid, hi);
    }
  }

  lemma {:induction false} NothingMatched(txids: seq<Hash>, mask: seq<bool>, lo: nat, hi: nat)
    requires lo <= hi <= |txids| == |mask|
    ensures AnyMatch(mask, lo, hi) <==> Matched(txids, mask, lo, hi) != []
    decreases hi - lo
  {
    if lo < hi {
      NothingMatched(txids, mask, lo + 1, hi);
    }
  }

  lemma MatchedUnfolds(txids: seq<Hash>, mask: seq<bool>, lo: nat, hi: nat)
    requires lo < hi <= |txids| == |mask|
    ensures Matched(txids, mask, lo, hi) == (if mask[lo] then [txids[lo]] else []) + Matched(txids, mask, lo + 1, hi)
  {
  }

  /** Only the mask inside the range matters. */
  lemma {:induction false} MatchedAgree(txids: seq<Hash>, mask: seq<bool>, mask': seq<bool>, lo: nat, hi: nat)
    requires lo <= hi <= |txids| == |mask| == |mask'| && forall p :: lo <= p < hi ==> mask[p] == mask'[p]
    ensures Matched(txids, mask, lo, hi) == Matched(txids, mask', lo, hi)
    decreases hi - lo
  {
    if lo < hi {
      MatchedUnfolds(txids, mask, lo, hi);
      MatchedUnfolds(txids, mask', lo, hi);
      hide Matched;
      assert mask[lo] == mask'[lo];
      MatchedAgree(txids, mask, mask', lo + 1, hi);
    }
  }

  // ----- building -----

  datatype Part = Part(bits: seq<bool>, hashes: seq<Hash>)

  /** What the traversal of the subtree under a node stores. */
  function Build(hash: HashPair, txids: seq<Hash>, mask: seq<bool>, h: nat, pos: nat): Part
    requires |mask| == |txids| && pos < CalcTreeWidth(|txids|, h)
    decreases h
  {
    NodeRange(|txids|, h, pos);
    var f := AnyMatch(mask, First(h, pos), Last(|txids|, h, pos));
    if h == 0 || !f then Part([f], [CalcHash(hash, txids, h, pos)])
    else
      WidthHalves(|txids|, h - 1);
      var left := Build(hash, txids, mask, h - 1, 2 * pos);
      if 2 * pos + 1 < CalcTreeWidth(|txids|, h - 1) then
        var right := Build(hash, txids, mask, h - 1, 2 * pos + 1);
        Part([f] + left.bits + right.bits, left.hashes + right.hashes)
      else
        Part([f] + left.bits, left.hashes)
  }

  /** The masked transactions under a node. */
  function Under(txids: seq<Hash>, mask: seq<bool>, h: nat, pos: nat): seq<Hash>
    requires |mask| == |txids| && pos < CalcTreeWidth(|txids|, h)
  {
    NodeRange(|txids|, h, pos);
    Matched(txids, mask, First(h, pos), Last(|txids|, h, pos))
  }

  lemma UnderSplits(txids: seq<Hash>, mask: seq<bool>, h: nat, pos: nat)
    requires |mask| == |txids| && pos < CalcTreeWidth(|txids|, h + 1)
    ensures 2 * pos < CalcTreeWidth(|txids|, h)
    ensures Under(txids, mask, h + 1, pos) ==
              Under(txids, mask, h, 2 * pos) + if 2 * pos + 1 < CalcTreeWidth(|txids|, h)
                then Under(txids, mask, h, 2 * pos + 1) else []
  {
    ChildRanges(|txids|, h, pos);
    NodeRange(|txids|, h, 2 * pos);
    if 2 * pos + 1 < CalcTreeWidth(|txids|, h) {
      NodeRange(|txids|, h, 2 * pos + 1);
      MatchedSplits(txids, mask, First(h + 1, pos), Last(|txids|, h, 2 * pos), Last(|txids|, h + 1, pos));
    }
  }

  /** The two shapes of a built subtree. */
  lemma BuildUnfolds(hash: HashPair, txids: seq<Hash>, mask: seq<bool>, h: nat, pos: nat)
    requires |mask| == |txids| && pos < CalcTreeWidth(|txids|, h + 1)
    ensures 2 * pos < CalcTreeWidth(|txids|, h)
    ensures Build(hash, txids, mask, h + 1, pos) ==
              if Under(txids, mask, h + 1, pos) == [] then Part([false], [CalcHash(hash, txids, h + 1, pos)])
              else
                var left := Build(hash, txids, mask, h, 2 * pos);
                if 2 * pos + 1 < CalcTreeWidth(|txids|, h) then
                  var right := Build(hash, txids, mask, h, 2 * pos + 1);
                  Part([true] + left.bits + right.bits, left.hashes + right.hashes)
                else Part([true] + left.bits, left.hashes)
  {
    NodeRange(|txids|, h + 1, pos);
    NothingMatched(txids, mask, First(h + 1, pos), Last(|txids|, h + 1, pos));
    WidthHalves(|txids|, h);
  }

  lemma BuildLeaf(hash: HashPair, txids: seq<Hash>, mask: seq<bool>, pos: nat)
    requires |mask| == |txids| && pos < CalcTreeWidth(|txids|, 0)
    ensures pos < |txids| && Build(hash, txids, mask, 0, pos) == Part([mask[pos]], [txids[pos]])
    ensures CalcHash(hash, txids, 0, pos) == txids[pos]
    ensures Under(txids, mask, 0, pos) == if mask[pos] then [txids[pos]] else []
  {
    WidthOfLeaves(|txids|);
    assert First(0, pos) == pos && Last(|txids|, 0, pos) == pos + 1;
    assert Matched(txids, mask, pos + 1, pos + 1) == [];
    assert AnyMatch(mask, pos, pos + 1) <==> mask[pos];
  }

  /** The size bounds of a subtree over some leaves, k of them masked: there are no more
      hashes than leaves, and both lists are short when few leaves are masked. */
  ghost predicate SizesOk(part: Part, leaves: int, k: nat, h: nat) {
    && 1 <= |part.hashes| <= |part.bits|
    && |part.hashes| <= leaves
    && |part.hashes| <= 1 + k * h
    && |part.bits| <= 1 + 2 * (k * h)
  }

  lemma SizesOfTwo(left: Part, right: Part, leavesL: int, leavesR: int, kl: nat, kr: nat, h: nat)
    requires SizesOk(left, leavesL, kl, h) && SizesOk(right, leavesR, kr, h) && kl + kr > 0
    ensures SizesOk(Part([true] + left.bits + right.bits, left.hashes + right.hashes), leavesL + leavesR, kl + kr,
                    h + 1)
  {
    assert (kl + kr) * (h + 1) == kl * h + kr * h + kl + kr;
  }

  lemma SizesOfOne(left: Part, leaves: int, k: nat, h: nat)
    requires SizesOk(left, leaves, k, h) && k > 0
    ensures SizesOk(Part([true] + left.bits, left.hashes), leaves, k, h + 1)
  {
    assert k * (h + 1) == k * h + k;
  }

  ghost predicate BuildSizesOk(hash: HashPair, txids: seq<Hash>, mask: seq<bool>, h: nat, pos: nat)
    requires |mask| == |txids| && pos < CalcTreeWidth(|txids|, h)
  {
    SizesOk(Build(hash, txids, mask, h, pos), Last(|txids|, h, pos) - First(h, pos), |Under(txids, mask, h, pos)|, h)
  }

  lemma SizesOfPruned(hash: HashPair, txids: seq<Hash>, mask: seq<bool>, g: nat, pos: nat)
    requires |mask| == |txids| && pos < CalcTreeWidth(|txids|, g + 1) && Under(txids, mask, g + 1, pos) == []
    ensures BuildSizesOk(hash, txids, mask, g + 1, pos)
  {
    BuildUnfolds(hash, txids, mask, g, pos);
    NodeRange(|txids|, g + 1, pos);
  }

  lemma SizesOfParent(hash: HashPair, txids: seq<Hash>, mask: seq<bool>, g: nat, pos: nat)
    requires |mask| == |txids| && pos < CalcTreeWidth(|txids|, g + 1) && Under(txids, mask, g + 1, pos) != []
    requires 2 * pos < CalcTreeWidth(|txids|, g) && BuildSizesOk(hash, txids, mask, g, 2 * pos)
    requires 2 * pos + 1 < CalcTreeWidth(|txids|, g) ==> BuildSizesOk(hash, txids, mask, g, 2 * pos + 1)
    ensures BuildSizesOk(hash, txids, mask, g + 1, pos)
  {
    BuildUnfolds(hash, txids, mask, g, pos);
    UnderSplits(txids, mask, g, pos);
    ChildRanges(|txids|, g, pos);
    hide Build, Under, First, Last, CalcTreeWidth, Pow2, SizesOk;
    var n, left, under := |txids|, Build(hash, txids, mask, g, 2 * pos), Under(txids, mask, g, 2 * pos);
    if 2 * pos + 1 < CalcTreeWidth(n, g) {
      SizesOfTwo(left, Build(hash, txids, mask, g, 2 * pos + 1), Last(n, g, 2 * pos) - First(g, 2 * pos),
                 Last(n, g, 2 * pos + 1) - First(g, 2 * pos + 1), |under|, |Under(txids, mask, g, 2 * pos + 1)|, g);
    } else {
      SizesOfOne(left, Last(n, g, 2 * pos) - First(g, 2 * pos), |under|, g);
    }
  }

  lemma {:induction false} BuildSizes(hash: HashPair, txids: seq<Hash>, mask: seq<bool>, h: nat, pos: nat)
    requires |mask| == |txids| && pos < CalcTreeWidth(|txids|, h)
    ensures BuildSizesOk(hash, txids, mask, h, pos)
    decreases h
  {
    if h == 0 {
      BuildLeaf(hash, txids, mask, pos);
      NodeRange(|txids|, h, pos);
    } else if Under(txids, mask, h, pos) == [] {
      SizesOfPruned(hash, txids, mask, h - 1, pos);
    } else {
      LeftChildExists(|txids|, h - 1, pos);
      hide BuildSizesOk, CalcTreeWidth, Build, Under;
      BuildSizes(hash, txids, mask, h - 1, 2 * pos);
      if 2 * pos + 1 < CalcTreeWidth(|txids|, h - 1) {
        BuildSizes(hash, txids, mask, h - 1, 2 * pos + 1);
      }
      SizesOfParent(hash, txids, mask, h - 1, pos);
    }
  }

  // ----- extracting -----

  /** The outcome of a traversal: the node's hash, the bits and hashes left over, whether
      the data ran out, and the masked hashes met. */
  datatype Walk = Walk(hash: Hash, bits: seq<bool>, hashes: seq<Hash>, bad: bool, matches: seq<Hash>)

  function Extract(hash: HashPair, n: nat, h: nat, pos: nat, bits: seq<bool>, hashes: seq<Hash>): Walk
    decreases h
  {
    if bits == [] then Walk(0, [], hashes, true, [])
    else if h == 0 || !bits[0] then
      if hashes == [] then Walk(0, bits[1..], [], true, [])
      else Walk(hashes[0], bits[1..], hashes[1..], false, if h == 0 && bits[0] then [hashes[0]] else [])
    else
      var left := Extract(hash, n, h - 1, 2 * pos, bits[1..], hashes);
      if 2 * pos + 1 < CalcTreeWidth(n, h - 1) then
        Joined(hash, left, Extract(hash, n, h - 1, 2 * pos + 1, left.bits, left.hashes))
      else
        left.(hash := hash(left.hash, left.hash))
  }

  /** Two subtrees extracted one after the other. */
  function Joined(hash: HashPair, left: Walk, right: Walk): Walk {
    Walk(hash(left.hash, right.hash), right.bits, right.hashes, left.bad || right.bad, left.matches + right.matches)
  }

  lemma ExtractUnfolds(hash: HashPair, n: nat, g: nat, pos: nat, bits: seq<bool>, hashes: seq<Hash>)
    requires bits != [] && bits[0]
    ensures Extract(hash, n, g + 1, pos, bits, hashes) ==
              var left := Extract(hash, n, g, 2 * pos, bits[1..], hashes);
              if 2 * pos + 1 < CalcTreeWidth(n, g)
              then Joined(hash, left, Extract(hash, n, g, 2 * pos + 1, left.bits, left.hashes))
              else left.(hash := hash(left.hash, left.hash))
  {
  }

  /** Extracting what was built under a node yields the node's hash and the masked
      transactions, and leaves exactly what followed. */
  ghost predicate ExtractsBack(hash: HashPair, txids: seq<Hash>, mask: seq<bool>, h: nat, pos: nat, bits: seq<bool>,
                               hashes: seq<Hash>)
    requires |mask| == |txids| && pos < CalcTreeWidth(|txids|, h)
  {
    var part := Build(hash, txids, mask, h, pos);
    Extract(hash, |txids|, h, pos, part.bits + bits, part.hashes + hashes) ==
      Walk(CalcHash(hash, txids, h, pos), bits, hashes, false, Under(txids, mask, h, pos))
  }

  lemma LeafExtractsBack(hash: HashPair, txids: seq<Hash>, mask: seq<bool>, pos: nat, bits: seq<bool>,
                         hashes: seq<Hash>)
    requires |mask| == |txids| && pos < CalcTreeWidth(|txids|, 0)
    ensures ExtractsBack(hash, txids, mask, 0, pos, bits, hashes)
  {
    BuildLeaf(hash, txids, mask, pos);
    hide Build, CalcHash, Under, CalcTreeWidth, Pow2;
  }

  lemma PrunedExtractsBack(hash: HashPair, txids: seq<Hash>, mask: seq<bool>, g: nat, pos: nat, bits: seq<bool>,
                           hashes: seq<Hash>)
    requires |mask| == |txids| && pos < CalcTreeWidth(|txids|, g + 1) && Under(txids, mask, g + 1, pos) == []
    ensures ExtractsBack(hash, txids, mask, g + 1, pos, bits, hashes)
  {
    BuildUnfolds(hash, txids, mask, g, pos);
    hide Build, CalcHash, Under, CalcTreeWidth, Pow2;
  }

  lemma PairExtractsBack(hash: HashPair, txids: seq<Hash>, mask: seq<bool>, g: nat, pos: nat, bits: seq<bool>,
                         hashes: seq<Hash>, right: Part)
    requires |mask| == |txids| && pos < CalcTreeWidth(|txids|, g + 1) && Under(txids, mask, g + 1, pos) != []
    requires 2 * pos + 1 < CalcTreeWidth(|txids|, g) && right == Build(hash, txids, mask, g, 2 * pos + 1)
    requires ExtractsBack(hash, txids, mask, g, 2 * pos, right.bits + bits, right.hashes + hashes)
    requires ExtractsBack(hash, txids, mask, g, 2 * pos + 1, bits, hashes)
    ensures ExtractsBack(hash, txids, mask, g + 1, pos, bits, hashes)
  {
    BuildUnfolds(hash, txids, mask, g, pos);
    UnderSplits(txids, mask, g, pos);
    CalcHashUnfolds(hash, txids, g, pos);
    var left := Build(hash, txids, mask, g, 2 * pos);
    Regrouped(left, right, bits, hashes);
    ExtractUnfolds(hash, |txids|, g, pos, [true] + left.bits + right.bits + bits, left.hashes + right.hashes + hashes);
    hide Build, CalcHash, Under, CalcTreeWidth, Pow2, Extract;
  }

  lemma SingleExtractsBack(hash: HashPair, txids: seq<Hash>, mask: seq<bool>, g: nat, pos: nat, bits: seq<bool>,
                           hashes: seq<Hash>)
    requires |mask| == |txids| && pos < CalcTreeWidth(|txids|, g + 1) && Under(txids, mask, g + 1, pos) != []
    requires 2 * pos < CalcTreeWidth(|txids|, g) <= 2 * pos + 1
    requires ExtractsBack(hash, txids, mask, g, 2 * pos, bits, hashes)
    ensures ExtractsBack(hash, txids, mask, g + 1, pos, bits, hashes)
  {
    BuildUnfolds(hash, txids, mask, g, pos);
    UnderSplits(txids, mask, g, pos);
    CalcHashUnfolds(hash, txids, g, pos);
    var left := Build(hash, txids, mask, g, 2 * pos);
    var all := [true] + left.bits + bits;
    assert all[1..] == left.bits + bits && all[0];
    ExtractUnfolds(hash, |txids|, g, pos, all, left.hashes + hashes);
    hide Build, CalcHash, Under, CalcTreeWidth, Pow2, Extract, Joined;
  }

  lemma Regrouped(left: Part, right: Part, bits: seq<bool>, hashes: seq<Hash>)
    ensures ([true] + left.bits + right.bits + bits)[1..] == left.bits + (right.bits + bits)
    ensures left.hashes + right.hashes + hashes == left.hashes + (right.hashes + hashes)
  {
  }

  /** Round trip of every subtree. */
  lemma {:induction false} BuiltExtractsBack(hash: HashPair, txids: seq<Hash>, mask: seq<bool>, h: nat, pos: nat,
                                             bits: seq<bool>, hashes: seq<Hash>)
    requires |mask| == |txids| && pos < CalcTreeWidth(|txids|, h)
    ensures ExtractsBack(hash, txids, mask, h, pos, bits, hashes)
    decreases h
  {
    if h == 0 {
      LeafExtractsBack(hash, txids, mask, pos, bits, hashes);
    } else if Under(txids, mask, h, pos) == [] {
      PrunedExtractsBack(hash, txids, mask, h - 1, pos, bits, hashes);
    } else {
      LeftChildExists(|txids|, h - 1, pos);
      if 2 * pos + 1 < CalcTreeWidth(|txids|, h - 1) {
        PairBuiltExtractsBack(hash, txids, mask, h - 1, pos, bits, hashes);
      } else {
        hide ExtractsBack, CalcTreeWidth, Build, Under;
        BuiltExtractsBack(hash, txids, mask, h - 1, 2 * pos, bits, hashes);
        SingleExtractsBack(hash, txids, mask, h - 1, pos, bits, hashes);
      }
    }
  }

  lemma {:induction false} PairBuiltExtractsBack(hash: HashPair, txids: seq<Hash>, mask: seq<bool>, g: nat, pos: nat,
                                                 bits: seq<bool>, hashes: seq<Hash>)
    requires |mask| == |txids| && pos < CalcTreeWidth(|txids|, g + 1) && Under(txids, mask, g + 1, pos) != []
    requires 2 * pos + 1 < CalcTreeWidth(|txids|, g)
    ensures ExtractsBack(hash, txids, mask, g + 1, pos, bits, hashes)
    decreases g + 1, 0
  {
    hide ExtractsBack, CalcTreeWidth, Build, Under;
    var right := Build(hash, txids, mask, g, 2 * pos + 1);
    BuiltExtractsBack(hash, txids, mask, g, 2 * pos, right.bits + bits, right.hashes + hashes);
    BuiltExtractsBack(hash, txids, mask, g, 2 * pos + 1, bits, hashes);
    PairExtractsBack(hash, txids, mask, g, pos, bits, hashes, right);
  }

  // ----- soundness -----

  /** What was extracted under a node is what some mask selects there: real transaction
      hashes of the block, in block order. */
  ghost predicate Genuine(txids: seq<Hash>, h: nat, pos: nat, matches: seq<Hash>)
    requires pos < CalcTreeWidth(|txids|, h)
  {
    exists mask :: |mask| == |txids| && matches == Under(txids, mask, h, pos)
  }

  lemma GenuineLeaf(hash: HashPair, txids: seq<Hash>, pos: nat, match_: bool)
    requires pos < CalcTreeWidth(|txids|, 0)
    ensures Genuine(txids, 0, pos, if match_ then [CalcHash(hash, txids, 0, pos)] else [])
  {
    var mask := seq(|txids|, p => match_);
    BuildLeaf(hash, txids, mask, pos);
    hide Under, CalcTreeWidth, Pow2;
    assert |mask| == |txids| && (if match_ then [CalcHash(hash, txids, 0, pos)] else []) == Under(txids, mask, 0, pos);
  }

  lemma GenuineNothing(txids: seq<Hash>, h: nat, pos: nat)
    requires pos < CalcTreeWidth(|txids|, h)
    ensures Genuine(txids, h, pos, [])
  {
    var mask := seq(|txids|, p => false);
    NodeRange(|txids|, h, pos);
    NothingMatched(txids, mask, First(h, pos), Last(|txids|, h, pos));
    assert |mask| == |txids| && [] == Under(txids, mask, h, pos);
  }

  lemma UnderAgree(txids: seq<Hash>, mask: seq<bool>, mask': seq<bool>, h: nat, pos: nat)
    requires |mask| == |mask'| == |txids| && pos < CalcTreeWidth(|txids|, h)
    requires forall p :: First(h, pos) <= p < Last(|txids|, h, pos) ==> 0 <= p < |txids| && mask[p] == mask'[p]
    ensures Under(txids, mask, h, pos) == Under(txids, mask', h, pos)
  {
    NodeRange(|txids|, h, pos);
    MatchedAgree(txids, mask, mask', First(h, pos), Last(|txids|, h, pos));
  }

  lemma GenuinePair(txids: seq<Hash>, g: nat, pos: nat, left: seq<Hash>, right: seq<Hash>)
    requires pos < CalcTreeWidth(|txids|, g + 1) && 2 * pos + 1 < CalcTreeWidth(|txids|, g)
    requires Genuine(txids, g, 2 * pos, left) && Genuine(txids, g, 2 * pos + 1, right)
    ensures Genuine(txids, g + 1, pos, left + right)
  {
    var n := |txids|;
    var ml :| |ml| == n && left == Under(txids, ml, g, 2 * pos);
    var mr :| |mr| == n && right == Under(txids, mr, g, 2 * pos + 1);
    var mid := First(g, 2 * pos + 1);
    ChildRanges(n, g, pos);
    NodeRange(n, g, 2 * pos);
    NodeRange(n, g, 2 * pos + 1);
    var mask := ml[..mid] + mr[mid..];
    hide Under, Pow2, CalcTreeWidth;
    UnderAgree(txids, mask, ml, g, 2 * pos);
    UnderAgree(txids, mask, mr, g, 2 * pos + 1);
    UnderSplits(txids, mask, g, pos);
    hide First, Last;
    assert |mask| == n && left + right == Under(txids, mask, g + 1, pos);
  }

  lemma GenuineSingle(txids: seq<Hash>, g: nat, pos: nat, left: seq<Hash>)
    requires pos < CalcTreeWidth(|txids|, g + 1) && 2 * pos < CalcTreeWidth(|txids|, g) <= 2 * pos + 1
    requires Genuine(txids, g, 2 * pos, left)
    ensures Genuine(txids, g + 1, pos, left)
  {
    var mask :| |mask| == |txids| && left == Under(txids, mask, g, 2 * pos);
    UnderSplits(txids, mask, g, pos);
    hide Under, CalcTreeWidth, Pow2;
    assert |mask| == |txids| && left == Under(txids, mask, g + 1, pos);
  }

  /** Whatever bits and hashes were sent: if they lead to the node's true hash, the hashes
      extracted on the way are genuine. */
  lemma {:induction false} ExtractIsSound(hash: HashPair, txids: seq<Hash>, h: nat, pos: nat, bits: seq<bool>,
                                          hashes: seq<Hash>)
    requires Injective(hash) && pos < CalcTreeWidth(|txids|, h)
    requires var w := Extract(hash, |txids|, h, pos, bits, hashes); !w.bad && w.hash == CalcHash(hash, txids, h, pos)
    ensures Genuine(txids, h, pos, Extract(hash, |txids|, h, pos, bits, hashes).matches)
    decreases h
  {
    if h == 0 {
      GenuineLeaf(hash, txids, pos, bits[0]);
    } else if !bits[0] {
      GenuineNothing(txids, h, pos);
    } else {
      NodeIsSound(hash, txids, h - 1, pos, bits, hashes);
    }
  }

  lemma {:induction false} NodeIsSound(hash: HashPair, txids: seq<Hash>, g: nat, pos: nat, bits: seq<bool>,
                                       hashes: seq<Hash>)
    requires Injective(hash) && pos < CalcTreeWidth(|txids|, g + 1) && bits != [] && bits[0]
    requires var w := Extract(hash, |txids|, g + 1, pos, bits, hashes);
             !w.bad && w.hash == CalcHash(hash, txids, g + 1, pos)
    ensures Genuine(txids, g + 1, pos, Extract(hash, |txids|, g + 1, pos, bits, hashes).matches)
    decreases g + 1, 0
  {
    CalcHashUnfolds(hash, txids, g, pos);
    ExtractUnfolds(hash, |txids|, g, pos, bits, hashes);
    var n := |txids|;
    hide CalcTreeWidth, Pow2, CalcHash, Genuine, Injective, Extract;
    var left := Extract(hash, n, g, 2 * pos, bits[1..], hashes);
    if 2 * pos + 1 < CalcTreeWidth(n, g) {
      var right := Extract(hash, n, g, 2 * pos + 1, left.bits, left.hashes);
      InjectiveAt(hash, left.hash, right.hash, CalcHash(hash, txids, g, 2 * pos),
                  CalcHash(hash, txids, g, 2 * pos + 1));
      ExtractIsSound(hash, txids, g, 2 * pos, bits[1..], hashes);
      ExtractIsSound(hash, txids, g, 2 * pos + 1, left.bits, left.hashes);
      GenuinePair(txids, g, pos, left.matches, right.matches);
    } else {
      InjectiveAt(hash, left.hash, left.hash, CalcHash(hash, txids, g, 2 * pos), CalcHash(hash, txids, g, 2 * pos));
      ExtractIsSound(hash, txids, g, 2 * pos, bits[1..], hashes);
      GenuineSingle(txids, g, pos, left.matches);
    }
  }
}
