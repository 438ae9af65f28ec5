/** The tree of block index entries.  An entry's link to its predecessor never changes, so an
    entry is a value that contains its whole past; what does change (forward links, supplies)
    is kept in maps by the class in ChainState.dfy. */
module ChainTree {
  import opened Basics
  import opened TxIndexing
  import opened UndoBlock

  datatype BlockIndex =
    | Genesis(block: Block, nBlockTrust: nat)
    | Child(pprev: BlockIndex, block: Block, nBlockTrust: nat)
  {
    function Hash(): nat {
      block.hash
    }

    function Height(): nat {
      if Genesis? then 0 else pprev.Height() + 1
    }

    function ChainTrust(): nat {
      if Genesis? then nBlockTrust else pprev.ChainTrust() + nBlockTrust
    }

    function Root(): BlockIndex {
      if Genesis? then this else pprev.Root()
    }
  }

  /** a is b or one of its predecessors. */
  predicate IsAncestor(a: BlockIndex, b: BlockIndex) {
    a == b || (b.Child? && IsAncestor(a, b.pprev))
  }

  /** b's predecessor at height h. */
  function AncestorAt(b: BlockIndex, h: nat): (a: BlockIndex)
    requires h <= b.Height()
    ensures IsAncestor(a, b) && a.Height() == h
  {
    if b.Height() == h then b else AncestorAt(b.pprev, h)
  }

  lemma {:induction false} AncestorHeight(a: BlockIndex, b: BlockIndex)
    requires IsAncestor(a, b)
    ensures a.Height() <= b.Height() && a.Root() == b.Root() && a.ChainTrust() <= b.ChainTrust()
    ensures a.Height() == b.Height() ==> a == b
  {
    if a != b {
      AncestorHeight(a, b.pprev);
    }
  }

  lemma {:induction false} AncestorIsAt(a: BlockIndex, b: BlockIndex)
    requires IsAncestor(a, b)
    ensures a.Height() <= b.Height() && a == AncestorAt(b, a.Height())
  {
    AncestorHeight(a, b);
    if a != b {
      AncestorIsAt(a, b.pprev);
    }
  }

  lemma {:induction false} AncestorTransitive(a: BlockIndex, b: BlockIndex, c: BlockIndex)
    requires IsAncestor(a, b) && IsAncestor(b, c)
    ensures IsAncestor(a, c)
    decreases c
  {
    if b != c {
      AncestorTransitive(a, b, c.pprev);
    }
  }

  lemma {:induction false} RootIsAncestor(b: BlockIndex)
    ensures IsAncestor(b.Root(), b) && b.Root().Genesis?
  {
    if b.Child? {
      RootIsAncestor(b.pprev);
    }
  }

  // ----- the fork -----

  /** The last common ancestor. */
  ghost predicate IsFork(fork: BlockIndex, a: BlockIndex, b: BlockIndex) {
    && IsAncestor(fork, a) && IsAncestor(fork, b)
    && forall c :: IsAncestor(c, a) && IsAncestor(c, b) ==> IsAncestor(c, fork)
  }

  /** Nothing common to a and b is lost when looking at x and y instead. */
  ghost predicate KeepsCommon(a: BlockIndex, b: BlockIndex, x: BlockIndex, y: BlockIndex) {
    && IsAncestor(x, a) && IsAncestor(y, b)
    && forall c :: IsAncestor(c, a) && IsAncestor(c, b) ==> IsAncestor(c, x) && IsAncestor(c, y)
  }

  lemma StepLonger(a: BlockIndex, b: BlockIndex, x: BlockIndex, y: BlockIndex)
    requires KeepsCommon(a, b, x, y) && y.Height() > x.Height()
    ensures y.Child? && KeepsCommon(a, b, x, y.pprev)
  {
    AncestorTransitive(y.pprev, y, b);
    forall c | IsAncestor(c, a) && IsAncestor(c, b) ensures IsAncestor(c, y.pprev) {
      AncestorHeight(c, x);
    }
  }

  /** An entry that differs from one no higher, of the same tree, is not the genesis entry. */
  lemma NotGenesis(x: BlockIndex, y: BlockIndex)
    requires y.Height() <= x.Height() && x != y && x.Root() == y.Root()
    ensures x.Child? && IsAncestor(x.pprev, x)
  {
  }

  lemma StepBack(a: BlockIndex, b: BlockIndex, x: BlockIndex, y: BlockIndex)
    requires KeepsCommon(a, b, x, y) && y.Height() <= x.Height() && x != y && a.Root() == b.Root()
    ensures x.Child? && KeepsCommon(a, b, x.pprev, y)
  {
    hide IsAncestor, BlockIndex.Height, BlockIndex.Root;
    AncestorHeight(x, a);
    AncestorHeight(y, b);
    NotGenesis(x, y);
    AncestorTransitive(x.pprev, x, a);
    forall c | IsAncestor(c, a) && IsAncestor(c, b) ensures IsAncestor(c, x.pprev) {
      AncestorBelow(c, x, y);
    }
  }

  lemma AncestorBelow(c: BlockIndex, x: BlockIndex, y: BlockIndex)
    requires IsAncestor(c, x) && IsAncestor(c, y) && y.Height() <= x.Height() && x != y && x.Child?
    ensures IsAncestor(c, x.pprev)
  {
    AncestorHeight(c, y);
  }

  /** Finds the fork by walking back on both branches. */
  method FindFork(pindexBest: BlockIndex, pindexNew: BlockIndex) returns (ok: bool, pfork: BlockIndex)
    requires pindexBest.Root() == pindexNew.Root()
    ensures ok && IsFork(pfork, pindexBest, pindexNew)
  {
    pfork := pindexBest;
    var plonger := pindexNew;
    while pfork != plonger
      invariant KeepsCommon(pindexBest, pindexNew, pfork, plonger)
      decreases pfork.Height() + plonger.Height()
    {
      hide KeepsCommon;
      while plonger.Height() > pfork.Height()
        invariant KeepsCommon(pindexBest, pindexNew, pfork, plonger)
        decreases plonger.Height()
      {
        StepLonger(pindexBest, pindexNew, pfork, plonger);
        plonger := plonger.pprev;
      }
      if pfork == plonger {
        break;
      }
      StepBack(pindexBest, pindexNew, pfork, plonger);
      pfork := pfork.pprev;
    }
    ok := true;
  }

  // ----- paths -----

  /** From b back to just after its predecessor `fork`. */
  function PathDown(b: BlockIndex, fork: BlockIndex): seq<BlockIndex>
    requires IsAncestor(fork, b)
  {
    if b == fork then [] else [b] + PathDown(b.pprev, fork)
  }

  /** From just after `fork` up to b. */
  function PathUp(b: BlockIndex, fork: BlockIndex): seq<BlockIndex>
    requires IsAncestor(fork, b)
  {
    if b == fork then [] else PathUp(b.pprev, fork) + [b]
  }

  // ----- forward links -----

  /** The forward links of the chain that ends at tip. */
  function Links(tip: BlockIndex): map<nat, BlockIndex> {
    if tip.Genesis? then map[] else Links(tip.pprev)[tip.pprev.Hash() := tip]
  }

  /** No two entries of the chain have the same hash. */
  predicate UniqueHashes(tip: BlockIndex) {
    tip.Child? ==> UniqueHashes(tip.pprev) && tip.Hash() !in Links(tip.pprev) && tip.Hash() != tip.pprev.Hash()
  }

  lemma {:induction false} LinkedAreProperAncestors(tip: BlockIndex, h: nat)
    ensures h in Links(tip) <==> exists a :: IsAncestor(a, tip) && a != tip && a.Hash() == h
  {
    if tip.Child? {
      LinkedAreProperAncestors(tip.pprev, h);
      if h in Links(tip) {
        if h == tip.pprev.Hash() {
          assert IsAncestor(tip.pprev, tip) && tip.pprev != tip;
        } else {
          var a :| IsAncestor(a, tip.pprev) && a != tip.pprev && a.Hash() == h;
          AncestorHeight(a, tip.pprev);
          assert IsAncestor(a, tip) && a != tip;
        }
      }
    }
  }

  // ----- the index a chain yields -----

  /** The index got by connecting the predecessors of b, and b, in order from the genesis
      block; the genesis block's own transactions are never connected. */
  function IndexOf(b: BlockIndex): Option<View> {
    if b.Genesis? then Some(map[])
    else
      var before := IndexOf(b.pprev);
      if before.None? then None else ConnectTxs(before.value, b.block, |b.block.vtx|)
  }

  /** The assumption on a block under which it can be disconnected again: its transactions
      are new to the chain it extends, and anonymous input shapes stay in the block. */
  ghost predicate UndoableInPlace(b: BlockIndex) {
    b.Child? && IndexOf(b.pprev).Some? ==> Undoable(IndexOf(b.pprev).value, b.block)
  }

  /** Every block of the chain has distinct transactions and connects. */
  ghost predicate Connects(b: BlockIndex) {
    && IndexOf(b).Some?
    && (b.Child? ==> Connects(b.pprev) && DistinctTxids(b.block))
  }

  /** Disconnecting the tip yields the index of its predecessor. */
  lemma DisconnectTip(b: BlockIndex)
    requires b.Child? && Connects(b) && UndoableInPlace(b)
    ensures IndexOf(b.pprev).Some?
    ensures DisconnectTxs(IndexOf(b).value, b.block, |b.block.vtx|) == IndexOf(b.pprev)
  {
    DisconnectRestoresExactlyWhenUndoable(IndexOf(b.pprev).value, b.block);
  }
}
