/** What the steps of the chain state machine do, written out on blocks, links and what the database holds. */
module ChainLaws {
  import opened Basics
  import opened ChainAgreement
  import opened ChainPaths
  import opened ChainSteps
  import opened ChainTree
  import opened ConnectBlocks
  import opened TxIndexing

  // ----- chains -----

  /** Trust and height add up along a chain, and a block's ancestors are itself and those of its
      predecessor. */
  lemma ChainAddsUp(b: BlockIndex, a: BlockIndex)
    ensures b.Genesis? ==> b.ChainTrust() == b.nBlockTrust && b.Height() == 0 && (IsAncestor(a, b) <==> a == b)
    ensures b.Child? ==>
              && b.ChainTrust() - b.nBlockTrust == b.pprev.ChainTrust() && b.Height() - 1 == b.pprev.Height()
              && (!IsAncestor(a, b) <==> a != b && !IsAncestor(a, b.pprev))
  {
  }

  /** The way down starts with the block and goes from predecessor to predecessor as far as the
      fork, and the way up is the same backwards. */
  lemma {:induction false} WaysAre(b: BlockIndex, fork: BlockIndex)
    requires IsAncestor(fork, b)
    ensures fork.Height() <= b.Height()
    ensures var down, up := PathDown(b, fork), PathUp(b, fork);
            && |down| == |up| == b.Height() - fork.Height()
            && (forall i :: 0 <= i < |down| ==> up[|down| - 1 - i] == down[i])
            && (b == fork <==> down == [])
            && (down != [] ==> down[0] == b && down[|down| - 1].Child? && down[|down| - 1].pprev == fork)
            && forall i :: 0 <= i < |down| - 1 ==> down[i].Child? && down[i].pprev == down[i + 1]
  {
    if b != fork {
      WaysAre(b.pprev, fork);
      AncestorHeight(fork, b.pprev);
      assert PathDown(b, fork) == [b] + PathDown(b.pprev, fork);
      assert PathUp(b, fork) == PathUp(b.pprev, fork) + [b];
    }
  }

  /** A chain is accepted exactly when its blocks can be connected one on top of the other, above
      the genesis block. */
  lemma AcceptedExactly(b: BlockIndex, o: Oracle)
    ensures b.Genesis? ==> Accepted(b, o) && IndexOf(b) == Some(map[])
    ensures b.Child? ==>
              (Accepted(b, o) <==>
               Accepted(b.pprev, o) && IndexOf(b.pprev).Some? && Acceptable(IndexOf(b.pprev).value, b.block, o))
    ensures b.Child? && IndexOf(b.pprev).Some? ==>
              IndexOf(b) == ConnectTxs(IndexOf(b.pprev).value, b.block, |b.block.vtx|)
  {
    hide Acceptable, ConnectTxs;
  }

  /** The index of a block's transactions grows by one transaction after the other. */
  lemma IndexGrows(view: View, block: Block, i: nat)
    requires i < |block.vtx| && ConnectTxs(view, block, i).Some?
    ensures ConnectTxs(view, block, 0) == Some(view)
    ensures ConnectTxs(view, block, i + 1) == ConnectTx(ConnectTxs(view, block, i).value, block.vtx[i], At(block, i))
  {
    hide ConnectTx;
  }

  lemma {:induction false} LinksAre(tip: BlockIndex, a: BlockIndex)
    requires UniqueHashes(tip) && IsAncestor(a, tip)
    ensures a.Child? ==> a.pprev.Hash() in Links(tip) && Links(tip)[a.pprev.Hash()] == a
    ensures tip.Hash() !in Links(tip)
  {
    if tip.Child? {
      LinkedAreProperAncestors(tip, tip.Hash());
      LinkedAreProperAncestors(tip.pprev, tip.Hash());
      if a != tip {
        LinksAre(tip.pprev, a);
        if a.Child? {
          AncestorHeight(a, tip.pprev);
          LinkedAreProperAncestors(tip.pprev, a.pprev.Hash());
          LinksAre(tip.pprev, tip.pprev);
        }
      }
    }
  }

  /** The database stands for t: it names t, holds the index of t's chain, which is accepted, every
      block of which has its supply recorded, and every predecessor of which its link to its
      successor. */
  lemma StandsForMeans(c: Chain, t: BlockIndex, o: Oracle, a: BlockIndex)
    requires Shaped(c) && StandsFor(c, t, o) && IsAncestor(a, t)
    ensures c.disk.hashBest == t.Hash() && IndexOf(t) == Some(c.disk.index) && Accepted(t, o)
    ensures a.Hash() in c.tree && c.tree[a.Hash()] == a && a.Hash() in c.supply && c.supply[a.Hash()] == SupplyOf(a, o)
    ensures a.Child? ==> a.pprev.Hash() in c.pnext && c.pnext[a.pprev.Hash()] == a
    ensures a.Hash() in c.pnext <==> a != t
  {
    TreeUnique(c.tree, c.best.Root(), t);
    AncestorInTree(c.tree, c.best.Root(), a, t);
    AncestorSupplies(c.supply, a, t, o);
    LinksAre(t, a);
    LinkedAreProperAncestors(t, a.Hash());
    hide Shaped, Accepted, Supplies, IndexOf, UniqueHashes;
    if a == t {
      assert a.Hash() !in c.pnext;
    }
  }

  /** The supplies recorded along a chain: nothing with the genesis block, and then what every block adds. */
  lemma SuppliesAlong(b: BlockIndex, o: Oracle)
    ensures b.Genesis? ==> SupplyOf(b, o) == SupplyInfo(0, 0, 0)
    ensures b.Child? && IndexOf(b.pprev).Some? ==>
              var t := BlockTotals(IndexOf(b.pprev).value, b.block, o, |b.block.vtx|);
              && SupplyOf(b, o).nMoneySupply - SupplyOf(b.pprev, o).nMoneySupply == t.nValueOut - t.nValueIn
              && SupplyOf(b, o).nAnonSupply - SupplyOf(b.pprev, o).nAnonSupply == t.nAnonOut - t.nAnonIn
              && SupplyOf(b, o).nMint - t.nFees == t.nValueOut - t.nValueIn
  {
    hide BlockTotals, IndexOf;
  }

  // ----- steps -----

  /** Attaching a block goes through exactly when it is acceptable on the index as it is and its
      commit reaches the disk: then the database names it and holds the index with its transactions,
      and its predecessor links to it. */
  lemma AttachedExactly(c: Chain, b: BlockIndex, o: Oracle, io: Io)
    requires b.Child?
    ensures var r := Attached(c, b, o, io);
            && (r.ok <==> Acceptable(c.disk.index, b.block, o) && io.canCommit(b.Hash()))
            && r.chain.tree == c.tree && r.chain.best == c.best
            && (!r.ok ==> r.chain.disk == c.disk && r.chain.pnext == c.pnext)
            && (r.ok ==>
                  && r.chain.disk.hashBest == b.Hash()
                  && Some(r.chain.disk.index) == ConnectTxs(c.disk.index, b.block, |b.block.vtx|)
                  && b.Hash() in r.chain.supply && b.pprev.Hash() in r.chain.pnext
                  && r.chain.pnext[b.pprev.Hash()] == b
                  && forall h :: h != b.pprev.Hash() ==>
                       (h in r.chain.pnext <==> h in c.pnext) && (h in c.pnext ==> r.chain.pnext[h] == c.pnext[h]))
  {
    if Acceptable(c.disk.index, b.block, o) {
      AcceptableConnects(c.disk.index, b.block, o);
    }
    hide Acceptable, ConnectTxs, BlockTotals;
  }

  /** From a state in step, a block with more trust becomes the best one exactly when the first
      block with more trust on its branch can be committed and all blocks from the fork to that one
      are accepted on top of each other; off its own chain, all blocks back to the fork, and up to
      that one, have to be read. */
  lemma AdoptsExactly(c: Chain, b: BlockIndex, first: BlockIndex, fork: BlockIndex, o: Oracle, io: Io)
    requires InStep(c, o) && InTree(c.tree, b) && b.Root() == c.best.Root() && b.ChainTrust() > c.best.ChainTrust()
    requires IsAncestor(first, b) && first.Child? &&
             first.ChainTrust() > c.best.ChainTrust() >= first.pprev.ChainTrust()
    requires IsAncestor(fork, c.best) && IsAncestor(fork, first)
    requires forall a :: IsAncestor(a, c.best) && IsAncestor(a, first) ==> IsAncestor(a, fork)
    ensures var r := Adopted(c, b, o, io);
            && (r.ok <==>
                  && io.canCommit(first.Hash()) && Accepted(first, o)
                  && ((b.Child? && b.pprev == c.best) ||
                      ((forall x :: x in PathDown(c.best, fork) ==> io.canRead(x.Hash())) &&
                       forall x :: x in PathUp(first, fork) ==> io.canRead(x.Hash()))))
            && (r.ok ==> r.chain.best == b)
            && (!r.ok ==> r.chain.best == c.best && r.chain.disk == c.disk && r.chain.pnext == c.pnext)
  {
    hide *;
    FirstIs(b, c.best, first);
    var t := AdoptedInStep(c, b, o, io);
    AncestorHeight(first, b);
    ForkIs(c.best, first, fork);
    if b.Child? && b.pprev == c.best {
      FirstOfChild(b, c.best);
    }
    AdoptsMeans(c.best, b, first, fork, o, io);
    InStepShape(c, o);
    AdoptedShape(c, b, o, io);
    if Adopted(c, b, o, io).ok {
      WellMeans(c, b, o, io, Adopted(c, b, o, io).chain, t);
    }
  }

  lemma {:induction false} FirstIs(b: BlockIndex, best: BlockIndex, first: BlockIndex)
    requires IsAncestor(first, b) && first.Child? && first.ChainTrust() > best.ChainTrust() >= first.pprev.ChainTrust()
    ensures FirstOf(b, best) == first
  {
    if first != b {
      AncestorHeight(first, b.pprev);
      FirstIs(b.pprev, best, first);
    }
  }

  lemma ForkIs(best: BlockIndex, first: BlockIndex, fork: BlockIndex)
    requires IsAncestor(fork, best) && IsAncestor(fork, first) && best.Root() == first.Root()
    requires forall a :: IsAncestor(a, best) && IsAncestor(a, first) ==> IsAncestor(a, fork)
    ensures ForkOf(best, first) == fork && IsFork(fork, best, first)
  {
    ForkIsUnique(ForkOf(best, first), fork, best, first);
  }

  lemma AdoptsMeans(best: BlockIndex, b: BlockIndex, first: BlockIndex, fork: BlockIndex, o: Oracle, io: Io)
    requires b.Root() == best.Root() == first.Root() && FirstOf(b, best) == first && ForkOf(best, first) == fork
    requires IsFork(fork, best, first) && (b.Child? && b.pprev == best ==> first == b)
    ensures Adopts(best, b, o, io) <==>
              && io.canCommit(first.Hash()) && Accepted(first, o)
              && ((b.Child? && b.pprev == best) ||
                  ((forall x :: x in PathDown(best, fork) ==> io.canRead(x.Hash())) &&
                   forall x :: x in PathUp(first, fork) ==> io.canRead(x.Hash())))
  {
    hide Accepted, FirstOf, ForkOf, PathUp, PathDown;
    ReadableMeans(io, PathDown(best, fork));
    ReadableMeans(io, PathUp(first, fork));
  }

  lemma ReadableMeans(io: Io, path: seq<BlockIndex>)
    ensures Readable(io, path) <==> forall x :: x in path ==> io.canRead(x.Hash())
  {
  }

  lemma InStepShape(c: Chain, o: Oracle)
    requires InStep(c, o)
    ensures Shaped(c)
  {
  }

  lemma WellMeans(c: Chain, b: BlockIndex, o: Oracle, io: Io, c': Chain, t: BlockIndex)
    requires AdoptedWell(c, b, o, io, c', t)
    ensures c'.best == b && StandsFor(c', t, o) && IsAncestor(t, b) && t.ChainTrust() > c.best.ChainTrust()
  {
    hide StandsFor, FirstOf, Accepted;
  }

  /** A new block is refused if it is known; it is filed after its predecessor; and if its index
      entry can be written and it has more trust than the best block, it is tried, and refused if it
      cannot become the best one. */
  lemma AddedExactly(c: Chain, block: Block, hashPrev: nat, nBlockTrust: nat, o: Oracle, io: Io)
    requires Shaped(c) && hashPrev in c.tree
    ensures var r, b := Added(c, block, hashPrev, nBlockTrust, o, io), Child(c.tree[hashPrev], block, nBlockTrust);
            && (block.hash in c.tree ==> !r.ok && r.chain == c)
            && (block.hash !in c.tree ==> r.chain.tree.Keys == c.tree.Keys + {block.hash})
            && (block.hash !in c.tree && !io.canIndex(block.hash) ==>
                  !r.ok && r.chain == c.(tree := c.tree[block.hash := b]))
            && (block.hash !in c.tree && io.canIndex(block.hash) && b.ChainTrust() <= c.best.ChainTrust() ==>
                  r.ok && r.chain == c.(tree := c.tree[block.hash := b]))
            && (block.hash !in c.tree && io.canIndex(block.hash) && b.ChainTrust() > c.best.ChainTrust() ==>
                  b.Root() == c.best.Root() && r == Adopted(c.(tree := c.tree[block.hash := b]), b, o, io))
  {
    var b := Child(c.tree[hashPrev], block, nBlockTrust);
    assert Filed(c.tree, c.best.Root(), hashPrev);
    AddedShape(c, block, hashPrev, nBlockTrust, o, io);
    hide Adopted, TreeOk;
  }
}
