/** The chain state machine: the transaction index on disk, the links and supplies in memory,
    the best block, and the chain indexed by height. */
module ChainState {
  import opened ActiveChain
  import opened Basics
  import opened ChainAgreement
  import opened ChainPaths
  import opened ChainSteps
  import opened ChainTree
  import opened ConnectBlocks
  import opened Supply
  import opened TxIndexing
  import BlockLocator

  /** Finds the fork, takes the blocks after it off the index and puts the new branch on. */
  method Switch(db: View, supply: map<nat, SupplyInfo>, best: BlockIndex, pindexNew: BlockIndex, o: Oracle, io: Io)
    returns (ok: bool, db': View, supply': map<nat, SupplyInfo>, vDisconnect: seq<BlockIndex>,
             vConnect: seq<BlockIndex>)
    requires best.Root() == pindexNew.Root()
    ensures var fork := ForkOf(best, pindexNew);
            var off := TakenOff(db, PathDown(best, fork), io);
            && vDisconnect == PathDown(best, fork) && vConnect == PathUp(pindexNew, fork)
            && if off.None? then !ok && supply' == supply
               else
                 var put := PutOn(off.value, supply, PathUp(pindexNew, fork), o, io);
                 supply' == put.supply && (ok <==> put.view.Some?) && (ok ==> put.view == Some(db'))
  {
    var pfork;
    ok, pfork := FindFork(best, pindexNew);
    ForkIsUnique(pfork, ForkOf(best, pindexNew), best, pindexNew);
    vDisconnect := Collect(best, pfork);
    var down := Collect(pindexNew, pfork);
    ReversedIsUpwards(pindexNew, pfork);
    vConnect := Reverse(down);
    supply' := supply;
    hide ForkOf, PathDown, PathUp, TakenOff, PutOn, IsFork;
    ok, db' := DisconnectPath(db, vDisconnect, io);
    if !ok {
      return;
    }
    ok, db', supply' := ConnectPath(db', supply, vConnect, o, io);
  }

  /** Finds the first better block, and postpones the blocks after it. */
  method FindFirst(best: BlockIndex, pindexNew: BlockIndex)
    returns (pindexIntermediate: BlockIndex, vpindexSecondary: seq<BlockIndex>)
    ensures pindexIntermediate == FirstOf(pindexNew, best)
    ensures vpindexSecondary == PathDown(pindexNew, pindexIntermediate)
  {
    pindexIntermediate, vpindexSecondary := pindexNew, [];
    while pindexIntermediate.Child? && pindexIntermediate.pprev.ChainTrust() > best.ChainTrust()
      invariant IsAncestor(pindexIntermediate, pindexNew) && vpindexSecondary == PathDown(pindexNew, pindexIntermediate)
      invariant FirstOf(pindexIntermediate, best) == FirstOf(pindexNew, best)
      decreases pindexIntermediate
    {
      PathDownLast(pindexNew, pindexIntermediate);
      vpindexSecondary := vpindexSecondary + [pindexIntermediate];
      pindexIntermediate := pindexIntermediate.pprev;
    }
  }

  lemma {:induction false} PathDownLast(b: BlockIndex, a: BlockIndex)
    requires IsAncestor(a, b) && a.Child?
    ensures IsAncestor(a.pprev, b) && PathDown(b, a.pprev) == PathDown(b, a) + [a]
  {
    AncestorTransitive(a.pprev, a, b);
    AncestorHeight(a, b);
    if a != b {
      PathDownLast(b.pprev, a);
    } else {
      assert PathDown(a.pprev, a.pprev) == [];
    }
  }

  lemma SameEntry(c: Chain, b: BlockIndex)
    requires Shaped(c) && InTree(c.tree, b) && b.Child?
    ensures b.pprev.Hash() == c.best.Hash() <==> b.pprev == c.best
  {
    ParentInTree(c.tree, c.best.Root(), b);
  }

  lemma BetterIsChild(c: Chain, b: BlockIndex)
    requires Shaped(c) && InTree(c.tree, b) && b.ChainTrust() > c.best.ChainTrust()
    ensures b.Child? && b.Root() == c.best.Root()
  {
    SameRoot(c, b);
    RootIsAncestor(c.best);
    AncestorHeight(c.best.Root(), c.best);
  }

  class CBlockChain {
    const root: BlockIndex
    const o: Oracle
    const chainActive: CChain
    var mapBlockIndex: Tree
    var pnext: map<nat, BlockIndex>
    var supply: map<nat, SupplyInfo>
    var pindexBest: BlockIndex
    var nBestChainTrust: nat
    var disk: DbState
    var batch: Option<DbState>

    /** The state that the operations change. */
    ghost function Contents(): (c: Chain)
      reads this
    {
      Chain(mapBlockIndex, pindexBest, disk, pnext, supply)
    }

    ghost predicate Valid()
      reads this, chainActive
    {
      && Shaped(Contents()) && batch == None && root.Genesis? && pindexBest.Root() == root
      && nBestChainTrust == pindexBest.ChainTrust()
      && chainActive.Valid() && chainActive.tip == Some(pindexBest)
    }

    /** A chain of the genesis block alone; none of its transactions enters the index. */
    constructor (genesis: BlockIndex, o: Oracle)
      requires genesis.Genesis?
      ensures Valid() && InStep(Contents(), o) && fresh(chainActive)
      ensures root == genesis && this.o == o && mapBlockIndex == map[genesis.Hash() := genesis] && pindexBest == genesis
    {
      root, this.o := genesis, o;
      mapBlockIndex := map[genesis.Hash() := genesis];
      pnext, supply := map[], map[genesis.Hash() := NO_SUPPLY];
      pindexBest, nBestChainTrust := genesis, genesis.ChainTrust();
      disk, batch := DbState(map[], genesis.Hash()), None;
      chainActive := new CChain();
      new;
      chainActive.SetTip(Some(genesis));
    }

    // ----- database transactions -----

    method TxnBegin()
      requires batch == None
      modifies this`batch
      ensures batch == Some(disk)
    {
      batch := Some(disk);
    }

    /** Writes the whole batch or nothing. */
    method TxnCommit(io: Io, hash: nat) returns (ok: bool)
      requires batch.Some?
      modifies this`batch, this`disk
      ensures ok == io.canCommit(hash) && batch == None && disk == if ok then old(batch).value else old(disk)
    {
      ok := io.canCommit(hash);
      if ok {
        disk := batch.value;
      }
      batch := None;
    }

    method TxnAbort()
      modifies this`batch
      ensures batch == None
    {
      batch := None;
    }

    // ----- moving the tip -----

    /** Moves the index and the links from the best block to pindexNew in one transaction. */
    method Reorganize(pindexNew: BlockIndex, io: Io) returns (ok: bool)
      requires pindexBest.Root() == pindexNew.Root() && batch == Some(disk)
      modifies this`batch, this`disk, this`pnext, this`supply
      ensures Outcome(ok, Contents()) == Reorganised(old(Contents()), pindexNew, o, io)
      ensures ok ==> batch == None
    {
      hide ForkOf, PathDown, PathUp, TakenOff, PutOn;
      var db', supply', vDisconnect, vConnect;
      ok, db', supply', vDisconnect, vConnect := Switch(disk.index, supply, pindexBest, pindexNew, o, io);
      supply := supply';
      if !ok {
        return;
      }
      batch := Some(DbState(db', pindexNew.Hash()));
      ok := TxnCommit(io, pindexNew.Hash());
      if !ok {
        return;
      }
      pnext := Unlink(pnext, vDisconnect);
      pnext := Link(pnext, vConnect);
    }

    /** Attaches one block to the index as it is, in the transaction that is open. */
    method SetBestChainInner(pindexNew: BlockIndex, io: Io) returns (ok: bool)
      requires pindexNew.Child? && batch == Some(disk)
      modifies this`batch, this`disk, this`pnext, this`supply
      ensures Outcome(ok, Contents()) == Attached(old(Contents()), pindexNew, o, io)
      ensures batch == None
    {
      hide Acceptable, ConnectTxs, SupplyWith;
      var db', supply';
      ok, db', supply' := ConnectNext(disk.index, supply, pindexNew, o);
      if !ok {
        TxnAbort();
        return;
      }
      supply := supply';
      batch := Some(DbState(db', pindexNew.Hash()));
      ok := TxnCommit(io, pindexNew.Hash());
      if !ok {
        return;
      }
      pnext := pnext[pindexNew.pprev.Hash() := pindexNew];
    }

    /** Attaches the postponed blocks one by one, each in a transaction of its own; the first
        one that cannot be attached ends this, without undoing what was done. */
    method ConnectPostponed(path: seq<BlockIndex>, io: Io)
      requires batch == None && forall i :: 0 <= i < |path| ==> path[i].Child?
      modifies this`batch, this`disk, this`pnext, this`supply
      ensures batch == None && Contents() == Followed(old(Contents()), path, o, io)
    {
      var rest := path;
      while rest != []
        invariant batch == None && mapBlockIndex == old(mapBlockIndex) && pindexBest == old(pindexBest)
        invariant forall i :: 0 <= i < |rest| ==> rest[i].Child?
        invariant Followed(Contents(), rest, o, io) == Followed(old(Contents()), path, o, io)
        decreases |rest|
      {
        hide Attached;
        var pindex := rest[0];
        if !io.canRead(pindex.Hash()) {
          return;
        }
        TxnBegin();
        var attached := SetBestChainInner(pindex, io);
        if !attached {
          return;
        }
        rest := rest[1..];
      }
    }

    /** Makes pindexNew the best block: a block on top of the best one is attached directly;
        otherwise the part of its branch up to the first block that beats the best one is
        adopted in one transaction, and the rest is attached afterwards.  The best block
        becomes pindexNew even when the rest could not be attached in full. */
    method SetBestChain(pindexNew: BlockIndex, io: Io) returns (ok: bool)
      requires Valid() && InTree(mapBlockIndex, pindexNew) && pindexNew.ChainTrust() > nBestChainTrust
      modifies this`batch, this`disk, this`pnext, this`supply, this`pindexBest, this`nBestChainTrust, chainActive
      ensures Valid() && pindexNew.Root() == old(pindexBest.Root())
      ensures Outcome(ok, Contents()) == Adopted(old(Contents()), pindexNew, o, io)
    {
      BetterIsChild(Contents(), pindexNew);
      AdoptedShape(Contents(), pindexNew, o, io);
      SameEntry(Contents(), pindexNew);
      hide Shaped, InTree, Attached, Reorganised, Followed, FirstOf, PathUp, PathDown, IsAncestor, BlockIndex.Root,
        BlockIndex.ChainTrust, Spine, Reverse;
      TxnBegin();
      if pindexNew.pprev.Hash() == pindexBest.Hash() {
        ok := SetBestChainInner(pindexNew, io);
        if !ok {
          return;
        }
      } else {
        var pindexIntermediate, vpindexSecondary := FindFirst(pindexBest, pindexNew);
        AncestorHeight(pindexIntermediate, pindexNew);
        ok := Reorganize(pindexIntermediate, io);
        if !ok {
          TxnAbort();
          return;
        }
        ReversedIsUpwards(pindexNew, pindexIntermediate);
        PathUpChildren(pindexNew, pindexIntermediate);
        ConnectPostponed(Reverse(vpindexSecondary), io);
      }
      pindexBest := pindexNew;
      nBestChainTrust := pindexNew.ChainTrust();
      chainActive.SetTip(Some(pindexNew));
    }

    // ----- new blocks -----

    /** Files a new block after its predecessor and, when its chain beats the best one, tries to
        make it the best block. */
    method AddToBlockIndex(block: Block, hashPrev: nat, nBlockTrust: nat, io: Io) returns (ok: bool)
      requires Valid() && hashPrev in mapBlockIndex
      modifies this, chainActive
      ensures Valid() && nBestChainTrust >= old(nBestChainTrust)
      ensures Outcome(ok, Contents()) == Added(old(Contents()), block, hashPrev, nBlockTrust, o, io)
    {
      hide Shaped, Adopted, BlockIndex.ChainTrust, BlockIndex.Root;
      if block.hash in mapBlockIndex {
        return false;
      }
      var pindexNew := Child(mapBlockIndex[hashPrev], block, nBlockTrust);
      FiledShape(Contents(), block, hashPrev, nBlockTrust);
      mapBlockIndex := mapBlockIndex[block.hash := pindexNew];
      if !io.canIndex(block.hash) {
        return false;
      }
      ok := true;
      if pindexNew.ChainTrust() > nBestChainTrust {
        AdoptedShape(Contents(), pindexNew, o, io);
        ok := SetBestChain(pindexNew, io);
      }
    }

    /** A block has a forward link or is the best block: when the database stands for the chain of t, exactly
        the blocks before t and the best block; in step, exactly the blocks of the best chain. */
    method IsInMainChain(b: BlockIndex) returns (r: bool)
      requires Valid() && InTree(mapBlockIndex, b)
      ensures r <==> b.Hash() in pnext || b == pindexBest
      ensures forall t :: StandsFor(Contents(), t, o) ==> (r <==> (IsAncestor(b, t) && b != t) || b == pindexBest)
      ensures InStep(Contents(), o) ==> (r <==> IsAncestor(b, pindexBest))
    {
      r := b.Hash() in pnext || b == pindexBest;
      hide Shaped, InTree, InStep, StandsFor, IsAncestor, BlockIndex.ChainTrust;
      forall t | StandsFor(Contents(), t, o) ensures b.Hash() in pnext <==> IsAncestor(b, t) && b != t {
        StandsLinked(Contents(), b, t, o);
      }
      if InStep(Contents(), o) {
        BestStands(Contents(), b, o);
      }
    }

    /** Where a peer whose chain ends in b parts from the best chain, as far as its locator tells.
        The look-up asks of every listed block whether it is in the main chain; in step, that is
        right: the result is on both chains, it is the fork itself when that is at most 11 blocks
        back, and less than twice as far back otherwise. */
    method LocateFork(b: BlockIndex) returns (r: BlockIndex)
      requires Valid() && InStep(Contents(), o) && b.Root() == root && BlockLocator.NamesAgree(mapBlockIndex, b)
      ensures var f := ForkOf(b, pindexBest);
              && IsAncestor(r, b) && IsAncestor(r, pindexBest) && r.Height() <= f.Height() <= b.Height()
              && (b.Height() - f.Height() <= 11 ==> r == f)
              && (b.Height() - f.Height() > 11 ==> b.Height() - r.Height() < 2 * (b.Height() - f.Height()))
    {
      var links, best := pnext, pindexBest;
      var isInMainChain := (p: BlockIndex) => p.Hash() in links || p == best;
      MainChainIsKnown(Contents(), o);
      r := BlockLocator.FindCommon(b, mapBlockIndex, pindexBest, isInMainChain, ForkOf(b, pindexBest));
    }

    /** The database is what connecting t's predecessors in order, and t, yields; and exactly the blocks
        before t have forward links. */
    lemma DatabaseIsReplay(t: BlockIndex)
      requires Valid() && StandsFor(Contents(), t, o)
      ensures IndexOf(t) == Some(disk.index) && disk.hashBest == t.Hash()
      ensures forall h :: h in pnext <==> exists a :: IsAncestor(a, t) && a != t && a.Hash() == h
    {
      forall h ensures h in pnext <==> exists a :: IsAncestor(a, t) && a != t && a.Hash() == h {
        LinkedAreProperAncestors(t, h);
      }
    }

    /** The recorded money supply less the anonymous supply is the value of the unspent transparent outputs
        in the database. */
    lemma TipConservesSupply(t: BlockIndex)
      requires Valid() && StandsFor(Contents(), t, o) && TransparentChain(t)
      ensures t.Hash() in supply && supply[t.Hash()].nMoneySupply - supply[t.Hash()].nAnonSupply == Total(disk.index)
    {
      ChainConservesSupply(t, o);
    }

    /** Offers one block; it is dropped when its predecessor is not known. */
    method Offer(b: BlockIndex, io: Io)
      requires Valid() && b.Child?
      modifies this, chainActive
      ensures Valid() && Contents() == Offered(old(Contents()), b, o, io)
    {
      hide Shaped, Added, BlockIndex.ChainTrust, BlockIndex.Root;
      if b.pprev.Hash() in mapBlockIndex && mapBlockIndex[b.pprev.Hash()] == b.pprev {
        var added := AddToBlockIndex(b.block, b.pprev.Hash(), b.nBlockTrust, io);
      }
    }

    /** Offers any blocks whatever, with any failures of the environment. */
    method Run(offers: seq<BlockIndex>, ios: seq<Io>)
      requires Valid() && |offers| == |ios| && forall i :: 0 <= i < |offers| ==> offers[i].Child?
      modifies this, chainActive
      ensures Valid() && nBestChainTrust >= old(nBestChainTrust)
      ensures Contents() == ChainSteps.Run(old(Contents()), offers, ios, o, |offers|)
    {
      hide Shaped, Offered, BlockIndex.ChainTrust, BlockIndex.Root;
      for i := 0 to |offers|
        invariant Valid() && Contents() == ChainSteps.Run(old(Contents()), offers, ios, o, i)
      {
        Offer(offers[i], ios[i]);
      }
    }
  }

  lemma StandsLinked(c: Chain, b: BlockIndex, t: BlockIndex, o: Oracle)
    requires Shaped(c) && InTree(c.tree, b) && StandsFor(c, t, o)
    ensures b.Hash() in c.pnext <==> IsAncestor(b, t) && b != t
  {
    LinkedAreProperAncestors(t, b.Hash());
    if b.Hash() in Links(t) {
      var a :| IsAncestor(a, t) && a != t && a.Hash() == b.Hash();
      AncestorInTree(c.tree, c.best.Root(), a, t);
    }
  }

  /** In step, every block of the best chain is known, and forward links tell which known blocks are on it. */
  lemma MainChainIsKnown(c: Chain, o: Oracle)
    requires InStep(c, o)
    ensures BlockLocator.KnowsChain(c.tree, c.best)
    ensures forall h :: h in c.tree ==>
            (c.tree[h].Hash() in c.pnext || c.tree[h] == c.best <==> IsAncestor(c.tree[h], c.best))
  {
    forall a | IsAncestor(a, c.best) ensures a.Hash() in c.tree && c.tree[a.Hash()] == a {
      AncestorInTree(c.tree, c.best.Root(), a, c.best);
    }
    forall h | h in c.tree
      ensures c.tree[h].Hash() in c.pnext || c.tree[h] == c.best <==> IsAncestor(c.tree[h], c.best)
    {
      assert Filed(c.tree, c.best.Root(), h);
      StandsLinked(c, c.tree[h], c.best, o);
    }
  }

  lemma BestStands(c: Chain, b: BlockIndex, o: Oracle)
    requires InStep(c, o)
    ensures StandsFor(c, c.best, o) && IsAncestor(c.best, c.best)
  {
  }
}
