/** What the operations of the chain state machine do, as functions of the state before: in every
    state, whether or not the database stands for the best block. */
module ChainSteps {
  import opened Basics
  import opened ChainPaths
  import opened ChainTree
  import opened ConnectBlocks
  import opened TxIndexing

  /** What the database holds. */
  datatype DbState = DbState(index: View, hashBest: nat)

  /** The known blocks, the best one, the database, and the links and supplies in memory. */
  datatype Chain = Chain(tree: Tree, best: BlockIndex, disk: DbState, pnext: map<nat, BlockIndex>,
                         supply: map<nat, SupplyInfo>)

  datatype Outcome = Outcome(ok: bool, chain: Chain)

  /** The known blocks form a tree, in which the best block and the one that the database names are. */
  ghost predicate Shaped(c: Chain) {
    TreeOk(c.tree, c.best.Root()) && InTree(c.tree, c.best) && c.disk.hashBest in c.tree
  }

  // ----- the fork and the first better block -----

  /** The last common ancestor of two blocks of a tree. */
  ghost function ForkOf(a: BlockIndex, b: BlockIndex): (f: BlockIndex)
    requires a.Root() == b.Root()
    ensures IsFork(f, a, b)
  {
    RootIsAncestor(a);
    if IsAncestor(b, a) then b else ForkOf(a, b.pprev)
  }

  lemma ForkIsUnique(f: BlockIndex, g: BlockIndex, a: BlockIndex, b: BlockIndex)
    requires IsFork(f, a, b) && IsFork(g, a, b)
    ensures f == g
  {
    assert IsAncestor(f, g) && IsAncestor(g, f);
    AncestorHeight(f, g);
    AncestorHeight(g, f);
  }

  /** The lowest block on the way to b whose predecessor does not beat the best block. */
  function FirstOf(b: BlockIndex, best: BlockIndex): (first: BlockIndex)
    ensures IsAncestor(first, b)
    ensures b.ChainTrust() > best.ChainTrust() ==> first.ChainTrust() > best.ChainTrust()
    ensures first.Child? ==> first.pprev.ChainTrust() <= best.ChainTrust()
  {
    if b.Child? && b.pprev.ChainTrust() > best.ChainTrust() then FirstOf(b.pprev, best) else b
  }

  /** All blocks of a tree have the same genesis block. */
  lemma SameRoot(c: Chain, b: BlockIndex)
    requires Shaped(c) && InTree(c.tree, b)
    ensures b.Root() == c.best.Root()
    ensures forall a :: IsAncestor(a, b) ==> a.Root() == c.best.Root()
  {
    ParentInTree(c.tree, c.best.Root(), b);
    forall a | IsAncestor(a, b) ensures a.Root() == c.best.Root() {
      AncestorHeight(a, b);
    }
  }

  // ----- the steps -----

  /** Attaching one block to the index as it is. */
  ghost function Attached(c: Chain, b: BlockIndex, o: Oracle, io: Io): Outcome
    requires b.Child?
  {
    var after := ConnectTxs(c.disk.index, b.block, |b.block.vtx|);
    if !Acceptable(c.disk.index, b.block, o) || after.None? then Outcome(false, c)
    else
      var tried := c.(supply := SupplyWith(c.supply, c.disk.index, b, o));
      if !io.canCommit(b.Hash()) then Outcome(false, tried)
      else Outcome(true, tried.(disk := DbState(after.value, b.Hash()), pnext := c.pnext[b.pprev.Hash() := b]))
  }

  /** Attaching the blocks of a path one by one, up to the first that cannot be read or attached. */
  ghost function Followed(c: Chain, path: seq<BlockIndex>, o: Oracle, io: Io): Chain
    requires forall i :: 0 <= i < |path| ==> path[i].Child?
    decreases |path|
  {
    if path == [] || !io.canRead(path[0].Hash()) then c
    else
      var next := Attached(c, path[0], o, io);
      if next.ok then Followed(next.chain, path[1..], o, io) else next.chain
  }

  /** Taking off the blocks after the fork and putting on those of the new branch, in one transaction. */
  ghost function Reorganised(c: Chain, b: BlockIndex, o: Oracle, io: Io): Outcome
    requires c.best.Root() == b.Root()
  {
    var fork := ForkOf(c.best, b);
    var down, up := PathDown(c.best, fork), PathUp(b, fork);
    var off := TakenOff(c.disk.index, down, io);
    if off.None? then Outcome(false, c)
    else
      var put := PutOn(off.value, c.supply, up, o, io);
      if put.view.None? || !io.canCommit(b.Hash()) then Outcome(false, c.(supply := put.supply))
      else
        Outcome(true, c.(disk := DbState(put.view.value, b.Hash()), supply := put.supply,
                         pnext := Linked(Unlinked(c.pnext, down), up)))
  }

  /** The way up consists of blocks with predecessors. */
  lemma {:induction false} PathUpChildren(b: BlockIndex, fork: BlockIndex)
    requires IsAncestor(fork, b)
    ensures forall i :: 0 <= i < |PathUp(b, fork)| ==> PathUp(b, fork)[i].Child?
  {
    if b != fork {
      PathUpChildren(b.pprev, fork);
    }
  }

  /** Making a block with more trust the best one: on top of the best block it is attached; otherwise
      its branch is adopted up to the first better block and followed from there, and it becomes the
      best block however far that leads. */
  ghost function Adopted(c: Chain, b: BlockIndex, o: Oracle, io: Io): Outcome
    requires c.best.Root() == b.Root()
  {
    if b.Child? && b.pprev == c.best then
      var next := Attached(c, b, o, io);
      if next.ok then Outcome(true, next.chain.(best := b)) else next
    else
      var first := FirstOf(b, c.best);
      AncestorHeight(first, b);
      PathUpChildren(b, first);
      var next := Reorganised(c, first, o, io);
      if next.ok then Outcome(true, Followed(next.chain, PathUp(b, first), o, io).(best := b)) else next
  }

  /** Filing a new block after its predecessor, and making it the best one if it has more trust. */
  ghost function Added(c: Chain, block: Block, hashPrev: nat, nBlockTrust: nat, o: Oracle, io: Io): Outcome
    requires Shaped(c) && hashPrev in c.tree
  {
    if block.hash in c.tree then Outcome(false, c)
    else
      var b := Child(c.tree[hashPrev], block, nBlockTrust);
      var filed := c.(tree := c.tree[block.hash := b]);
      assert Filed(c.tree, c.best.Root(), hashPrev);
      if !io.canIndex(block.hash) then Outcome(false, filed)
      else if b.ChainTrust() > c.best.ChainTrust() then Adopted(filed, b, o, io)
      else Outcome(true, filed)
  }

  /** Offering a block: it is dropped when its predecessor is not known. */
  ghost function Offered(c: Chain, b: BlockIndex, o: Oracle, io: Io): Chain
    requires Shaped(c) && b.Child?
  {
    if InTree(c.tree, b.pprev) then Added(c, b.block, b.pprev.Hash(), b.nBlockTrust, o, io).chain else c
  }

  // ----- the shape is kept -----

  /** What a step may change: not the tree, and the database names known blocks only. */
  ghost predicate SameTree(c: Chain, c': Chain) {
    c'.tree == c.tree && c'.best == c.best && c'.disk.hashBest in c.tree
  }

  lemma AttachedShape(c: Chain, b: BlockIndex, o: Oracle, io: Io)
    requires Shaped(c) && InTree(c.tree, b) && b.Child?
    ensures SameTree(c, Attached(c, b, o, io).chain)
  {
    hide Acceptable, ConnectTxs, SupplyWith;
  }

  lemma {:induction false} FollowedShape(c: Chain, path: seq<BlockIndex>, o: Oracle, io: Io)
    requires Shaped(c) && forall i :: 0 <= i < |path| ==> path[i].Child? && InTree(c.tree, path[i])
    ensures SameTree(c, Followed(c, path, o, io))
    decreases |path|
  {
    if path != [] && io.canRead(path[0].Hash()) {
      AttachedShape(c, path[0], o, io);
      var next := Attached(c, path[0], o, io);
      hide Attached, TreeOk;
      if next.ok {
        FollowedShape(next.chain, path[1..], o, io);
      }
    }
  }

  lemma {:induction false} PathUpInTree(tree: Tree, root: BlockIndex, b: BlockIndex, fork: BlockIndex)
    requires TreeOk(tree, root) && InTree(tree, b) && IsAncestor(fork, b)
    ensures forall i :: 0 <= i < |PathUp(b, fork)| ==> PathUp(b, fork)[i].Child? && InTree(tree, PathUp(b, fork)[i])
  {
    if b != fork {
      ParentInTree(tree, root, b);
      hide TreeOk;
      PathUpInTree(tree, root, b.pprev, fork);
    }
  }

  lemma ReorganisedShape(c: Chain, b: BlockIndex, o: Oracle, io: Io)
    requires Shaped(c) && InTree(c.tree, b) && c.best.Root() == b.Root()
    ensures SameTree(c, Reorganised(c, b, o, io).chain)
  {
    hide TakenOff, PutOn, Linked, Unlinked, ForkOf;
  }

  lemma AdoptedShape(c: Chain, b: BlockIndex, o: Oracle, io: Io)
    requires Shaped(c) && InTree(c.tree, b) && c.best.Root() == b.Root()
    ensures var r := Adopted(c, b, o, io);
            Shaped(r.chain) && r.chain.tree == c.tree && r.chain.best == (if r.ok then b else c.best)
  {
    hide Attached, Reorganised, Followed, TreeOk, FirstOf;
    if b.Child? && b.pprev == c.best {
      AttachedShape(c, b, o, io);
    } else {
      var first := FirstOf(b, c.best);
      AncestorInTree(c.tree, c.best.Root(), first, b);
      AncestorHeight(first, b);
      PathUpInTree(c.tree, c.best.Root(), b, first);
      ReorganisedShape(c, first, o, io);
      var next := Reorganised(c, first, o, io);
      if next.ok {
        FollowedShape(next.chain, PathUp(b, first), o, io);
      }
    }
  }

  lemma TreeWith(tree: Tree, root: BlockIndex, b: BlockIndex)
    requires TreeOk(tree, root) && b.Child? && b.Hash() !in tree && InTree(tree, b.pprev)
    ensures TreeOk(tree[b.Hash() := b], root) && b.Root() == root
  {
    ParentInTree(tree, root, b.pprev);
    FiledNew(tree, root, b);
    forall h | h in tree ensures Filed(tree[b.Hash() := b], root, h) {
      FiledStill(tree, root, h, b);
    }
    hide Filed, InTree;
  }

  lemma FiledNew(tree: Tree, root: BlockIndex, b: BlockIndex)
    requires b.Child? && b.pprev.Root() == root && b.Hash() !in tree && InTree(tree, b.pprev)
    ensures Filed(tree[b.Hash() := b], root, b.Hash())
  {
  }

  lemma FiledStill(tree: Tree, root: BlockIndex, h: nat, b: BlockIndex)
    requires Filed(tree, root, h) && b.Hash() !in tree
    ensures Filed(tree[b.Hash() := b], root, h)
  {
  }

  /** The state after a new block is filed. */
  lemma FiledShape(c: Chain, block: Block, hashPrev: nat, nBlockTrust: nat)
    requires Shaped(c) && hashPrev in c.tree && block.hash !in c.tree
    ensures var b := Child(c.tree[hashPrev], block, nBlockTrust);
            var filed := c.(tree := c.tree[block.hash := b]);
            Shaped(filed) && InTree(filed.tree, b) && b.Root() == c.best.Root()
  {
    var b := Child(c.tree[hashPrev], block, nBlockTrust);
    assert Filed(c.tree, c.best.Root(), hashPrev);
    assert b.Hash() == block.hash && InTree(c.tree, b.pprev);
    TreeWith(c.tree, c.best.Root(), b);
    hide TreeOk;
  }

  /** Every operation keeps the shape; the tree only grows, and the best block never loses trust. */
  lemma AddedShape(c: Chain, block: Block, hashPrev: nat, nBlockTrust: nat, o: Oracle, io: Io)
    requires Shaped(c) && hashPrev in c.tree
    ensures var c' := Added(c, block, hashPrev, nBlockTrust, o, io).chain;
            && Shaped(c') && c'.best.Root() == c.best.Root() && c'.best.ChainTrust() >= c.best.ChainTrust()
            && c'.tree == if block.hash in c.tree then c.tree
                          else c.tree[block.hash := Child(c.tree[hashPrev], block, nBlockTrust)]
  {
    hide Adopted, TreeOk, BlockIndex.ChainTrust;
    if block.hash !in c.tree {
      FiledShape(c, block, hashPrev, nBlockTrust);
      var b := Child(c.tree[hashPrev], block, nBlockTrust);
      AdoptedShape(c.(tree := c.tree[block.hash := b]), b, o, io);
    }
  }

  lemma OfferedShape(c: Chain, b: BlockIndex, o: Oracle, io: Io)
    requires Shaped(c) && b.Child?
    ensures var c' := Offered(c, b, o, io);
            Shaped(c') && c'.best.Root() == c.best.Root() && c'.best.ChainTrust() >= c.best.ChainTrust()
  {
    hide Added, TreeOk, BlockIndex.ChainTrust;
    if InTree(c.tree, b.pprev) {
      AddedShape(c, b.block, b.pprev.Hash(), b.nBlockTrust, o, io);
    }
  }

  /** The state after the first n of any offers. */
  ghost function Run(c: Chain, offers: seq<BlockIndex>, ios: seq<Io>, o: Oracle, n: nat): (c': Chain)
    requires Shaped(c) && n <= |offers| == |ios| && forall i :: 0 <= i < |offers| ==> offers[i].Child?
    ensures Shaped(c') && c'.best.Root() == c.best.Root() && c'.best.ChainTrust() >= c.best.ChainTrust()
    decreases n
  {
    if n == 0 then c
    else
      var before := Run(c, offers, ios, o, n - 1);
      OfferedShape(before, offers[n - 1], o, ios[n - 1]);
      Offered(before, offers[n - 1], o, ios[n - 1])
  }
}
