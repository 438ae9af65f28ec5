/** When the database stands for a chain: as long as it stands for the chain of the best block, every
    operation keeps it standing for some chain that ends in the best block or below it. */
module ChainAgreement {
  import opened Basics
  import opened ChainPaths
  import opened ChainSteps
  import opened ChainTree
  import opened ConnectBlocks
  import opened TxIndexing

  /** Database, links and supplies agree with the chain that ends at t. */
  ghost predicate StandsFor(c: Chain, t: BlockIndex, o: Oracle) {
    && InTree(c.tree, t) && c.disk.hashBest == t.Hash()
    && InPlace(c.disk.index, c.supply, t, o) && c.pnext == Links(t)
  }

  /** Database and best block agree. */
  ghost predicate InStep(c: Chain, o: Oracle) {
    Shaped(c) && AllUndoable(c.tree) && StandsFor(c, c.best, o)
  }

  // ----- attaching -----

  lemma LinkOne(b: BlockIndex)
    requires b.Child?
    ensures Links(b) == Links(b.pprev)[b.pprev.Hash() := b]
  {
  }

  lemma StandsParts(c: Chain, t: BlockIndex, o: Oracle)
    requires StandsFor(c, t, o)
    ensures InTree(c.tree, t) && InPlace(c.disk.index, c.supply, t, o) && c.pnext == Links(t) && Accepted(t, o)
    ensures Supplies(c.supply, t, o) && IndexOf(t) == Some(c.disk.index) && c.disk.hashBest == t.Hash()
  {
  }

  /** No block of the chain below has the hash of one above. */
  lemma HashIsApart(c: Chain, b: BlockIndex, t: BlockIndex, a: BlockIndex)
    requires Shaped(c) && InTree(c.tree, b) && InTree(c.tree, t) && IsAncestor(a, t) && !IsAncestor(b, t)
    ensures a.Hash() != b.Hash()
  {
    AncestorInTree(c.tree, c.best.Root(), a, t);
  }

  /** A supply recorded for another block does no harm. */
  lemma SuppliesWith(c: Chain, t: BlockIndex, b: BlockIndex, o: Oracle)
    requires Shaped(c) && InTree(c.tree, t) && InTree(c.tree, b) && !IsAncestor(b, t) && Supplies(c.supply, t, o)
    ensures Supplies(SupplyWith(c.supply, c.disk.index, b, o), t, o)
  {
    hide Shaped, Supplies, BlockTotals;
    var supply' := SupplyWith(c.supply, c.disk.index, b, o);
    forall a | IsAncestor(a, t) && a.Hash() in c.supply
      ensures a.Hash() in supply' && supply'[a.Hash()] == c.supply[a.Hash()]
    {
      HashIsApart(c, b, t, a);
    }
    SuppliesKept(c.supply, supply', t, o);
  }

  /** One block on top of the chain that the database stands for. */
  lemma AttachedStands(c: Chain, b: BlockIndex, o: Oracle, io: Io)
    requires Shaped(c) && InTree(c.tree, b) && b.Child? && StandsFor(c, b.pprev, o)
    ensures var r := Attached(c, b, o, io);
            && (r.ok <==> Accepted(b, o) && io.canCommit(b.Hash()))
            && (r.ok ==> StandsFor(r.chain, b, o))
            && (!r.ok ==> StandsFor(r.chain, b.pprev, o) && r.chain.disk == c.disk && r.chain.pnext == c.pnext)
  {
    TreeUnique(c.tree, c.best.Root(), b);
    StandsParts(c, b.pprev, o);
    ExtendChain(b, c.disk.index, c.supply, o);
    LinkOne(b);
    NotOwnAncestor(b);
    SuppliesWith(c, b.pprev, b, o);
    if Accepted(b, o) {
      AcceptedInPlaceConnects(c, b, o);
    }
    hide Shaped, Acceptable, ConnectTxs, SupplyWith, Supplies, Accepted, IndexOf, Links, InTree, UniqueHashes;
  }

  lemma AcceptedInPlaceConnects(c: Chain, b: BlockIndex, o: Oracle)
    requires b.Child? && Accepted(b, o) && IndexOf(b.pprev) == Some(c.disk.index)
    ensures ConnectTxs(c.disk.index, b.block, |b.block.vtx|).Some?
  {
    AcceptableConnects(c.disk.index, b.block, o);
  }

  lemma NotOwnAncestor(b: BlockIndex)
    requires b.Child?
    ensures !IsAncestor(b, b.pprev)
  {
    if IsAncestor(b, b.pprev) {
      AncestorHeight(b, b.pprev);
    }
  }

  /** Every block on the way can be read and committed. */
  predicate Followable(io: Io, path: seq<BlockIndex>) {
    forall i :: 0 <= i < |path| ==> io.canRead(path[i].Hash()) && io.canCommit(path[i].Hash())
  }

  lemma FollowableStep(io: Io, path: seq<BlockIndex>)
    requires path != []
    ensures Followable(io, path) <==>
            io.canRead(path[0].Hash()) && io.canCommit(path[0].Hash()) && Followable(io, path[1..])
  {
    if io.canRead(path[0].Hash()) && io.canCommit(path[0].Hash()) && Followable(io, path[1..]) {
      forall i | 0 <= i < |path| ensures io.canRead(path[i].Hash()) && io.canCommit(path[i].Hash()) {
        if i > 0 {
          assert path[i] == path[1..][i - 1];
        }
      }
    }
  }

  /** Following a branch from where the database stands: it gets all the way exactly when every block
      can be read, committed and accepted, and stands for a chain in between otherwise. */
  lemma {:induction false} FollowedStands(c: Chain, b: BlockIndex, t: BlockIndex, o: Oracle, io: Io)
    returns (t': BlockIndex)
    requires Shaped(c) && InTree(c.tree, b) && IsAncestor(t, b) && StandsFor(c, t, o)
    ensures forall i :: 0 <= i < |PathUp(b, t)| ==> PathUp(b, t)[i].Child?
    ensures StandsFor(Followed(c, PathUp(b, t), o, io), t', o) && IsAncestor(t, t') && IsAncestor(t', b)
    ensures t' == b <==> Accepted(b, o) && Followable(io, PathUp(b, t))
    decreases b.Height() - t.Height()
  {
    PathUpChildren(b, t);
    StandsParts(c, t, o);
    if b == t {
      t' := t;
    } else {
      PathUpStep(b, t);
      var path := PathUp(b, t);
      var next := path[0];
      FollowableStep(io, path);
      AncestorInTree(c.tree, c.best.Root(), next, b);
      AncestorHeight(next, b);
      OneBelow(next, b);
      hide TreeOk, InTree, StandsFor, Accepted, PathUp, Followable, Links, InPlace;
      if !io.canRead(next.Hash()) {
        t' := t;
        return;
      }
      AttachedShape(c, next, o, io);
      AttachedStands(c, next, o, io);
      var r := Attached(c, next, o, io);
      hide Attached, IsAncestor;
      if r.ok {
        t' := FollowedStands(r.chain, b, next, o, io);
        AncestorTransitive(t, next, t');
      } else {
        t' := t;
        if !Accepted(next, o) {
          NotAcceptedAncestor(next, b, o);
        }
      }
    }
  }

  lemma OneBelow(next: BlockIndex, b: BlockIndex)
    requires next.Child? && IsAncestor(next, b)
    ensures IsAncestor(next.pprev, next) && next.pprev != b && next.pprev.Height() < next.Height()
  {
    AncestorHeight(next, b);
  }

  // ----- reorganising -----

  /** What a reorganisation needs to go through. */
  ghost predicate CanSwitch(best: BlockIndex, b: BlockIndex, fork: BlockIndex, o: Oracle, io: Io) {
    && IsFork(fork, best, b)
    && Readable(io, PathDown(best, fork)) && Readable(io, PathUp(b, fork)) && Accepted(b, o)
  }

  /** If taking off the old branch leads to the index, links and supplies of the fork, then putting on
      the new one leads to those of the new block. */
  lemma ReorganisedStands(c: Chain, b: BlockIndex, o: Oracle, io: Io)
    requires Shaped(c) && InTree(c.tree, b) && c.best.Root() == b.Root()
    requires var fork := ForkOf(c.best, b);
             var off := TakenOff(c.disk.index, PathDown(c.best, fork), io);
             off.Some? && InPlace(off.value, c.supply, fork, o) &&
               Unlinked(c.pnext, PathDown(c.best, fork)) == Links(fork)
    ensures var r, fork := Reorganised(c, b, o, io), ForkOf(c.best, b);
            && (r.ok <==> Readable(io, PathUp(b, fork)) && Accepted(b, o) && io.canCommit(b.Hash()))
            && (r.ok ==> StandsFor(r.chain, b, o))
  {
    var fork := ForkOf(c.best, b);
    var off := TakenOff(c.disk.index, PathDown(c.best, fork), io);
    TreeUnique(c.tree, c.best.Root(), b);
    PutOnChain(b, fork, off.value, c.supply, o, io);
    LinkedChain(b, fork);
    hide ForkOf, TakenOff, PutOn, Linked, Unlinked, Links, InPlace, Readable, Accepted, PathUp, PathDown, IsAncestor,
      Shaped, UniqueHashes, IsFork;
  }

  /** A block of the new branch is no part of the old one. */
  lemma UpIsApart(b: BlockIndex, best: BlockIndex, fork: BlockIndex, u: BlockIndex)
    requires IsFork(fork, best, b) && u in PathUp(b, fork)
    ensures IsAncestor(u, b) && !IsAncestor(u, best)
  {
    PathUpMember(b, fork, u);
    if IsAncestor(u, best) {
      AncestorHeight(u, fork);
    }
  }

  lemma {:induction false} PathUpMember(b: BlockIndex, fork: BlockIndex, u: BlockIndex)
    requires IsAncestor(fork, b) && u in PathUp(b, fork)
    ensures IsAncestor(u, b) && u.Height() > fork.Height()
  {
    AncestorHeight(fork, b);
    if u != b {
      PathUpMember(b.pprev, fork, u);
    } else {
      AncestorHeight(fork, b.pprev);
    }
  }

  /** The supplies of the old branch stay. */
  lemma ReorganisedKeeps(c: Chain, b: BlockIndex, t: BlockIndex, o: Oracle, io: Io)
    requires Shaped(c) && InTree(c.tree, b) && c.best.Root() == b.Root()
    requires InTree(c.tree, t) && IsAncestor(t, c.best) && Supplies(c.supply, t, o)
    ensures Supplies(Reorganised(c, b, o, io).chain.supply, t, o)
  {
    var fork := ForkOf(c.best, b);
    var off := TakenOff(c.disk.index, PathDown(c.best, fork), io);
    if off.Some? {
      var supply' := PutOn(off.value, c.supply, PathUp(b, fork), o, io).supply;
      hide TreeOk, Supplies, PutOn, TakenOff;
      forall a | IsAncestor(a, t) && a.Hash() in c.supply
        ensures a.Hash() in supply' && supply'[a.Hash()] == c.supply[a.Hash()]
      {
        PutOnKeepsBelow(c, b, fork, off.value, a, t, o, io);
      }
      SuppliesKept(c.supply, supply', t, o);
    }
  }

  lemma PutOnKeepsBelow(c: Chain, b: BlockIndex, fork: BlockIndex, view: View, a: BlockIndex, t: BlockIndex, o: Oracle,
                        io: Io)
    requires Shaped(c) && InTree(c.tree, b) && IsFork(fork, c.best, b)
    requires IsAncestor(a, t) && IsAncestor(t, c.best) && a.Hash() in c.supply
    ensures var supply' := PutOn(view, c.supply, PathUp(b, fork), o, io).supply;
            a.Hash() in supply' && supply'[a.Hash()] == c.supply[a.Hash()]
  {
    var path := PathUp(b, fork);
    hide TreeOk, PutOn, PathUp, IsAncestor, IsFork;
    AncestorTransitive(a, t, c.best);
    forall i | 0 <= i < |path| ensures path[i].Hash() != a.Hash() {
      UpIsApart(b, c.best, fork, path[i]);
      AncestorInTree(c.tree, c.best.Root(), path[i], b);
      HashIsApart(c, path[i], c.best, a);
    }
    PutOnKeeps(view, c.supply, path, o, io, a.Hash());
  }

  /** In step, a reorganisation goes through exactly when every block can be read, the new branch is
      accepted and the commit reaches the disk. */
  lemma ReorganisedInStep(c: Chain, b: BlockIndex, o: Oracle, io: Io)
    requires InStep(c, o) && InTree(c.tree, b) && c.best.Root() == b.Root()
    ensures var r, fork := Reorganised(c, b, o, io), ForkOf(c.best, b);
            && (r.ok <==> CanSwitch(c.best, b, fork, o, io) && io.canCommit(b.Hash()))
            && (r.ok ==> StandsFor(r.chain, b, o))
            && (!r.ok ==> StandsFor(r.chain, c.best, o) && r.chain.disk == c.disk && r.chain.pnext == c.pnext)
  {
    var fork := ForkOf(c.best, b);
    StandsParts(c, c.best, o);
    TreeUndoable(c.tree, c.best.Root(), c.best);
    TreeUnique(c.tree, c.best.Root(), c.best);
    AcceptedConnects(c.best, o);
    TakenOffChain(c.best, fork, io);
    UnlinkedChain(c.best, fork);
    AncestorAccepted(fork, c.best, o);
    AncestorSupplies(c.supply, fork, c.best, o);
    ConnectsBelow(fork, c.best);
    ReorganisedKeeps(c, b, c.best, o, io);
    hide ForkOf, TakenOff, PutOn, Linked, Unlinked, Links, Readable, Accepted, PathUp, PathDown, Shaped, IndexOf,
      UniqueHashes, IsFork, Supplies, Connects, UndoableChain, AllUndoable;
    assert IsFork(fork, c.best, b);
    if Readable(io, PathDown(c.best, fork)) {
      ReorganisedStands(c, b, o, io);
    }
  }

  lemma {:induction false} ConnectsBelow(a: BlockIndex, b: BlockIndex)
    requires IsAncestor(a, b) && Connects(b)
    ensures IndexOf(a).Some?
  {
    if a != b {
      ConnectsBelow(a, b.pprev);
    }
  }

  // ----- adopting a better block -----

  /** first is the lowest block on the way to b that has more trust than best. */
  ghost predicate FirstBetter(first: BlockIndex, b: BlockIndex, best: BlockIndex) {
    IsAncestor(first, b) && first.Child? && first.pprev.ChainTrust() <= best.ChainTrust() < first.ChainTrust()
  }

  lemma FirstIsBetter(b: BlockIndex, best: BlockIndex)
    requires b.Root() == best.Root() && b.ChainTrust() > best.ChainTrust()
    ensures FirstBetter(FirstOf(b, best), b, best) && FirstOf(b, best).Root() == best.Root()
  {
    var first := FirstOf(b, best);
    AncestorHeight(first, b);
    RootIsAncestor(best);
    AncestorHeight(best.Root(), best);
  }

  /** What it takes for the branch of b to be adopted, up to its first better block. */
  ghost predicate Adopts(best: BlockIndex, b: BlockIndex, o: Oracle, io: Io)
    requires b.Root() == best.Root()
  {
    var first := FirstOf(b, best);
    AncestorHeight(first, b);
    io.canCommit(first.Hash()) &&
    if b.Child? && b.pprev == best then Accepted(b, o) else CanSwitch(best, first, ForkOf(best, first), o, io)
  }

  lemma FirstOfChild(b: BlockIndex, best: BlockIndex)
    requires b.Child? && b.pprev == best
    ensures FirstOf(b, best) == b && IsAncestor(b, b)
  {
  }

  lemma NothingToFollow(b: BlockIndex, io: Io)
    ensures IsAncestor(b, b) && PathUp(b, b) == [] && Followable(io, PathUp(b, b))
  {
  }

  /** The database stands for t, which is the best block or below it. */
  ghost predicate StandsBelow(c: Chain, t: BlockIndex, o: Oracle) {
    Shaped(c) && AllUndoable(c.tree) && StandsFor(c, t, o) && IsAncestor(t, c.best)
  }

  /** What came of trying to make b the best block, from a state in step. */
  ghost predicate AdoptedWell(c: Chain, b: BlockIndex, o: Oracle, io: Io, c': Chain, t: BlockIndex) {
    var first := FirstOf(b, c.best);
    && c'.best == b && StandsFor(c', t, o) && IsAncestor(first, t) && IsAncestor(t, b)
    && t.ChainTrust() > c.best.ChainTrust()
    && (t == b <==> Accepted(b, o) && Followable(io, PathUp(b, first)))
  }

  lemma MoreTrust(first: BlockIndex, t: BlockIndex, b: BlockIndex, best: BlockIndex)
    requires FirstBetter(first, b, best) && IsAncestor(first, t)
    ensures t.ChainTrust() > best.ChainTrust()
  {
    AncestorHeight(first, t);
  }

  lemma BestChanged(c: Chain, b: BlockIndex, t: BlockIndex, o: Oracle)
    requires StandsFor(c, t, o)
    ensures StandsFor(c.(best := b), t, o)
  {
  }

  lemma AdoptedOnTop(c: Chain, b: BlockIndex, o: Oracle, io: Io)
    requires InStep(c, o) && InTree(c.tree, b) && b.Child? && b.pprev == c.best && b.Root() == c.best.Root()
    requires b.ChainTrust() > c.best.ChainTrust()
    ensures var r := Adopted(c, b, o, io);
            && (r.ok <==> Adopts(c.best, b, o, io))
            && (r.ok ==> AdoptedWell(c, b, o, io, r.chain, b))
            && (!r.ok ==> StandsFor(r.chain, c.best, o) && r.chain.disk == c.disk && r.chain.pnext == c.pnext)
  {
    AttachedStands(c, b, o, io);
    FirstOfChild(b, c.best);
    NothingToFollow(b, io);
    var next := Attached(c, b, o, io);
    hide Attached, StandsFor, Accepted, Followable, FirstOf, BlockIndex.ChainTrust, Shaped, AllUndoable, PathUp;
    if next.ok {
      StandsAccepted(next.chain, b, o);
      BestChanged(next.chain, b, b, o);
    }
  }

  lemma StandsAccepted(c: Chain, t: BlockIndex, o: Oracle)
    requires StandsFor(c, t, o)
    ensures Accepted(t, o)
  {
  }

  lemma AdoptedByBranch(c: Chain, b: BlockIndex, o: Oracle, io: Io) returns (t: BlockIndex)
    requires InStep(c, o) && InTree(c.tree, b) && !(b.Child? && b.pprev == c.best) && b.Root() == c.best.Root()
    requires b.ChainTrust() > c.best.ChainTrust()
    ensures var r := Adopted(c, b, o, io);
            && (r.ok <==> Adopts(c.best, b, o, io))
            && (r.ok ==> AdoptedWell(c, b, o, io, r.chain, t))
            && (!r.ok ==> StandsFor(r.chain, c.best, o) && r.chain.disk == c.disk && r.chain.pnext == c.pnext)
  {
    var first := FirstOf(b, c.best);
    FirstIsBetter(b, c.best);
    AncestorInTree(c.tree, c.best.Root(), first, b);
    ReorganisedInStep(c, first, o, io);
    ReorganisedShape(c, first, o, io);
    PathUpChildren(b, first);
    t := c.best;
    var next := Reorganised(c, first, o, io);
    assert Shaped(next.chain);
    hide Reorganised, Followed, StandsFor, Accepted, Followable, FirstOf, BlockIndex.ChainTrust, Shaped, InTree,
      PathUp, CanSwitch, IsAncestor, AllUndoable;
    if next.ok {
      t := FollowedStands(next.chain, b, first, o, io);
      MoreTrust(first, t, b, c.best);
      BestChanged(Followed(next.chain, PathUp(b, first), o, io), b, t, o);
    }
  }

  /** Trying to make a block with more trust the best one, from a state in step: it succeeds exactly
      when its branch can be adopted up to the first better block; then the database stands for a chain
      that ends there or above, and for the new best chain exactly when the rest could be followed.
      Otherwise database and links are as they were. */
  lemma AdoptedInStep(c: Chain, b: BlockIndex, o: Oracle, io: Io) returns (t: BlockIndex)
    requires InStep(c, o) && InTree(c.tree, b) && b.Root() == c.best.Root()
    requires b.ChainTrust() > c.best.ChainTrust()
    ensures var r := Adopted(c, b, o, io);
            && (r.ok <==> Adopts(c.best, b, o, io))
            && (r.ok ==> AdoptedWell(c, b, o, io, r.chain, t))
            && (!r.ok ==> StandsFor(r.chain, c.best, o) && r.chain.disk == c.disk && r.chain.pnext == c.pnext)
  {
    hide InStep, Adopted, Adopts, AdoptedWell, StandsFor, InTree, BlockIndex.ChainTrust, BlockIndex.Root;
    if b.Child? && b.pprev == c.best {
      AdoptedOnTop(c, b, o, io);
      t := b;
    } else {
      t := AdoptedByBranch(c, b, o, io);
    }
  }

  // ----- runs -----

  /** Filing a block changes nothing that the database stands for. */
  lemma FiledStands(c: Chain, block: Block, hashPrev: nat, nBlockTrust: nat, o: Oracle)
    requires InStep(c, o) && hashPrev in c.tree && block.hash !in c.tree
    requires UndoableInPlace(Child(c.tree[hashPrev], block, nBlockTrust))
    ensures var b := Child(c.tree[hashPrev], block, nBlockTrust);
            var filed := c.(tree := c.tree[block.hash := b]);
            InStep(filed, o) && InTree(filed.tree, b) && b.Root() == c.best.Root()
  {
    FiledShape(c, block, hashPrev, nBlockTrust);
    hide TreeOk, UndoableInPlace, InPlace, Links, BlockIndex.Root;
  }

  /** Adding a block that can be undone where it is, from a state in step: the database stands for a chain
      that ends in the best block or below it, and has moved only if its tip has more trust. */
  lemma AddedInStep(c: Chain, block: Block, hashPrev: nat, nBlockTrust: nat, o: Oracle, io: Io)
    returns (t: BlockIndex)
    requires InStep(c, o) && hashPrev in c.tree
    requires UndoableInPlace(Child(c.tree[hashPrev], block, nBlockTrust))
    ensures var c' := Added(c, block, hashPrev, nBlockTrust, o, io).chain;
            && StandsBelow(c', t, o) && (c'.best == c.best ==> t == c.best)
            && (t != c.best ==> t.ChainTrust() > c.best.ChainTrust())
  {
    t := c.best;
    StepStands(c, o);
    if block.hash !in c.tree {
      FiledStands(c, block, hashPrev, nBlockTrust, o);
      var b := Child(c.tree[hashPrev], block, nBlockTrust);
      var filed := c.(tree := c.tree[block.hash := b]);
      StepStands(filed, o);
      hide InStep, Adopted, InTree, StandsFor, StandsBelow, BlockIndex.ChainTrust, BlockIndex.Root, UndoableInPlace;
      if io.canIndex(block.hash) && b.ChainTrust() > c.best.ChainTrust() {
        t := BestTried(filed, b, o, io);
      }
    }
  }

  lemma StepStands(c: Chain, o: Oracle)
    requires InStep(c, o)
    ensures StandsBelow(c, c.best, o) && Shaped(c)
  {
  }

  lemma BestTried(c: Chain, b: BlockIndex, o: Oracle, io: Io) returns (t: BlockIndex)
    requires InStep(c, o) && InTree(c.tree, b) && b.Root() == c.best.Root() && b.ChainTrust() > c.best.ChainTrust()
    ensures var c' := Adopted(c, b, o, io).chain;
            && StandsBelow(c', t, o) && (c'.best == c.best ==> t == c.best)
            && (t != c.best ==> t.ChainTrust() > c.best.ChainTrust())
  {
    t := AdoptedInStep(c, b, o, io);
    AdoptedShape(c, b, o, io);
    assert IsAncestor(c.best, c.best);
    hide Adopted, StandsFor, Accepted, Followable, BlockIndex.ChainTrust, FirstOf, PathUp, TreeOk;
    if !Adopted(c, b, o, io).ok {
      t := c.best;
    }
  }

  lemma OfferedInStep(c: Chain, b: BlockIndex, o: Oracle, io: Io) returns (t: BlockIndex)
    requires InStep(c, o) && b.Child? && UndoableInPlace(b)
    ensures var c' := Offered(c, b, o, io);
            && StandsBelow(c', t, o) && (c'.best == c.best ==> t == c.best)
            && (t != c.best ==> t.ChainTrust() > c.best.ChainTrust())
  {
    t := c.best;
    StepStands(c, o);
    hide InStep, Added, StandsBelow, BlockIndex.ChainTrust, UndoableInPlace;
    if InTree(c.tree, b.pprev) {
      t := AddedInStep(c, b.block, b.pprev.Hash(), b.nBlockTrust, o, io);
    }
  }

  lemma StandsInStep(c: Chain, t: BlockIndex, o: Oracle)
    requires StandsBelow(c, t, o)
    ensures InStep(c, o) <==> t == c.best
  {
  }

  /** The first k states of a run are in step. */
  ghost predicate Steady(c: Chain, offers: seq<BlockIndex>, ios: seq<Io>, o: Oracle, k: nat)
    requires Shaped(c) && k <= |offers| == |ios| && forall i :: 0 <= i < |offers| ==> offers[i].Child?
  {
    forall i :: 0 <= i < k ==> InStep(Run(c, offers, ios, o, i), o)
  }

  lemma SteadyNext(c: Chain, offers: seq<BlockIndex>, ios: seq<Io>, o: Oracle, k: nat)
    requires Shaped(c) && k < |offers| == |ios| && forall i :: 0 <= i < |offers| ==> offers[i].Child?
    requires Steady(c, offers, ios, o, k) && InStep(Run(c, offers, ios, o, k), o)
    ensures Steady(c, offers, ios, o, k + 1)
  {
    hide InStep, Run;
  }

  /** After n offers: the first k states are in step, and state k stands for t, which is below the best
      block if k is not the last one. */
  ghost predicate StandsUpTo(c: Chain, offers: seq<BlockIndex>, ios: seq<Io>, o: Oracle, n: nat, k: nat, t: BlockIndex)
    requires Shaped(c) && n <= |offers| == |ios| && forall i :: 0 <= i < |offers| ==> offers[i].Child?
  {
    && k <= n && Steady(c, offers, ios, o, k) && StandsBelow(Run(c, offers, ios, o, k), t, o)
    && (k < n ==> t != Run(c, offers, ios, o, k).best)
    && (t != c.best ==> t.ChainTrust() > c.best.ChainTrust())
  }

  lemma RunStart(c: Chain, offers: seq<BlockIndex>, ios: seq<Io>, o: Oracle)
    requires InStep(c, o) && |offers| == |ios| && forall i :: 0 <= i < |offers| ==> offers[i].Child?
    ensures Shaped(c) && StandsUpTo(c, offers, ios, o, 0, 0, c.best)
  {
    StepStands(c, o);
    assert Run(c, offers, ios, o, 0) == c;
    hide InStep, StandsBelow, Shaped;
  }

  lemma RunNext(c: Chain, offers: seq<BlockIndex>, ios: seq<Io>, o: Oracle, n: nat, t: BlockIndex)
    returns (t': BlockIndex)
    requires Shaped(c) && n < |offers| == |ios| && forall i :: 0 <= i < |offers| ==> offers[i].Child?
    requires StandsUpTo(c, offers, ios, o, n, n, t) && t == Run(c, offers, ios, o, n).best && UndoableInPlace(offers[n])
    ensures StandsUpTo(c, offers, ios, o, n + 1, n + 1, t')
  {
    var before := Run(c, offers, ios, o, n);
    StandsInStep(before, t, o);
    hide InStep, StandsBelow, Offered, BlockIndex.ChainTrust, UndoableInPlace, TreeOk, Steady;
    SteadyNext(c, offers, ios, o, n);
    t' := OfferedInStep(before, offers[n], o, ios[n]);
  }

  lemma RunStopped(c: Chain, offers: seq<BlockIndex>, ios: seq<Io>, o: Oracle, n: nat, k: nat, t: BlockIndex)
    requires Shaped(c) && n < |offers| == |ios| && forall i :: 0 <= i < |offers| ==> offers[i].Child?
    requires StandsUpTo(c, offers, ios, o, n, k, t) && !(k == n && t == Run(c, offers, ios, o, n).best)
    ensures StandsUpTo(c, offers, ios, o, n + 1, k, t)
  {
    hide Run, Steady, StandsBelow, BlockIndex.ChainTrust;
  }

  /** A run of offers that can be undone where they are, from a state in step: the states are in step up
      to a first one in which the database stands for a block below the best one, if there is such a
      state at all. */
  lemma {:induction false} RunInStep(c: Chain, offers: seq<BlockIndex>, ios: seq<Io>, o: Oracle, n: nat)
    returns (k: nat, t: BlockIndex)
    requires InStep(c, o) && n <= |offers| == |ios| && forall i :: 0 <= i < |offers| ==> offers[i].Child?
    requires forall i :: 0 <= i < n ==> UndoableInPlace(offers[i])
    ensures StandsUpTo(c, offers, ios, o, n, k, t)
    decreases n
  {
    hide *;
    RunStart(c, offers, ios, o);
    if n == 0 {
      k, t := 0, c.best;
    } else {
      k, t := RunInStep(c, offers, ios, o, n - 1);
      if k == n - 1 && t == Run(c, offers, ios, o, n - 1).best {
        t := RunNext(c, offers, ios, o, n - 1, t);
        k := n;
      } else {
        RunStopped(c, offers, ios, o, n - 1, k, t);
      }
    }
  }
}
