/** What holds along a whole chain: which chains the node accepts, what money supply they
    record, and the loops by which a reorganisation takes blocks off one branch and puts
    blocks on another. */
module ChainPaths {
  import opened Basics
  import opened ChainTree
  import opened ConnectBlocks
  import opened Supply
  import opened TxIndexing
  import opened UndoBlock

  /** The environment: which index entries can be written, which blocks can be read back, and
      which commits of a new tip reach the disk. */
  datatype Io = Io(canIndex: nat -> bool, canRead: nat -> bool, canCommit: nat -> bool)

  // ----- accepted chains and their supply -----

  /** Every block of the chain may extend its predecessors. */
  ghost predicate Accepted(b: BlockIndex, o: Oracle) {
    b.Child? ==> Accepted(b.pprev, o) && IndexOf(b.pprev).Some? && Acceptable(IndexOf(b.pprev).value, b.block, o)
  }

  /** The supply recorded with a block of an accepted chain. */
  ghost function SupplyOf(b: BlockIndex, o: Oracle): SupplyInfo {
    if b.Genesis? || IndexOf(b.pprev).None? then NO_SUPPLY
    else SupplyAfter(SupplyOf(b.pprev, o), BlockTotals(IndexOf(b.pprev).value, b.block, o, |b.block.vtx|))
  }

  lemma {:induction false} AcceptedConnects(b: BlockIndex, o: Oracle)
    requires Accepted(b, o)
    ensures Connects(b)
  {
    if b.Child? {
      AcceptedConnects(b.pprev, o);
      AcceptableConnects(IndexOf(b.pprev).value, b.block, o);
    }
  }

  lemma AcceptableConnects(view: View, block: Block, o: Oracle)
    requires Acceptable(view, block, o)
    ensures ConnectTxs(view, block, |block.vtx|).Some? && DistinctTxids(block)
  {
    var n := |block.vtx|;
    if n > 0 {
      assert StepAccepted(view, block, o, n - 1);
    }
  }

  lemma {:induction false} AncestorAccepted(a: BlockIndex, b: BlockIndex, o: Oracle)
    requires IsAncestor(a, b) && Accepted(b, o)
    ensures Accepted(a, o)
  {
    if a != b {
      AncestorAccepted(a, b.pprev, o);
    }
  }

  /** Every block of the chain spends only transparent outputs by its ordinary inputs. */
  ghost predicate TransparentChain(b: BlockIndex) {
    b.Child? ==>
      TransparentChain(b.pprev) && (IndexOf(b.pprev).Some? ==> SpendsTransparent(IndexOf(b.pprev).value, b.block))
  }

  /** Conservation along a chain: at its end, the money supply less the anonymous supply is
      the value of all unspent transparent outputs in the transaction index. */
  lemma {:induction false} ChainConservesSupply(b: BlockIndex, o: Oracle)
    requires Accepted(b, o) && TransparentChain(b)
    ensures IndexOf(b).Some? && SupplyOf(b, o).nMoneySupply - SupplyOf(b, o).nAnonSupply == Total(IndexOf(b).value)
  {
    if b.Child? {
      ChainConservesSupply(b.pprev, o);
      AcceptableConnects(IndexOf(b.pprev).value, b.block, o);
      BlockConservesSupply(IndexOf(b.pprev).value, b.block, o, SupplyOf(b.pprev, o), IndexOf(b).value, SupplyOf(b, o));
    }
  }

  /** A proof-of-stake block of an accepted chain mints at most the subsidy. */
  lemma ChainMintsAtMostSubsidy(b: BlockIndex, o: Oracle)
    requires b.Child? && Accepted(b, o) && IsProofOfStake(b.block)
    ensures SupplyOf(b, o).nMoneySupply - SupplyOf(b.pprev, o).nMoneySupply <= o.stakeSubsidy(b.block)
  {
    AcceptableConnects(IndexOf(b.pprev).value, b.block, o);
    StakeMintsAtMostSubsidy(IndexOf(b.pprev).value, b.block, o, SupplyOf(b.pprev, o), IndexOf(b).value, SupplyOf(b, o));
  }

  // ----- taking blocks off -----

  /** Every block of the chain can be disconnected again. */
  ghost predicate UndoableChain(b: BlockIndex) {
    b.Child? ==> UndoableChain(b.pprev) && UndoableInPlace(b)
  }

  predicate Readable(io: Io, path: seq<BlockIndex>) {
    forall i :: 0 <= i < |path| ==> io.canRead(path[i].Hash())
  }

  lemma PathDownStep(b: BlockIndex, fork: BlockIndex)
    requires IsAncestor(fork, b) && b != fork
    ensures b.Child? && IsAncestor(fork, b.pprev)
    ensures PathDown(b, fork) != [] && PathDown(b, fork)[0] == b && PathDown(b, fork)[1..] == PathDown(b.pprev, fork)
  {
  }

  lemma ReadableStep(io: Io, path: seq<BlockIndex>)
    requires path != []
    ensures Readable(io, path) <==> io.canRead(path[0].Hash()) && Readable(io, path[1..])
  {
    if io.canRead(path[0].Hash()) && Readable(io, path[1..]) {
      forall i | 0 <= i < |path| ensures io.canRead(path[i].Hash()) {
        if i > 0 {
          assert path[i] == path[1..][i - 1];
        }
      }
    }
  }

  /** The index after the blocks of a path are taken off, first one first; nothing when one of them
      cannot be read or taken off. */
  function TakenOff(view: View, path: seq<BlockIndex>, io: Io): Option<View>
    decreases |path|
  {
    if path == [] then Some(view)
    else if !io.canRead(path[0].Hash()) then None
    else
      var before := DisconnectTxs(view, path[0].block, |path[0].block.vtx|);
      if before.None? then None else TakenOff(before.value, path[1..], io)
  }

  /** Disconnects the blocks of a path. */
  method DisconnectPath(db: View, path: seq<BlockIndex>, io: Io) returns (ok: bool, db': View)
    ensures ok <==> TakenOff(db, path, io).Some?
    ensures ok ==> TakenOff(db, path, io) == Some(db')
  {
    db' := db;
    var rest := path;
    while rest != []
      invariant TakenOff(db', rest, io) == TakenOff(db, path, io)
      decreases |rest|
    {
      hide DisconnectTxs;
      var pindex := rest[0];
      if !io.canRead(pindex.Hash()) {
        return false, db';
      }
      ok, db' := DisconnectBlock(db', pindex.block);
      if !ok {
        return false, db';
      }
      rest := rest[1..];
    }
    ok := true;
  }

  /** On the index of a chain whose blocks are undoable, the way back to the fork leads to the
      fork's index, and only a block that cannot be read stops it. */
  lemma {:induction false} TakenOffChain(b: BlockIndex, fork: BlockIndex, io: Io)
    requires IsAncestor(fork, b) && Connects(b) && UndoableChain(b)
    ensures TakenOff(IndexOf(b).value, PathDown(b, fork), io) ==
            if Readable(io, PathDown(b, fork)) then IndexOf(fork) else None
  {
    if b != fork {
      PathDownStep(b, fork);
      ReadableStep(io, PathDown(b, fork));
      DisconnectTip(b);
      hide IndexOf, UndoableInPlace, Readable, DisconnectTxs;
      TakenOffChain(b.pprev, fork, io);
    }
  }

  // ----- putting blocks on -----

  /** The entry that follows cur on the way up to b. */
  lemma {:induction false} PathUpStep(b: BlockIndex, cur: BlockIndex)
    requires IsAncestor(cur, b) && b != cur
    ensures PathUp(b, cur) != []
    ensures var next := PathUp(b, cur)[0];
            next.Child? && next.pprev == cur && IsAncestor(next, b) && PathUp(b, cur)[1..] == PathUp(b, next)
  {
    if b.pprev != cur {
      PathUpStep(b.pprev, cur);
      var next := PathUp(b.pprev, cur)[0];
      assert PathUp(b, cur)[1..] == PathUp(b.pprev, cur)[1..] + [b];
      AncestorHeight(b, b);
      NotBelowItself(next, b);
    } else {
      assert PathUp(b, cur) == [b];
    }
  }

  lemma NotBelowItself(next: BlockIndex, b: BlockIndex)
    requires b.Child? && IsAncestor(next, b.pprev)
    ensures next != b
  {
    AncestorHeight(next, b.pprev);
  }

  // ----- the tree of known blocks -----

  type Tree = map<nat, BlockIndex>

  ghost predicate InTree(tree: Tree, b: BlockIndex) {
    b.Hash() in tree && tree[b.Hash()] == b
  }

  /** The block is filed by its hash, with its predecessor. */
  ghost predicate Filed(tree: Tree, root: BlockIndex, h: nat) {
    && h in tree && tree[h].Hash() == h && tree[h].Root() == root
    && (tree[h].Child? ==> InTree(tree, tree[h].pprev))
  }

  /** Every filed block can be undone where it is. */
  ghost predicate AllUndoable(tree: Tree) {
    forall h :: h in tree ==> UndoableInPlace(tree[h])
  }

  ghost predicate TreeOk(tree: Tree, root: BlockIndex) {
    forall h :: h in tree ==> Filed(tree, root, h)
  }

  lemma ParentInTree(tree: Tree, root: BlockIndex, b: BlockIndex)
    requires TreeOk(tree, root) && InTree(tree, b)
    ensures b.Root() == root && (b.Child? ==> InTree(tree, b.pprev))
  {
    assert Filed(tree, root, b.Hash());
  }

  lemma {:induction false} AncestorInTree(tree: Tree, root: BlockIndex, a: BlockIndex, b: BlockIndex)
    requires TreeOk(tree, root) && InTree(tree, b) && IsAncestor(a, b)
    ensures InTree(tree, a)
  {
    ParentInTree(tree, root, b);
    if a != b {
      AncestorInTree(tree, root, a, b.pprev);
    }
  }

  lemma {:induction false} TreeUndoable(tree: Tree, root: BlockIndex, b: BlockIndex)
    requires TreeOk(tree, root) && AllUndoable(tree) && InTree(tree, b)
    ensures UndoableChain(b)
  {
    ParentInTree(tree, root, b);
    if b.Child? {
      TreeUndoable(tree, root, b.pprev);
    }
  }

  /** The proper predecessor of a block has another hash, since both are filed by it. */
  lemma {:induction false} TreeUnique(tree: Tree, root: BlockIndex, b: BlockIndex)
    requires TreeOk(tree, root) && InTree(tree, b)
    ensures UniqueHashes(b)
  {
    ParentInTree(tree, root, b);
    if b.Child? {
      TreeUnique(tree, root, b.pprev);
      NotBelowItself(b.pprev, b);
      LinkedAreProperAncestors(b.pprev, b.Hash());
      if b.Hash() in Links(b.pprev) {
        var a :| IsAncestor(a, b.pprev) && a != b.pprev && a.Hash() == b.Hash();
        AncestorInTree(tree, root, a, b.pprev);
        NotBelowItself(a, b);
      }
    }
  }

  // ----- recorded supplies -----

  /** The supply of every block of the chain is recorded as it is on this chain. */
  ghost predicate Supplies(supply: map<nat, SupplyInfo>, b: BlockIndex, o: Oracle) {
    && b.Hash() in supply && supply[b.Hash()] == SupplyOf(b, o)
    && (b.Child? ==> Supplies(supply, b.pprev, o))
  }

  lemma {:induction false} SuppliesKept(supply: map<nat, SupplyInfo>, supply': map<nat, SupplyInfo>, b: BlockIndex,
                                        o: Oracle)
    requires Supplies(supply, b, o)
    requires forall a :: IsAncestor(a, b) && a.Hash() in supply ==>
             a.Hash() in supply' && supply'[a.Hash()] == supply[a.Hash()]
    ensures Supplies(supply', b, o)
  {
    if b.Child? {
      SuppliesKept(supply, supply', b.pprev, o);
    }
  }

  lemma {:induction false} AncestorSupplies(supply: map<nat, SupplyInfo>, a: BlockIndex, b: BlockIndex, o: Oracle)
    requires IsAncestor(a, b) && Supplies(supply, b, o)
    ensures Supplies(supply, a, o)
  {
    if a != b {
      AncestorSupplies(supply, a, b.pprev, o);
    }
  }

  /** The supply recorded with the predecessor; one that was never connected has none. */
  function PrevSupply(supply: map<nat, SupplyInfo>, b: BlockIndex): SupplyInfo {
    if b.Child? && b.pprev.Hash() in supply then supply[b.pprev.Hash()] else NO_SUPPLY
  }

  /** The recorded supplies after a block is connected to an index. */
  function SupplyWith(supply: map<nat, SupplyInfo>, view: View, b: BlockIndex, o: Oracle): map<nat, SupplyInfo> {
    supply[b.Hash() := SupplyAfter(PrevSupply(supply, b), BlockTotals(view, b.block, o, |b.block.vtx|))]
  }

  /** Connects one block to the index, exactly when it is acceptable there. */
  method ConnectNext(db: View, supply: map<nat, SupplyInfo>, next: BlockIndex, o: Oracle)
    returns (ok: bool, db': View, supply': map<nat, SupplyInfo>)
    ensures ok <==> Acceptable(db, next.block, o)
    ensures ok ==> ConnectTxs(db, next.block, |next.block.vtx|) == Some(db')
    ensures ok ==> supply' == SupplyWith(supply, db, next, o)
    ensures !ok ==> db' == db && supply' == supply
  {
    supply' := supply;
    var nSupply;
    ok, db', nSupply := ConnectBlock(db, next.block, o, PrevSupply(supply, next));
    hide Acceptable;
    if ok {
      supply' := supply[next.Hash() := nSupply];
    }
  }

  /** What connecting the blocks of a path yields: the index, if all could be connected, and the
      supplies recorded on the way. */
  datatype Put = Put(view: Option<View>, supply: map<nat, SupplyInfo>)

  ghost function PutOn(view: View, supply: map<nat, SupplyInfo>, path: seq<BlockIndex>, o: Oracle, io: Io): Put
    decreases |path|
  {
    if path == [] then Put(Some(view), supply)
    else if !io.canRead(path[0].Hash()) || !Acceptable(view, path[0].block, o) then Put(None, supply)
    else
      var after := ConnectTxs(view, path[0].block, |path[0].block.vtx|);
      if after.None? then Put(None, supply)
      else PutOn(after.value, SupplyWith(supply, view, path[0], o), path[1..], o, io)
  }

  /** Connects the blocks of a path. */
  method ConnectPath(db: View, supply: map<nat, SupplyInfo>, path: seq<BlockIndex>, o: Oracle, io: Io)
    returns (ok: bool, db': View, supply': map<nat, SupplyInfo>)
    ensures ok <==> PutOn(db, supply, path, o, io).view.Some?
    ensures ok ==> PutOn(db, supply, path, o, io).view == Some(db')
    ensures supply' == PutOn(db, supply, path, o, io).supply
  {
    db', supply' := db, supply;
    var rest := path;
    while rest != []
      invariant PutOn(db', supply', rest, o, io) == PutOn(db, supply, path, o, io)
      decreases |rest|
    {
      hide ConnectTxs, Acceptable, SupplyWith;
      var pindex := rest[0];
      if !io.canRead(pindex.Hash()) {
        return false, db', supply';
      }
      ok, db', supply' := ConnectNext(db', supply', pindex, o);
      if !ok {
        return false, db', supply';
      }
      rest := rest[1..];
    }
    ok := true;
  }

  /** Everything that holds of the index and the supplies while chain b is in place. */
  ghost predicate InPlace(db: View, supply: map<nat, SupplyInfo>, b: BlockIndex, o: Oracle) {
    Accepted(b, o) && IndexOf(b) == Some(db) && Supplies(supply, b, o)
  }

  /** One accepted block more on a chain in place. */
  lemma ExtendChain(next: BlockIndex, db: View, supply: map<nat, SupplyInfo>, o: Oracle)
    requires next.Child? && UniqueHashes(next) && InPlace(db, supply, next.pprev, o)
    ensures Acceptable(db, next.block, o) <==> Accepted(next, o)
    ensures Accepted(next, o) ==> ConnectTxs(db, next.block, |next.block.vtx|) == IndexOf(next)
    ensures Accepted(next, o) ==>
            IndexOf(next).Some? && InPlace(IndexOf(next).value, SupplyWith(supply, db, next, o), next, o)
  {
    if Accepted(next, o) {
      AcceptableConnects(db, next.block, o);
      var supply' := SupplyWith(supply, db, next, o);
      assert supply'[next.Hash()] == SupplyOf(next, o);
      forall a | IsAncestor(a, next.pprev) ensures a.Hash() != next.Hash() {
        LinkedAreProperAncestors(next, a.Hash());
        OwnHashNotLinked(next);
        NotBelowItself(a, next);
      }
      SuppliesKept(supply, supply', next.pprev, o);
    }
  }

  /** On the index of an accepted chain, the way up to b succeeds exactly when every block can be read
      and b's chain is accepted. */
  lemma {:induction false} PutOnChain(b: BlockIndex, cur: BlockIndex, db: View, supply: map<nat, SupplyInfo>,
                                      o: Oracle, io: Io)
    requires IsAncestor(cur, b) && UniqueHashes(b) && InPlace(db, supply, cur, o)
    ensures var put := PutOn(db, supply, PathUp(b, cur), o, io);
            && (put.view.Some? <==> Readable(io, PathUp(b, cur)) && Accepted(b, o))
            && (put.view.Some? ==> InPlace(put.view.value, put.supply, b, o))
    decreases b.Height() - cur.Height()
  {
    if b != cur {
      PathUpStep(b, cur);
      var next := PathUp(b, cur)[0];
      ReadableStep(io, PathUp(b, cur));
      AncestorUnique(next, b);
      AncestorHeight(next, b);
      hide InPlace, Accepted, Acceptable, IndexOf, ConnectTxs, SupplyWith, PathUp, Readable, IsAncestor, UniqueHashes;
      ExtendChain(next, db, supply, o);
      if Accepted(next, o) {
        PutOnChain(b, next, IndexOf(next).value, SupplyWith(supply, db, next, o), o, io);
      } else {
        NotAcceptedAncestor(next, b, o);
      }
    } else {
      AcceptedInPlace(b, db, supply, o);
    }
  }

  lemma AcceptedInPlace(b: BlockIndex, db: View, supply: map<nat, SupplyInfo>, o: Oracle)
    requires InPlace(db, supply, b, o)
    ensures Accepted(b, o) && IndexOf(b) == Some(db)
  {
  }

  lemma {:induction false} AncestorUnique(a: BlockIndex, b: BlockIndex)
    requires IsAncestor(a, b) && UniqueHashes(b)
    ensures UniqueHashes(a)
  {
    if a != b {
      AncestorUnique(a, b.pprev);
    }
  }

  /** Supplies are recorded for blocks of the path only. */
  lemma {:induction false} PutOnKeeps(db: View, supply: map<nat, SupplyInfo>, path: seq<BlockIndex>, o: Oracle, io: Io,
                                      h: nat)
    requires forall i :: 0 <= i < |path| ==> path[i].Hash() != h
    ensures var supply' := PutOn(db, supply, path, o, io).supply;
            (h in supply' <==> h in supply) && (h in supply ==> supply'[h] == supply[h])
    decreases |path|
  {
    if path != [] && Acceptable(db, path[0].block, o) {
      AcceptableConnects(db, path[0].block, o);
      hide Acceptable;
      PutOnKeeps(ConnectTxs(db, path[0].block, |path[0].block.vtx|).value, SupplyWith(supply, db, path[0], o),
                 path[1..], o, io, h);
    }
  }

  lemma NotAcceptedAncestor(next: BlockIndex, b: BlockIndex, o: Oracle)
    requires IsAncestor(next, b) && !Accepted(next, o)
    ensures !Accepted(b, o)
  {
    if Accepted(b, o) {
      AncestorAccepted(next, b, o);
    }
  }

  // ----- forward links -----

  function Unlinked(pnext: map<nat, BlockIndex>, path: seq<BlockIndex>): map<nat, BlockIndex>
    decreases |path|
  {
    if path == [] then pnext
    else Unlinked(if path[0].Child? then pnext - {path[0].pprev.Hash()} else pnext, path[1..])
  }

  function Linked(pnext: map<nat, BlockIndex>, path: seq<BlockIndex>): map<nat, BlockIndex>
    decreases |path|
  {
    if path == [] then pnext
    else Linked(if path[0].Child? then pnext[path[0].pprev.Hash() := path[0]] else pnext, path[1..])
  }

  /** Takes the forward links to the abandoned blocks away. */
  method Unlink(pnext: map<nat, BlockIndex>, path: seq<BlockIndex>) returns (pnext': map<nat, BlockIndex>)
    ensures pnext' == Unlinked(pnext, path)
  {
    pnext' := pnext;
    var rest := path;
    while rest != []
      invariant Unlinked(pnext', rest) == Unlinked(pnext, path)
      decreases |rest|
    {
      if rest[0].Child? {
        pnext' := pnext' - {rest[0].pprev.Hash()};
      }
      rest := rest[1..];
    }
  }

  /** Adds the forward links to the adopted blocks. */
  method Link(pnext: map<nat, BlockIndex>, path: seq<BlockIndex>) returns (pnext': map<nat, BlockIndex>)
    ensures pnext' == Linked(pnext, path)
  {
    pnext' := pnext;
    var rest := path;
    while rest != []
      invariant Linked(pnext', rest) == Linked(pnext, path)
      decreases |rest|
    {
      if rest[0].Child? {
        pnext' := pnext'[rest[0].pprev.Hash() := rest[0]];
      }
      rest := rest[1..];
    }
  }

  lemma UnlinkStep(cur: BlockIndex)
    requires cur.Child? && UniqueHashes(cur)
    ensures UniqueHashes(cur.pprev) && Links(cur) - {cur.pprev.Hash()} == Links(cur.pprev)
  {
    var h := cur.pprev.Hash();
    OwnHashNotLinked(cur.pprev);
    assert Links(cur) - {h} == Links(cur.pprev);
  }

  /** The end of a chain has no forward link. */
  lemma {:induction false} OwnHashNotLinked(b: BlockIndex)
    requires UniqueHashes(b)
    ensures b.Hash() !in Links(b)
  {
  }

  /** Going back to the fork, the links of b's chain become those of the fork's. */
  lemma {:induction false} UnlinkedChain(b: BlockIndex, fork: BlockIndex)
    requires IsAncestor(fork, b) && UniqueHashes(b)
    ensures Unlinked(Links(b), PathDown(b, fork)) == Links(fork)
  {
    if b != fork {
      PathDownStep(b, fork);
      UnlinkStep(b);
      UnlinkedChain(b.pprev, fork);
    }
  }

  /** Going up to b, the links of the current chain become those of b's. */
  lemma {:induction false} LinkedChain(b: BlockIndex, cur: BlockIndex)
    requires IsAncestor(cur, b)
    ensures Linked(Links(cur), PathUp(b, cur)) == Links(b)
    decreases b.Height() - cur.Height()
  {
    if b != cur {
      PathUpStep(b, cur);
      var next := PathUp(b, cur)[0];
      AncestorHeight(next, b);
      LinkedChain(b, next);
    }
  }

  // ----- collecting the blocks -----

  /** The blocks from b back to just after the fork. */
  method Collect(b: BlockIndex, fork: BlockIndex) returns (path: seq<BlockIndex>)
    requires IsAncestor(fork, b)
    ensures path == PathDown(b, fork)
  {
    path := [];
    var pindex := b;
    while pindex != fork
      invariant IsAncestor(fork, pindex) && path + PathDown(pindex, fork) == PathDown(b, fork)
      decreases pindex
    {
      path := path + [pindex];
      pindex := pindex.pprev;
    }
  }

  lemma {:induction false} ReversedIsUpwards(b: BlockIndex, fork: BlockIndex)
    requires IsAncestor(fork, b)
    ensures Reverse(PathDown(b, fork)) == PathUp(b, fork)
  {
    if b != fork {
      ReversedIsUpwards(b.pprev, fork);
      PathDownStep(b, fork);
    }
  }
}
