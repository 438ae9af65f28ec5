/** After database and best block have parted: what attaching and reorganising do then, and when a
    reorganisation brings them together again. */
module ChainParting {
  import opened Basics
  import opened ChainAgreement
  import opened ChainPaths
  import opened ChainSteps
  import opened ChainTree
  import opened ClearedIndex
  import opened ConnectBlocks
  import opened TxIndexing
  import opened UndoBlock

  // ----- paths -----

  lemma {:induction false} PathDownSplit(b: BlockIndex, t: BlockIndex, fork: BlockIndex)
    requires IsAncestor(fork, t) && IsAncestor(t, b)
    ensures IsAncestor(fork, b) && PathDown(b, fork) == PathDown(b, t) + PathDown(t, fork)
  {
    hide *;
    AncestorTransitive(fork, t, b);
    if b != t {
      PathDownOne(b, t);
      NotForkItself(b, t, fork);
      PathDownOne(b, fork);
      PathDownSplit(b.pprev, t, fork);
    } else {
      PathDownEmpty(b);
    }
  }

  lemma PathDownEmpty(b: BlockIndex)
    ensures IsAncestor(b, b) && PathDown(b, b) == []
  {
  }

  lemma PathDownOne(b: BlockIndex, t: BlockIndex)
    requires IsAncestor(t, b) && t != b
    ensures b.Child? && IsAncestor(t, b.pprev) && PathDown(b, t) == [b] + PathDown(b.pprev, t)
  {
  }

  lemma NotForkItself(b: BlockIndex, t: BlockIndex, fork: BlockIndex)
    requires IsAncestor(fork, t) && IsAncestor(t, b) && b != t
    ensures fork != b
  {
    AncestorHeight(fork, t);
    AncestorHeight(t, b);
  }

  lemma {:induction false} UnlinkedConcat(pnext: map<nat, BlockIndex>, p: seq<BlockIndex>, q: seq<BlockIndex>)
    ensures Unlinked(pnext, p + q) == Unlinked(Unlinked(pnext, p), q)
    decreases |p|
  {
    if p == [] {
      assert p + q == q;
    } else {
      assert (p + q)[1..] == p[1..] + q;
      UnlinkedConcat(if p[0].Child? then pnext - {p[0].pprev.Hash()} else pnext, p[1..], q);
    }
  }

  /** Taking a link away before or after makes no difference. */
  lemma {:induction false} UnlinkedLess(pnext: map<nat, BlockIndex>, h: nat, path: seq<BlockIndex>)
    ensures Unlinked(pnext - {h}, path) == Unlinked(pnext, path) - {h}
    decreases |path|
  {
    if path != [] {
      if path[0].Child? {
        var g := path[0].pprev.Hash();
        assert pnext - {h} - {g} == pnext - {g} - {h};
        UnlinkedLess(pnext - {g}, h, path[1..]);
      } else {
        UnlinkedLess(pnext, h, path[1..]);
      }
    }
  }

  lemma {:induction false} UnlinkedKeys(pnext: map<nat, BlockIndex>, path: seq<BlockIndex>, h: nat)
    requires h !in pnext
    ensures h !in Unlinked(pnext, path)
    decreases |path|
  {
    if path != [] {
      UnlinkedKeys(if path[0].Child? then pnext - {path[0].pprev.Hash()} else pnext, path[1..], h);
    }
  }

  lemma {:induction false} LinkedKeys(pnext: map<nat, BlockIndex>, path: seq<BlockIndex>, h: nat)
    requires h !in pnext && forall i :: 0 <= i < |path| && path[i].Child? ==> path[i].pprev.Hash() != h
    ensures h !in Linked(pnext, path)
    decreases |path|
  {
    if path != [] {
      LinkedKeys(if path[0].Child? then pnext[path[0].pprev.Hash() := path[0]] else pnext, path[1..], h);
    }
  }

  /** The links of a chain have nothing to do with the blocks above it. */
  lemma {:induction false} UnlinkedAbove(b: BlockIndex, t: BlockIndex)
    requires IsAncestor(t, b) && UniqueHashes(b)
    ensures Unlinked(Links(t), PathDown(b, t)) == Links(t)
  {
    if b != t {
      PathDownStep(b, t);
      OwnHashNotLinked(b.pprev);
      LinksBelow(t, b.pprev);
      assert Links(t) - {b.pprev.Hash()} == Links(t);
      UnlinkedAbove(b.pprev, t);
    }
  }

  lemma {:induction false} LinksBelow(t: BlockIndex, b: BlockIndex)
    requires IsAncestor(t, b)
    ensures Links(t).Keys <= Links(b).Keys
  {
    if b != t {
      LinksBelow(t, b.pprev);
    }
  }

  /** A block below another has a link in the other's chain. */
  lemma LinkedBelow(t: BlockIndex, b: BlockIndex)
    requires IsAncestor(t, b) && t != b
    ensures t.Hash() in Links(b)
  {
    LinkedAreProperAncestors(b, t.Hash());
  }

  // ----- putting blocks on an index, whatever it is -----

  /** The index after the blocks of a path are connected. */
  function PutTogether(view: View, path: seq<BlockIndex>): Option<View>
    decreases |path|
  {
    if path == [] then Some(view)
    else
      var n := |path| - 1;
      var before := PutTogether(view, path[..n]);
      if before.None? then None else ConnectTxs(before.value, path[n].block, |path[n].block.vtx|)
  }

  lemma {:induction false} PutTogetherFirst(view: View, path: seq<BlockIndex>)
    requires path != []
    ensures var after := ConnectTxs(view, path[0].block, |path[0].block.vtx|);
            PutTogether(view, path) == if after.None? then None else PutTogether(after.value, path[1..])
    decreases |path|
  {
    var n := |path| - 1;
    if n == 0 {
      assert path[..0] == [] && path[1..] == [];
    } else {
      PutTogetherFirst(view, path[..n]);
      assert path[..n][1..] == path[1..][..n - 1] && path[1..][n - 1] == path[n];
      hide ConnectTxs;
    }
  }

  lemma {:induction false} PutTogetherConcat(view: View, p: seq<BlockIndex>, q: seq<BlockIndex>)
    ensures var before := PutTogether(view, p);
            PutTogether(view, p + q) == if before.None? then None else PutTogether(before.value, q)
    decreases |q|
  {
    if q == [] {
      assert p + q == p;
    } else {
      var n := |q| - 1;
      assert (p + q)[..|p| + n] == p + q[..n] && (p + q)[|p| + n] == q[n];
      hide ConnectTxs;
      PutTogetherConcat(view, p, q[..n]);
    }
  }

  /** Putting on is putting together, as far as it goes. */
  lemma {:induction false} PutOnIsTogether(view: View, supply: map<nat, SupplyInfo>, path: seq<BlockIndex>, o: Oracle,
                                           io: Io)
    requires PutOn(view, supply, path, o, io).view.Some?
    ensures PutTogether(view, path) == PutOn(view, supply, path, o, io).view
    decreases |path|
  {
    if path != [] {
      PutTogetherFirst(view, path);
      hide Acceptable, SupplyWith, ConnectTxs, PutTogether;
      PutOnIsTogether(ConnectTxs(view, path[0].block, |path[0].block.vtx|).value, SupplyWith(supply, view, path[0], o),
                      path[1..], o, io);
    }
  }

  /** What can be undone on an index can be undone on one with fewer entries. */
  lemma UndoableOnLess(v: View, w: View, block: Block)
    requires Undoable(w, block) && v.Keys <= w.Keys
    ensures Undoable(v, block)
  {
  }

  /** On an index with no more entries than the fork's, connecting the branch leads to the branch's index
      only if it was the fork's. */
  lemma {:induction false} OnlyFromFork(v: View, b: BlockIndex, fork: BlockIndex)
    requires IsAncestor(fork, b) && Connects(b) && UndoableChain(b)
    requires IndexOf(fork).Some? && v.Keys <= IndexOf(fork).value.Keys
    requires PutTogether(v, PathUp(b, fork)).Some?
    ensures IndexOf(b).Some? && PutTogether(v, PathUp(b, fork)).value.Keys <= IndexOf(b).value.Keys
    ensures PutTogether(v, PathUp(b, fork)) == IndexOf(b) ==> v == IndexOf(fork).value
  {
    if b != fork {
      var path := PathUp(b, fork);
      var n := |path| - 1;
      assert path[..n] == PathUp(b.pprev, fork) && path[n] == b;
      hide ConnectTxs, Undoable;
      OnlyFromFork(v, b.pprev, fork);
      var u, w, x := PutTogether(v, path[..n]).value, IndexOf(b.pprev).value, b.block;
      UndoableOnLess(u, w, x);
      ConnectedKeys(u, x, |x.vtx|);
      ConnectedKeys(w, x, |x.vtx|);
      UndoableRestores(u, x);
      UndoableRestores(w, x);
    }
  }

  // ----- parted states -----

  /** The database has stood for t, below the best block, and since then at most blocks on top of the best
      one were attached: outside of what the blocks after t name, it still is as it was. */
  ghost predicate PartedFrom(c: Chain, t: BlockIndex, o: Oracle) {
    && Shaped(c) && AllUndoable(c.tree) && InTree(c.tree, t) && IsAncestor(t, c.best) && t != c.best
    && Accepted(t, o) && Supplies(c.supply, t, o) && IndexOf(t).Some?
    && Without(c.disk.index, PathDown(c.best, t)) == Without(IndexOf(t).value, PathDown(c.best, t))
    && Unlinked(c.pnext, PathDown(c.best, t)) == Links(t) && t.Hash() !in c.pnext
  }

  /** A database that stands for a block below the best one has parted from it. */
  lemma StandsParted(c: Chain, t: BlockIndex, o: Oracle)
    requires StandsBelow(c, t, o) && t != c.best
    ensures PartedFrom(c, t, o)
  {
    TreeUnique(c.tree, c.best.Root(), c.best);
    TreeUnique(c.tree, c.best.Root(), t);
    UnlinkedAbove(c.best, t);
    OwnHashNotLinked(t);
    hide TreeOk, Supplies, Accepted, Without, PathDown, Links, UniqueHashes, IndexOf;
  }

  // ----- attaching a block to a database that has parted -----

  /** What a connected block has done to outputs that it does not give back, and that are not its own. */
  lemma {:induction false} ConnectedOutput(view: View, block: Block, i: nat, h: nat, k: nat)
    requires i <= |block.vtx| && ConnectTxs(view, block, i).Some? && AnonShapesStayInside(view, block)
    requires h in view && h !in Txids(block, |block.vtx|) && k < |view[h].vSpent|
    ensures h in ConnectTxs(view, block, i).value
    ensures var e := ConnectTxs(view, block, i).value[h];
            && e.pos == view[h].pos && |e.vSpent| == |view[h].vSpent|
            && (OutPoint(h, k) !in GivenUpTo(block, |block.vtx|) ==> e.vSpent[k] == view[h].vSpent[k])
    decreases i
  {
    hide *;
    if i == 0 {
      ConnectedNothing(view, block);
    } else {
      ConnectedBefore(view, block, i);
      TxidListed(block, i - 1);
      ConnectedOutput(view, block, i - 1, h, k);
      var before, tx := ConnectTxs(view, block, i - 1).value, block.vtx[i - 1];
      ConnectTxEffect(before, tx, At(block, i - 1));
      if !tx.IsCoinBase() && OutPoint(h, k) in Prevouts(tx) {
        SpentAndGiven(view, block, i - 1, OutPoint(h, k));
        GivenMembers(block, |block.vtx|, OutPoint(h, k));
      }
    }
  }

  lemma ConnectedNothing(view: View, block: Block)
    ensures ConnectTxs(view, block, 0) == Some(view)
  {
  }

  lemma TxidListed(block: Block, j: nat)
    requires j < |block.vtx|
    ensures block.vtx[j].hash in Txids(block, |block.vtx|)
  {
  }

  lemma ConnectedBefore(view: View, block: Block, i: nat)
    requires 0 < i <= |block.vtx| && ConnectTxs(view, block, i).Some?
    ensures ConnectTxs(view, block, i - 1).Some?
    ensures ConnectTxs(view, block, i) ==
            ConnectTx(ConnectTxs(view, block, i - 1).value, block.vtx[i - 1], At(block, i - 1))
  {
  }

  lemma SpentAndGiven(view: View, block: Block, i: nat, o: OutPoint)
    requires i < |block.vtx| && AnonShapesStayInside(view, block) && o.hash in view && !block.vtx[i].IsCoinBase()
    requires o in Prevouts(block.vtx[i])
    ensures o in Givebacks(block.vtx[i])
  {
    var tx := block.vtx[i];
    forall j | Straddles(tx, j) ensures tx.vin[j].prevout != o {
    }
    SpentIsGivenBack(tx, o);
  }

  lemma ConnectedEntry(view: View, block: Block, h: nat)
    requires ConnectTxs(view, block, |block.vtx|).Some? && AnonShapesStayInside(view, block)
    requires h in view && h !in Txids(block, |block.vtx|)
    ensures h in ConnectTxs(view, block, |block.vtx|).value
    ensures var e := ConnectTxs(view, block, |block.vtx|).value[h];
            e.pos == view[h].pos &&
              Spared(e.vSpent, h, GivenUpTo(block, |block.vtx|)) ==
                Spared(view[h].vSpent, h, GivenUpTo(block, |block.vtx|))
  {
    var n := |block.vtx|;
    ConnectedLength(view, block, n, h);
    var e := ConnectTxs(view, block, n).value[h];
    forall k | 0 <= k < |view[h].vSpent|
      ensures OutPoint(h, k) !in GivenUpTo(block, n) ==> e.vSpent[k] == view[h].vSpent[k]
    {
      ConnectedOutput(view, block, n, h, k);
    }
    hide ConnectTxs, GivenUpTo;
    assert Spared(e.vSpent, h, GivenUpTo(block, n)) == Spared(view[h].vSpent, h, GivenUpTo(block, n));
  }

  lemma {:induction false} ConnectedLength(view: View, block: Block, i: nat, h: nat)
    requires i <= |block.vtx| && ConnectTxs(view, block, i).Some? && h in view && h !in Txids(block, |block.vtx|)
    ensures h in ConnectTxs(view, block, i).value
    ensures var e := ConnectTxs(view, block, i).value[h]; e.pos == view[h].pos && |e.vSpent| == |view[h].vSpent|
    decreases i
  {
    if i > 0 {
      hide ConnectTx, Prevouts, Tx.IsCoinBase;
      ConnectedLength(view, block, i - 1, h);
      ConnectTxEffect(ConnectTxs(view, block, i - 1).value, block.vtx[i - 1], At(block, i - 1));
      assert block.vtx[i - 1].hash in Txids(block, |block.vtx|);
    }
  }

  /** Outside of what the block names, connecting it changes nothing. */
  lemma ConnectedOutside(view: View, block: Block)
    requires ConnectTxs(view, block, |block.vtx|).Some? && AnonShapesStayInside(view, block)
    ensures var e, g := Txids(block, |block.vtx|), GivenUpTo(block, |block.vtx|);
            Cleared(ConnectTxs(view, block, |block.vtx|).value, e, g) == Cleared(view, e, g)
  {
    var n := |block.vtx|;
    var e, g, after := Txids(block, n), GivenUpTo(block, n), ConnectTxs(view, block, n).value;
    ConnectedKeys(view, block, n);
    var a, b := Cleared(after, e, g), Cleared(view, e, g);
    assert a.Keys == b.Keys;
    hide GivenUpTo, ConnectTxs;
    forall h | h in b ensures a[h] == b[h] {
      ConnectedEntry(view, block, h);
    }
  }

  /** The same, with a path of blocks below it. */
  lemma ConnectedWithout(view: View, b: BlockIndex, path: seq<BlockIndex>)
    requires ConnectTxs(view, b.block, |b.block.vtx|).Some? && AnonShapesStayInside(view, b.block)
    ensures var after := ConnectTxs(view, b.block, |b.block.vtx|).value;
            Without(after, [b] + path) == Without(Without(view, path), [b])
  {
    var after := ConnectTxs(view, b.block, |b.block.vtx|).value;
    ConnectedOutside(view, b.block);
    OneBlock(after, b);
    OneBlock(view, b);
    WithoutBoth(after, [b], path);
    WithoutBoth(view, [b], path);
    hide Without, ConnectTxs;
  }

  lemma OneBlock(view: View, b: BlockIndex)
    ensures Without(view, [b]) == Cleared(view, Txids(b.block, |b.block.vtx|), GivenUpTo(b.block, |b.block.vtx|))
  {
    var e, g := Txids(b.block, |b.block.vtx|), GivenUpTo(b.block, |b.block.vtx|);
    assert [b][1..] == [];
    hide Txids, GivenUpTo, Cleared;
    assert TxidsOf([]) == {} && GivenBy([]) == {};
    assert TxidsOf([b]) == e + TxidsOf([b][1..]) && GivenBy([b]) == g + GivenBy([b][1..]);
    assert TxidsOf([b]) == e && GivenBy([b]) == g;
  }

  lemma AttachedPath(b: BlockIndex, t: BlockIndex)
    requires b.Child? && IsAncestor(t, b.pprev)
    ensures IsAncestor(t, b) && t != b && PathDown(b, t) == [b] + PathDown(b.pprev, t)
  {
    NotBelowItself(t, b);
  }

  /** The attached block joins the path that the database does not stand for. */
  lemma AttachedWithout(c: Chain, t: BlockIndex, b: BlockIndex, o: Oracle, view': View)
    requires PartedFrom(c, t, o) && b.Child? && b.pprev == c.best
    requires ConnectTxs(c.disk.index, b.block, |b.block.vtx|) == Some(view')
    requires AnonShapesStayInside(c.disk.index, b.block)
    ensures IsAncestor(t, b) && Without(view', PathDown(b, t)) == Without(IndexOf(t).value, PathDown(b, t))
  {
    var path, w := PathDown(c.best, t), IndexOf(t).value;
    AttachedPath(b, t);
    ConnectedWithout(c.disk.index, b, path);
    WithoutBoth(w, [b], path);
    hide Without, ConnectTxs, TreeOk, Accepted, Supplies, Unlinked, Links, AllUndoable;
  }

  lemma AttachedLinks(c: Chain, t: BlockIndex, b: BlockIndex, o: Oracle)
    requires PartedFrom(c, t, o) && b.Child? && b.pprev == c.best && InTree(c.tree, b)
    ensures var pnext' := c.pnext[b.pprev.Hash() := b];
            IsAncestor(t, b) && Unlinked(pnext', PathDown(b, t)) == Links(t) && t.Hash() !in pnext'
  {
    var h, path, pnext' := c.best.Hash(), PathDown(c.best, t), c.pnext[c.best.Hash() := b];
    hide *;
    PartedParts(c, t, o);
    PartedLinks(c, t, o);
    AttachedPath(b, t);
    UnlinkedFirst(pnext', b, path);
    LinkGone(c.pnext, h, b);
    UnlinkedLess(c.pnext, h, path);
    NotLinkedAbove(c, t, c.best);
    NoSuchLink(Links(t), h);
  }

  lemma LinkGone(pnext: map<nat, BlockIndex>, h: nat, b: BlockIndex)
    ensures pnext[h := b] - {h} == pnext - {h}
  {
  }

  lemma NoSuchLink(pnext: map<nat, BlockIndex>, h: nat)
    requires h !in pnext
    ensures pnext - {h} == pnext
  {
  }

  lemma PartedLinks(c: Chain, t: BlockIndex, o: Oracle)
    requires PartedFrom(c, t, o)
    ensures IsAncestor(t, c.best) && Unlinked(c.pnext, PathDown(c.best, t)) == Links(t)
  {
  }

  lemma UnlinkedFirst(pnext: map<nat, BlockIndex>, b: BlockIndex, path: seq<BlockIndex>)
    requires b.Child?
    ensures Unlinked(pnext, [b] + path) == Unlinked(pnext - {b.pprev.Hash()}, path)
  {
    assert ([b] + path)[1..] == path;
  }

  /** A block that is no predecessor of t has no link in t's chain. */
  lemma NotLinkedAbove(c: Chain, t: BlockIndex, b: BlockIndex)
    requires Shaped(c) && InTree(c.tree, t) && InTree(c.tree, b) && IsAncestor(t, b) && t != b
    ensures b.Hash() !in Links(t) && b.Hash() != t.Hash()
  {
    LinkedAreProperAncestors(t, b.Hash());
    if b.Hash() in Links(t) {
      var a :| IsAncestor(a, t) && a != t && a.Hash() == b.Hash();
      AncestorInTree(c.tree, c.best.Root(), a, t);
      AncestorHeight(b, t);
      AncestorHeight(t, b);
    }
  }

  /** A state whose links lack that of t stands for no chain above t. */
  lemma NotLinked(c: Chain, t: BlockIndex, x: BlockIndex, o: Oracle)
    requires t.Hash() !in c.pnext && IsAncestor(t, x) && t != x
    ensures !StandsFor(c, x, o)
  {
    LinkedBelow(t, x);
    hide InPlace, InTree;
  }

  lemma PartedStill(c: Chain, t: BlockIndex, c': Chain, o: Oracle)
    requires PartedFrom(c, t, o) && SameTree(c, c') && c'.disk == c.disk && c'.pnext == c.pnext
    requires Supplies(c'.supply, t, o)
    ensures PartedFrom(c', t, o)
  {
    hide TreeOk, Without, Accepted, Supplies, IndexOf, AllUndoable, Unlinked, PathDown, Links;
  }

  lemma PartedOnTop(c: Chain, t: BlockIndex, c': Chain, b: BlockIndex, o: Oracle)
    requires PartedFrom(c, t, o) && SameTree(c, c') && InTree(c.tree, b) && b.Root() == c.best.Root()
    requires Supplies(c'.supply, t, o) && IsAncestor(t, b) && t != b && t.Hash() !in c'.pnext
    requires Without(c'.disk.index, PathDown(b, t)) == Without(IndexOf(t).value, PathDown(b, t))
    requires Unlinked(c'.pnext, PathDown(b, t)) == Links(t)
    ensures PartedFrom(c'.(best := b), t, o)
  {
    hide TreeOk, Without, Accepted, Supplies, IndexOf, AllUndoable, Unlinked, PathDown, Links;
  }

  lemma PartedParts(c: Chain, t: BlockIndex, o: Oracle)
    requires PartedFrom(c, t, o)
    ensures Shaped(c) && AllUndoable(c.tree) && InTree(c.tree, t) && InTree(c.tree, c.best) && IsAncestor(t, c.best)
    ensures t != c.best && Supplies(c.supply, t, o) && Accepted(t, o) && IndexOf(t).Some? && t.Hash() !in c.pnext
  {
  }

  lemma SameHashSame(c: Chain, b: BlockIndex, x: BlockIndex, o: Oracle)
    requires InTree(c.tree, b) && c.disk.hashBest == b.Hash() && StandsFor(c, x, o)
    ensures x == b
  {
  }

  /** Attaching a block to the parted database: it goes by the index as it is, not by that of the chain
      the block extends, and the database stands for no chain afterwards. */
  lemma AttachedParted(c: Chain, t: BlockIndex, b: BlockIndex, o: Oracle, io: Io)
    requires PartedFrom(c, t, o) && InTree(c.tree, b) && b.Child? && b.pprev == c.best
    requires AnonShapesStayInside(c.disk.index, b.block)
    ensures var r := Attached(c, b, o, io);
            && (r.ok <==> Acceptable(c.disk.index, b.block, o) && io.canCommit(b.Hash()))
            && (r.ok ==> ConnectTxs(c.disk.index, b.block, |b.block.vtx|) == Some(r.chain.disk.index))
            && (r.ok ==> PartedFrom(r.chain.(best := b), t, o) && r.chain.disk.hashBest == b.Hash())
            && (r.ok ==> forall x :: !StandsFor(r.chain, x, o))
            && (!r.ok ==> PartedFrom(r.chain, t, o) && r.chain.disk == c.disk)
  {
    var r := Attached(c, b, o, io);
    PartedParts(c, t, o);
    AttachedShape(c, b, o, io);
    AttachedLinks(c, t, b, o);
    AttachedPath(b, t);
    NotAboveItself(b, t);
    SuppliesWith(c, t, b, o);
    if Acceptable(c.disk.index, b.block, o) {
      AcceptableConnects(c.disk.index, b.block, o);
    }
    assert b.Root() == c.best.Root();
    hide Acceptable, ConnectTxs, AnonShapesStayInside, Without, TreeOk, Accepted, IndexOf, Supplies, PathDown, Unlinked,
      Links, AllUndoable, SupplyWith, PartedFrom, StandsFor, InTree, Shaped, IsAncestor, BlockIndex.Root;
    if r.ok {
      AttachedWithout(c, t, b, o, r.chain.disk.index);
      PartedOnTop(c, t, r.chain, b, o);
      forall x ensures !StandsFor(r.chain, x, o) {
        if StandsFor(r.chain, x, o) {
          SameHashSame(r.chain, b, x, o);
          NotLinked(r.chain, t, b, o);
        }
      }
    } else {
      PartedStill(c, t, r.chain, o);
    }
  }

  lemma NotAboveItself(b: BlockIndex, t: BlockIndex)
    requires IsAncestor(t, b) && t != b
    ensures !IsAncestor(b, t)
  {
    if IsAncestor(b, t) {
      AncestorHeight(b, t);
      AncestorHeight(t, b);
    }
  }

  // ----- reorganising a database that has parted -----

  const READS := Io(_ => true, _ => true, _ => true)

  lemma AllReadable(path: seq<BlockIndex>)
    ensures Readable(READS, path)
  {
  }

  /** On the index of an accepted chain of undoable blocks, what the blocks after the fork name is what
      makes the difference to the fork's index. */
  lemma WithoutIsFork(t: BlockIndex, fork: BlockIndex)
    requires IsAncestor(fork, t) && Connects(t) && UndoableChain(t)
    ensures IndexOf(fork) == Some(Without(IndexOf(t).value, PathDown(t, fork)))
  {
    TakenOffChain(t, fork, READS);
    AllReadable(PathDown(t, fork));
    ConnectsBelow(fork, t);
    TakingOffClears(IndexOf(t).value, PathDown(t, fork), READS);
    hide TakenOff, Without, IndexOf;
  }

  /** When the fork is not above t, taking off the blocks down to it leads to the fork's index without
      what the blocks after t name. */
  lemma PartedTakenOff(c: Chain, t: BlockIndex, fork: BlockIndex, o: Oracle, io: Io)
    requires PartedFrom(c, t, o) && IsAncestor(fork, t)
    ensures IsAncestor(fork, c.best) && IndexOf(fork).Some?
    ensures var off := TakenOff(c.disk.index, PathDown(c.best, fork), io);
            off.Some? ==> off.value == Without(IndexOf(fork).value, PathDown(c.best, t))
    ensures Unlinked(c.pnext, PathDown(c.best, fork)) == Links(fork)
  {
    var p, q, w := PathDown(c.best, t), PathDown(t, fork), IndexOf(t).value;
    PathDownSplit(c.best, t, fork);
    AcceptedConnects(t, o);
    TreeUndoable(c.tree, c.best.Root(), t);
    TreeUnique(c.tree, c.best.Root(), t);
    UnlinkedChain(t, fork);
    UnlinkedConcat(c.pnext, p, q);
    WithoutIsFork(t, fork);
    if TakenOff(c.disk.index, p + q, io).Some? {
      TakingOffClears(c.disk.index, p + q, io);
    }
    WithoutBoth(c.disk.index, p, q);
    WithoutBoth(w, p, q);
    hide TreeOk, Without, Accepted, Supplies, IndexOf, AllUndoable, Unlinked, PathDown, Links, TakenOff;
  }

  lemma WithoutKeys(view: View, path: seq<BlockIndex>)
    ensures Without(view, path).Keys <= view.Keys
  {
  }

  /** Where following a branch ends, and what the index and the links are then. */
  ghost predicate FollowedTo(c: Chain, s: BlockIndex, b: BlockIndex, c': Chain, x: BlockIndex) {
    && IsAncestor(s, x) && IsAncestor(x, b) && c'.disk.hashBest == x.Hash()
    && PutTogether(c.disk.index, PathUp(x, s)) == Some(c'.disk.index)
    && c'.pnext == Linked(c.pnext, PathUp(x, s))
  }

  lemma {:induction false} PathUpFrom(next: BlockIndex, x: BlockIndex)
    requires next.Child? && IsAncestor(next, x)
    ensures IsAncestor(next.pprev, x) && PathUp(x, next.pprev) == [next] + PathUp(x, next)
  {
    AncestorHeight(next, x);
    if x != next {
      PathUpFrom(next, x.pprev);
    } else {
      assert PathUp(next, next.pprev) == PathUp(next.pprev, next.pprev) + [next];
    }
  }

  lemma FollowedFurther(c: Chain, next: BlockIndex, b: BlockIndex, c1: Chain, c': Chain, x: BlockIndex)
    requires next.Child? && FollowedTo(c1, next, b, c', x)
    requires ConnectTxs(c.disk.index, next.block, |next.block.vtx|) == Some(c1.disk.index)
    requires c1.pnext == c.pnext[next.pprev.Hash() := next]
    ensures FollowedTo(c, next.pprev, b, c', x)
  {
    PathUpFrom(next, x);
    var path := PathUp(x, next.pprev);
    assert path[0] == next && path[1..] == PathUp(x, next);
    PutTogetherFirst(c.disk.index, path);
    hide ConnectTxs, PutTogether, PathUp;
  }

  lemma {:induction false} FollowedEnds(c: Chain, s: BlockIndex, b: BlockIndex, o: Oracle, io: Io)
    returns (x: BlockIndex)
    requires IsAncestor(s, b) && c.disk.hashBest == s.Hash()
    ensures forall i :: 0 <= i < |PathUp(b, s)| ==> PathUp(b, s)[i].Child?
    ensures FollowedTo(c, s, b, Followed(c, PathUp(b, s), o, io), x)
    decreases b.Height() - s.Height()
  {
    PathUpChildren(b, s);
    x := s;
    var path := PathUp(b, s);
    if b != s && io.canRead(PathUp(b, s)[0].Hash()) {
      PathUpStep(b, s);
      var next := path[0];
      OneBelow(next, b);
      AncestorHeight(next, b);
      AttachedIs(c, next, o, io);
      var r := Attached(c, next, o, io);
      hide Attached, PathUp, PutTogether, ConnectTxs;
      if r.ok {
        x := FollowedEnds(r.chain, next, b, o, io);
        FollowedFurther(c, next, b, r.chain, Followed(r.chain, path[1..], o, io), x);
      } else {
        NothingFollowed(c, s, b, r.chain);
      }
    } else {
      NothingFollowed(c, s, b, c);
    }
  }

  lemma NothingFollowed(c: Chain, s: BlockIndex, b: BlockIndex, c': Chain)
    requires IsAncestor(s, b) && c.disk.hashBest == s.Hash() && c'.disk == c.disk && c'.pnext == c.pnext
    ensures FollowedTo(c, s, b, c', s)
  {
    assert PathUp(s, s) == [];
  }

  lemma AttachedIs(c: Chain, b: BlockIndex, o: Oracle, io: Io)
    requires b.Child?
    ensures var r := Attached(c, b, o, io);
            if r.ok then
              ConnectTxs(c.disk.index, b.block, |b.block.vtx|) == Some(r.chain.disk.index) &&
                r.chain.disk.hashBest == b.Hash() && r.chain.pnext == c.pnext[b.pprev.Hash() := b]
            else r.chain.disk == c.disk && r.chain.pnext == c.pnext
  {
    hide ConnectTxs, Acceptable, SupplyWith;
  }

  /** What a reorganisation that goes through and is followed leads to, in any state: the index of
      some block x of the new branch's path, put together on what is left after taking off the old
      one. */
  ghost predicate Replaced(c: Chain, fork: BlockIndex, first: BlockIndex, b: BlockIndex, io: Io, c': Chain,
                           x: BlockIndex)
    requires IsAncestor(fork, c.best)
  {
    && IsAncestor(fork, first) && IsAncestor(first, x) && IsAncestor(x, b) && c'.disk.hashBest == x.Hash()
    && IsAncestor(fork, x) && TakenOff(c.disk.index, PathDown(c.best, fork), io).Some?
    && PutTogether(TakenOff(c.disk.index, PathDown(c.best, fork), io).value, PathUp(x, fork)) == Some(c'.disk.index)
    && c'.pnext == Linked(Unlinked(c.pnext, PathDown(c.best, fork)), PathUp(x, fork))
  }

  lemma {:induction false} PathUpSplit(x: BlockIndex, first: BlockIndex, fork: BlockIndex)
    requires IsAncestor(fork, first) && IsAncestor(first, x)
    ensures IsAncestor(fork, x) && PathUp(x, fork) == PathUp(first, fork) + PathUp(x, first)
  {
    AncestorTransitive(fork, first, x);
    if x != first {
      AncestorHeight(fork, first);
      AncestorHeight(first, x.pprev);
      PathUpSplit(x.pprev, first, fork);
    } else {
      assert PathUp(x, first) == [];
    }
  }

  lemma {:induction false} LinkedConcat(pnext: map<nat, BlockIndex>, p: seq<BlockIndex>, q: seq<BlockIndex>)
    ensures Linked(pnext, p + q) == Linked(Linked(pnext, p), q)
    decreases |p|
  {
    if p == [] {
      assert p + q == q;
    } else {
      assert (p + q)[1..] == p[1..] + q;
      LinkedConcat(if p[0].Child? then pnext[p[0].pprev.Hash() := p[0]] else pnext, p[1..], q);
    }
  }

  /** The first transaction of a reorganisation that goes through. */
  lemma ReorganisedIs(c: Chain, b: BlockIndex, o: Oracle, io: Io)
    requires c.best.Root() == b.Root()
    ensures var fork, r := ForkOf(c.best, b), Reorganised(c, b, o, io);
            var off := TakenOff(c.disk.index, PathDown(c.best, fork), io);
            if r.ok then
              && off.Some? && PutTogether(off.value, PathUp(b, fork)) == Some(r.chain.disk.index)
              && r.chain.disk.hashBest == b.Hash()
              && r.chain.pnext == Linked(Unlinked(c.pnext, PathDown(c.best, fork)), PathUp(b, fork))
            else
              r.chain.disk == c.disk && r.chain.pnext == c.pnext
  {
    var fork := ForkOf(c.best, b);
    var off := TakenOff(c.disk.index, PathDown(c.best, fork), io);
    if off.Some? && PutOn(off.value, c.supply, PathUp(b, fork), o, io).view.Some? {
      PutOnIsTogether(off.value, c.supply, PathUp(b, fork), o, io);
    }
    hide ForkOf, TakenOff, PutOn, PutTogether, Linked, Unlinked, PathUp, PathDown;
  }

  /** The whole of it. */
  lemma AdoptedReplaces(c: Chain, b: BlockIndex, o: Oracle, io: Io) returns (x: BlockIndex)
    requires c.best.Root() == b.Root() && FirstOf(b, c.best).Root() == c.best.Root()
    requires !(b.Child? && b.pprev == c.best) && Adopted(c, b, o, io).ok
    ensures var first := FirstOf(b, c.best);
            Replaced(c, ForkOf(c.best, first), first, b, io, Adopted(c, b, o, io).chain, x)
  {
    var first := FirstOf(b, c.best);
    var fork := ForkOf(c.best, first);
    ReorganisedIs(c, first, o, io);
    PathUpChildren(b, first);
    var next := Reorganised(c, first, o, io).chain;
    hide Reorganised, Followed, FirstOf, ForkOf, TakenOff, PutTogether, Linked, Unlinked, PathUp, PathDown, IsAncestor,
      BlockIndex.Root;
    x := FollowedEnds(next, first, b, o, io);
    PathUpSplit(x, first, fork);
    PutTogetherConcat(TakenOff(c.disk.index, PathDown(c.best, fork), io).value, PathUp(first, fork), PathUp(x, first));
    LinkedConcat(Unlinked(c.pnext, PathDown(c.best, fork)), PathUp(first, fork), PathUp(x, first));
  }

  /** The blocks that were never connected leave the fork's index alone, and the fork is not above the block
      that the database last stood for. */
  ghost predicate Rejoins(c: Chain, t: BlockIndex, fork: BlockIndex) {
    && IsAncestor(fork, t) && IsAncestor(t, c.best) && IndexOf(fork).Some?
    && Leaves(IndexOf(fork).value, PathDown(c.best, t))
  }

  /** With such a fork, a reorganisation that can take the old branch off goes on as from the fork. */
  lemma RejoinsTakenOff(c: Chain, t: BlockIndex, fork: BlockIndex, o: Oracle, io: Io)
    requires PartedFrom(c, t, o) && Rejoins(c, t, fork)
    ensures IsAncestor(fork, c.best) && Unlinked(c.pnext, PathDown(c.best, fork)) == Links(fork)
    ensures var off := TakenOff(c.disk.index, PathDown(c.best, fork), io);
            off.Some? ==> InPlace(off.value, c.supply, fork, o)
  {
    PartedTakenOff(c, t, fork, o, io);
    LeavesExactly(IndexOf(fork).value, PathDown(c.best, t));
    AncestorAccepted(fork, t, o);
    AncestorSupplies(c.supply, fork, t, o);
    hide TreeOk, Without, Accepted, Supplies, IndexOf, AllUndoable, Unlinked, PathDown, Links, TakenOff, Leaves;
  }

  /** Then the database stands for a chain again: it has rejoined. */
  lemma AdoptedRejoins(c: Chain, t: BlockIndex, b: BlockIndex, o: Oracle, io: Io) returns (x: BlockIndex)
    requires PartedFrom(c, t, o) && InTree(c.tree, b) && b.Root() == c.best.Root()
    requires b.ChainTrust() > c.best.ChainTrust() && !(b.Child? && b.pprev == c.best)
    requires FirstOf(b, c.best).Root() == c.best.Root() && Rejoins(c, t, ForkOf(c.best, FirstOf(b, c.best)))
    ensures var r, first := Adopted(c, b, o, io), FirstOf(b, c.best);
            var fork := ForkOf(c.best, first);
            && (r.ok <==> TakenOff(c.disk.index, PathDown(c.best, fork), io).Some? &&
                          Readable(io, PathUp(first, fork)) && Accepted(first, o) && io.canCommit(first.Hash()))
            && (r.ok ==> AdoptedWell(c, b, o, io, r.chain, x))
  {
    var first := FirstOf(b, c.best);
    var fork := ForkOf(c.best, first);
    PartedParts(c, t, o);
    FirstIsBetter(b, c.best);
    AncestorInTree(c.tree, c.best.Root(), first, b);
    RejoinsTakenOff(c, t, fork, o, io);
    ReorganisedShape(c, first, o, io);
    PathUpChildren(b, first);
    x := c.best;
    var next := Reorganised(c, first, o, io);
    assert Shaped(next.chain);
    hide Reorganised, Followed, StandsFor, Accepted, Followable, FirstOf, BlockIndex.ChainTrust, Shaped, InTree, ForkOf,
      PathUp, PathDown, IsAncestor, AllUndoable, PartedFrom, Rejoins, TakenOff, Readable, InPlace, BlockIndex.Root,
        Links,
      Unlinked;
    if TakenOff(c.disk.index, PathDown(c.best, fork), io).Some? {
      ReorganisedStands(c, first, o, io);
      if next.ok {
        x := FollowedStands(next.chain, b, first, o, io);
        MoreTrust(first, x, b, c.best);
        BestChanged(Followed(next.chain, PathUp(b, first), o, io), b, x, o);
      }
    } else {
      NotTakenOff(c, first, o, io);
    }
  }

  lemma NotTakenOff(c: Chain, b: BlockIndex, o: Oracle, io: Io)
    requires c.best.Root() == b.Root()
    requires TakenOff(c.disk.index, PathDown(c.best, ForkOf(c.best, b)), io).None?
    ensures !Reorganised(c, b, o, io).ok
  {
  }

  /** Of two predecessors of a block, one precedes the other. */
  lemma {:induction false} TwoBelow(a: BlockIndex, b: BlockIndex, c: BlockIndex)
    requires IsAncestor(a, c) && IsAncestor(b, c)
    ensures IsAncestor(a, b) || (IsAncestor(b, a) && a != b)
    decreases c
  {
    if a != c && b != c {
      TwoBelow(a, b, c.pprev);
    }
  }

  /** The fork is not above t, but its index is touched by blocks that were never connected: then what is put
      on it is not what the new branch makes of its own. */
  lemma TouchedStaysParted(c: Chain, t: BlockIndex, fork: BlockIndex, first: BlockIndex, b: BlockIndex, o: Oracle,
                           io: Io, c': Chain, x: BlockIndex)
    requires PartedFrom(c, t, o) && IsAncestor(fork, t) && !Rejoins(c, t, fork) && IsAncestor(fork, c.best)
    requires Replaced(c, fork, first, b, io, c', x) && InTree(c.tree, x)
    ensures !StandsFor(c', x, o)
  {
    PartedParts(c, t, o);
    PartedTakenOff(c, t, fork, o, io);
    LeavesExactly(IndexOf(fork).value, PathDown(c.best, t));
    WithoutKeys(IndexOf(fork).value, PathDown(c.best, t));
    TreeUndoable(c.tree, c.best.Root(), x);
    hide TreeOk, Without, Supplies, AllUndoable, Unlinked, PathDown, Links, TakenOff, Leaves, PutTogether, PathUp,
      Connects, PartedFrom, IndexOf, IsAncestor;
    if StandsFor(c', x, o) {
      AcceptedConnects(x, o);
      OnlyFromFork(TakenOff(c.disk.index, PathDown(c.best, fork), io).value, x, fork);
    }
  }

  /** The fork is above t: then t's link stays missing. */
  lemma AboveStaysParted(c: Chain, t: BlockIndex, fork: BlockIndex, first: BlockIndex, b: BlockIndex, o: Oracle,
                         io: Io, c': Chain, x: BlockIndex)
    requires PartedFrom(c, t, o) && !IsAncestor(fork, t) && IsAncestor(fork, c.best)
    requires Replaced(c, fork, first, b, io, c', x) && InTree(c.tree, x)
    ensures !StandsFor(c', x, o)
  {
    PartedParts(c, t, o);
    TwoBelow(fork, t, c.best);
    AncestorTransitive(t, fork, x);
    AncestorHeight(t, fork);
    AncestorHeight(fork, x);
    var path := PathUp(x, fork);
    hide TreeOk, Without, Supplies, AllUndoable, PathDown, Links, TakenOff, PutTogether, Accepted, PartedFrom, IndexOf;
    forall i | 0 <= i < |path| && path[i].Child? ensures path[i].pprev.Hash() != t.Hash() {
      PathUpMember(x, fork, path[i]);
      AncestorInTree(c.tree, c.best.Root(), path[i], x);
      ParentInTree(c.tree, c.best.Root(), path[i]);
    }
    hide IsAncestor, PathUp;
    UnlinkedKeys(c.pnext, PathDown(c.best, fork), t.Hash());
    LinkedKeys(Unlinked(c.pnext, PathDown(c.best, fork)), path, t.Hash());
    NotLinked(c', t, x, o);
  }

  /** In all other cases the database stands for no chain afterwards. */
  lemma AdoptedStaysParted(c: Chain, t: BlockIndex, b: BlockIndex, o: Oracle, io: Io)
    requires PartedFrom(c, t, o) && InTree(c.tree, b) && b.Root() == c.best.Root()
    requires !(b.Child? && b.pprev == c.best) && Adopted(c, b, o, io).ok
    requires FirstOf(b, c.best).Root() == c.best.Root() && !Rejoins(c, t, ForkOf(c.best, FirstOf(b, c.best)))
    ensures forall y :: !StandsFor(Adopted(c, b, o, io).chain, y, o)
  {
    var first := FirstOf(b, c.best);
    var fork := ForkOf(c.best, first);
    var c' := Adopted(c, b, o, io).chain;
    PartedParts(c, t, o);
    AdoptedShape(c, b, o, io);
    var x := AdoptedReplaces(c, b, o, io);
    AncestorInTree(c.tree, c.best.Root(), x, b);
    assert IsFork(fork, c.best, first);
    hide Adopted, StandsFor, TreeOk, PartedFrom, Rejoins, AllUndoable, IsAncestor, FirstOf, ForkOf, BlockIndex.Root,
      TakenOff, PutTogether, Linked, Unlinked, PathUp, PathDown;
    if IsAncestor(fork, t) {
      TouchedStaysParted(c, t, fork, first, b, o, io, c', x);
    } else {
      AboveStaysParted(c, t, fork, first, b, o, io, c', x);
    }
    forall y ensures !StandsFor(c', y, o) {
      if StandsFor(c', y, o) {
        SameHashSame(c', x, y, o);
      }
    }
  }

  /** A failed attempt leaves the parted database as it was. */
  lemma NotAdoptedParted(c: Chain, t: BlockIndex, b: BlockIndex, o: Oracle, io: Io)
    requires PartedFrom(c, t, o) && InTree(c.tree, b) && b.Root() == c.best.Root()
    requires !(b.Child? && b.pprev == c.best) && !Adopted(c, b, o, io).ok
    requires FirstOf(b, c.best).Root() == c.best.Root()
    ensures var c' := Adopted(c, b, o, io).chain;
            PartedFrom(c', t, o) && c'.disk == c.disk && c'.best == c.best
  {
    var first := FirstOf(b, c.best);
    PartedParts(c, t, o);
    AncestorInTree(c.tree, c.best.Root(), first, b);
    ReorganisedIs(c, first, o, io);
    ReorganisedShape(c, first, o, io);
    ReorganisedKeeps(c, first, t, o, io);
    var r := Reorganised(c, first, o, io);
    hide Reorganised, Followed, FirstOf, ForkOf, TakenOff, PutTogether, Linked, Unlinked, PathUp, PathDown, IsAncestor,
      BlockIndex.Root, PartedFrom, Shaped, Supplies, Accepted, AllUndoable, InTree;
    PartedStill(c, t, r.chain, o);
  }

  /** A reorganisation that goes through brings database and best chain together again if and only if its
      fork is not above the block that the database last stood for, and the blocks that were never
      connected leave the index of the fork alone: none of their transactions is in it, and what they
      give back is not spent there. */
  lemma RejoinsExactly(c: Chain, t: BlockIndex, b: BlockIndex, o: Oracle, io: Io)
    requires PartedFrom(c, t, o) && InTree(c.tree, b) && b.Root() == c.best.Root()
    requires b.ChainTrust() > c.best.ChainTrust() && !(b.Child? && b.pprev == c.best) && Adopted(c, b, o, io).ok
    ensures FirstOf(b, c.best).Root() == c.best.Root()
    ensures (exists x :: StandsFor(Adopted(c, b, o, io).chain, x, o)) <==>
            Rejoins(c, t, ForkOf(c.best, FirstOf(b, c.best)))
  {
    FirstIsBetter(b, c.best);
    hide Adopted, StandsFor, PartedFrom, Rejoins, FirstOf, ForkOf, BlockIndex.Root, InTree, BlockIndex.ChainTrust;
    if Rejoins(c, t, ForkOf(c.best, FirstOf(b, c.best))) {
      var x := AdoptedRejoins(c, t, b, o, io);
    } else {
      AdoptedStaysParted(c, t, b, o, io);
    }
  }

  /** Filing a block that can be undone where it is keeps a parted state parted. */
  lemma FiledParted(c: Chain, t: BlockIndex, block: Block, hashPrev: nat, nBlockTrust: nat, o: Oracle)
    requires PartedFrom(c, t, o) && hashPrev in c.tree && block.hash !in c.tree
    requires UndoableInPlace(Child(c.tree[hashPrev], block, nBlockTrust))
    ensures var b := Child(c.tree[hashPrev], block, nBlockTrust);
            var filed := c.(tree := c.tree[block.hash := b]);
            PartedFrom(filed, t, o) && InTree(filed.tree, b) && b.Root() == c.best.Root()
  {
    var b := Child(c.tree[hashPrev], block, nBlockTrust);
    PartedParts(c, t, o);
    FiledShape(c, block, hashPrev, nBlockTrust);
    AllUndoableWith(c.tree, b);
    hide *;
    PartedInTree(c, t, c.tree[block.hash := b], o);
  }

  lemma AllUndoableWith(tree: Tree, b: BlockIndex)
    requires AllUndoable(tree) && UndoableInPlace(b)
    ensures AllUndoable(tree[b.Hash() := b])
  {
    hide UndoableInPlace;
  }

  lemma PartedInTree(c: Chain, t: BlockIndex, tree: Tree, o: Oracle)
    requires PartedFrom(c, t, o) && Shaped(c.(tree := tree)) && AllUndoable(tree) && InTree(tree, t)
    ensures PartedFrom(c.(tree := tree), t, o)
  {
    hide TreeOk, AllUndoable, Without, Accepted, Supplies, IndexOf, Unlinked, PathDown, Links;
  }

  // ----- new blocks for a database that has parted -----

  lemma AddedIsAdopted(c: Chain, block: Block, hashPrev: nat, nBlockTrust: nat, o: Oracle, io: Io)
    requires Shaped(c) && hashPrev in c.tree && block.hash !in c.tree && io.canIndex(block.hash)
    requires var b := Child(c.tree[hashPrev], block, nBlockTrust);
             b.Root() == c.best.Root() && b.ChainTrust() > c.best.ChainTrust()
    ensures var b := Child(c.tree[hashPrev], block, nBlockTrust);
            Added(c, block, hashPrev, nBlockTrust, o, io) == Adopted(c.(tree := c.tree[block.hash := b]), b, o, io)
  {
    hide Adopted, TreeOk;
  }

  lemma BestIgnored(c: Chain, b: BlockIndex, o: Oracle)
    ensures forall x :: StandsFor(c.(best := b), x, o) <==> StandsFor(c, x, o)
  {
    hide InPlace, InTree, Links;
  }

  lemma AdoptedIsAttached(c: Chain, b: BlockIndex, o: Oracle, io: Io)
    requires c.best.Root() == b.Root() && b.Child? && b.pprev == c.best
    ensures var r := Attached(c, b, o, io);
            Adopted(c, b, o, io) == if r.ok then Outcome(true, r.chain.(best := b)) else r
  {
    hide Attached;
  }

  /** What came of a block put on top of the best one, when the database had parted at t. */
  ghost predicate OnTopWell(c: Chain, t: BlockIndex, b: BlockIndex, o: Oracle, io: Io, r: Outcome) {
    && (r.ok <==> Acceptable(c.disk.index, b.block, o) && io.canCommit(b.Hash()))
    && PartedFrom(r.chain, t, o) && r.chain.best == (if r.ok then b else c.best)
    && (r.ok ==> ConnectTxs(c.disk.index, b.block, |b.block.vtx|) == Some(r.chain.disk.index))
    && (r.ok ==> forall x :: !StandsFor(r.chain, x, o))
    && (!r.ok ==> r.chain.disk == c.disk)
  }

  lemma AdoptedOnTopParted(c: Chain, t: BlockIndex, b: BlockIndex, o: Oracle, io: Io)
    requires PartedFrom(c, t, o) && InTree(c.tree, b) && b.Child? && b.pprev == c.best && b.Root() == c.best.Root()
    requires AnonShapesStayInside(c.disk.index, b.block)
    ensures OnTopWell(c, t, b, o, io, Adopted(c, b, o, io))
  {
    AdoptedIsAttached(c, b, o, io);
    AttachedParted(c, t, b, o, io);
    PartedParts(c, t, o);
    AttachedShape(c, b, o, io);
    BestIgnored(Attached(c, b, o, io).chain, b, o);
    hide Adopted, Attached, PartedFrom, StandsFor, Acceptable, ConnectTxs, AnonShapesStayInside, TreeOk,
      BlockIndex.Root;
  }

  lemma SameDisk(c: Chain, t: BlockIndex, b: BlockIndex, tree: Tree, o: Oracle, io: Io, r: Outcome)
    requires OnTopWell(c.(tree := tree), t, b, o, io, r)
    ensures OnTopWell(c, t, b, o, io, r)
  {
    hide PartedFrom, StandsFor, Acceptable, ConnectTxs;
  }

  /** A new block on top of the best one, with more trust: it goes by the index as it is, its
      predecessors that were never connected stay out of the index, and the database stands for no
      chain afterwards. */
  lemma AddedOnTopParted(c: Chain, t: BlockIndex, block: Block, nBlockTrust: nat, o: Oracle, io: Io)
    requires PartedFrom(c, t, o) && block.hash !in c.tree && io.canIndex(block.hash) && nBlockTrust > 0
    requires UndoableInPlace(Child(c.best, block, nBlockTrust)) && AnonShapesStayInside(c.disk.index, block)
    ensures c.best.Hash() in c.tree
    ensures OnTopWell(c, t, Child(c.best, block, nBlockTrust), o, io,
                      Added(c, block, c.best.Hash(), nBlockTrust, o, io))
  {
    var b := Child(c.best, block, nBlockTrust);
    PartedParts(c, t, o);
    FiledParted(c, t, block, c.best.Hash(), nBlockTrust, o);
    AddedIsAdopted(c, block, c.best.Hash(), nBlockTrust, o, io);
    hide PartedFrom, OnTopWell, UndoableInPlace, AnonShapesStayInside, Adopted, Added, TreeOk;
    var tree := c.tree[block.hash := b];
    AdoptedOnTopParted(c.(tree := tree), t, b, o, io);
    SameDisk(c, t, b, tree, o, io, Added(c, block, c.best.Hash(), nBlockTrust, o, io));
  }

  /** In particular when the database still stands for t. */
  lemma AddedOnTopStands(c: Chain, t: BlockIndex, b: BlockIndex, o: Oracle, io: Io)
    requires StandsBelow(c, t, o) && t != c.best && b.Child? && b.pprev == c.best && b.Hash() !in c.tree
    requires io.canIndex(b.Hash()) && b.nBlockTrust > 0 && UndoableInPlace(b)
    requires IndexOf(t).Some? && AnonShapesStayInside(IndexOf(t).value, b.block)
    ensures Shaped(c) && c.best.Hash() in c.tree
    ensures OnTopWell(c, t, b, o, io, Added(c, b.block, c.best.Hash(), b.nBlockTrust, o, io))
  {
    StandsParted(c, t, o);
    StandsParts(c, t, o);
    PartedParts(c, t, o);
    hide PartedFrom, StandsFor, StandsBelow, UndoableInPlace, Added, TreeOk, OnTopWell, AnonShapesStayInside, IndexOf,
      Supplies, Accepted;
    AddedOnTopParted(c, t, b.block, b.nBlockTrust, o, io);
  }
}
