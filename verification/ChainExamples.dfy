/** Short runs from the genesis block: one after which the database does not stand for the best block, how it
    goes on, and one with a block that disconnecting does not undo. */
module ChainExamples {
  import opened Basics
  import opened ChainAgreement
  import opened ChainParting
  import opened ChainPaths
  import opened ChainState
  import opened ChainSteps
  import opened ChainTree
  import opened ClearedIndex
  import opened ConnectBlocks
  import opened Supply
  import opened TxIndexing
  import opened UndoBlock

  /** A reward of 50, no fees demanded, every output mature, and signatures that are not looked at,
      as below the last checkpoint. */
  const LENIENT := Oracle(_ => true, _ => 0, _ => 0, (_, _, _) => true, (_, _, _) => true, _ => None, _ => 0,
                          (_, _) => 50, _ => 0, (_, _) => true)

  function CoinBase(txid: nat, nValue: int): (tx: Tx)
    ensures tx.IsCoinBase() && tx.hash == txid
  {
    Tx(txid, false, 0, [TxIn(OutPoint(0, NULL_N), false)], [TxOut(nValue, false, false)])
  }

  /** A block with a coinbase only. */
  function Plain(hash: nat, txid: nat, nValue: int): Block {
    Block(hash, [CoinBase(txid, nValue)])
  }

  lemma PlainChecked(hash: nat, txid: nat, nValue: int)
    ensures CheckBlock(Plain(hash, txid, nValue), LENIENT) && !IsProofOfStake(Plain(hash, txid, nValue))
  {
  }

  lemma PlainValue(txid: nat, nValue: int)
    ensures ValueOut(CoinBase(txid, nValue)) == nValue
  {
    var tx := CoinBase(txid, nValue);
    assert ValueOutTo(tx, 0) == 0;
  }

  /** On an index that does not know its coinbase, such a block is accepted exactly when it claims
      no more than the reward; and it can always be undone. */
  lemma PlainAccepted(view: View, hash: nat, txid: nat, nValue: int)
    requires txid !in view
    ensures var b := Plain(hash, txid, nValue);
            && (Acceptable(view, b, LENIENT) <==> nValue <= 50)
            && ConnectTxs(view, b, 1) == Some(view[txid := NewTxIndex(At(b, 0), 1)])
            && Undoable(view, b)
  {
    var b, o := Plain(hash, txid, nValue), LENIENT;
    PlainChecked(hash, txid, nValue);
    PlainValue(txid, nValue);
    assert ConnectTxs(view, b, 0) == Some(view);
    assert BlockSigOps(b, o, 0) == 0;
    assert StepAccepted(view, b, o, 0);
    assert AllAccepted(view, b, o);
    hide ValueOut, BlockTotals;
  }

  // ----- a run on which database and best block part -----

  const GENESIS := Genesis(Plain(1, 9, 0), 1)
  const FIRST := Child(GENESIS, Plain(2, 10, 50), 1)

  /** This one claims too much, which only connecting it tells. */
  const SECOND := Child(FIRST, Plain(3, 11, 51), 1)
  const THIRD := Child(SECOND, Plain(4, 12, 50), 1)

  /** A branch of its own from the first block. */
  const FOURTH := Child(FIRST, Plain(5, 13, 50), 5)

  const WORKING := Io(_ => true, _ => true, _ => true)
  const FAILING := Io(_ => true, _ => true, _ => false)

  lemma Indexes()
    ensures IndexOf(GENESIS) == Some(map[])
    ensures IndexOf(FIRST) == Some(map[10 := NewTxIndex(At(FIRST.block, 0), 1)])
    ensures IndexOf(SECOND).Some? && IndexOf(SECOND).value.Keys == {10, 11}
    ensures IndexOf(THIRD).Some? && 11 in IndexOf(THIRD).value
  {
    hide ConnectTxs;
    PlainAccepted(map[], 2, 10, 50);
    var view: View := map[10 := NewTxIndex(At(FIRST.block, 0), 1)];
    PlainAccepted(view, 3, 11, 51);
    var view' := view[11 := NewTxIndex(At(SECOND.block, 0), 1)];
    PlainAccepted(view', 4, 12, 50);
  }

  lemma FirstIsAccepted()
    ensures Accepted(FIRST, LENIENT) && UndoableInPlace(FIRST) && CheckBlock(FIRST.block, LENIENT)
  {
    Indexes();
    PlainChecked(2, 10, 50);
    PlainAccepted(map[], 2, 10, 50);
    hide IndexOf, Acceptable, Undoable;
    assert Accepted(GENESIS, LENIENT);
  }

  lemma SecondIsRefused()
    ensures !Accepted(SECOND, LENIENT) && UndoableInPlace(SECOND) && CheckBlock(SECOND.block, LENIENT)
  {
    Indexes();
    PlainChecked(3, 11, 51);
    PlainAccepted(IndexOf(FIRST).value, 3, 11, 51);
    hide IndexOf, Acceptable, Undoable;
  }

  lemma ThirdIsUndoable()
    ensures UndoableInPlace(THIRD) && CheckBlock(THIRD.block, LENIENT)
    ensures IndexOf(FIRST).Some?
    ensures Acceptable(IndexOf(FIRST).value, THIRD.block, LENIENT) && Undoable(IndexOf(FIRST).value, THIRD.block)
  {
    Indexes();
    PlainChecked(4, 12, 50);
    PlainAccepted(IndexOf(FIRST).value, 4, 12, 50);
    PlainAccepted(IndexOf(SECOND).value, 4, 12, 50);
    hide IndexOf, Acceptable, Undoable;
  }

  lemma FourthIsAccepted()
    ensures Accepted(FOURTH, LENIENT) && UndoableInPlace(FOURTH) && CheckBlock(FOURTH.block, LENIENT)
  {
    Indexes();
    FirstIsAccepted();
    PlainChecked(5, 13, 50);
    PlainAccepted(IndexOf(FIRST).value, 5, 13, 50);
    hide IndexOf, Acceptable, Undoable;
  }

  lemma Trusts()
    ensures GENESIS.ChainTrust() == 1 && FIRST.ChainTrust() == 2 && SECOND.ChainTrust() == 3 && THIRD.ChainTrust() == 4
    ensures FOURTH.ChainTrust() == 7
    ensures FIRST.Root() == SECOND.Root() == THIRD.Root() == FOURTH.Root() == GENESIS.Root() == GENESIS
  {
  }

  lemma Ancestors()
    ensures IsAncestor(GENESIS, GENESIS) && IsAncestor(GENESIS, FIRST) && IsAncestor(FIRST, FIRST)
    ensures IsAncestor(FIRST, SECOND) && IsAncestor(FIRST, THIRD) && IsAncestor(FIRST, FOURTH)
  {
    assert IsAncestor(FIRST, SECOND);
  }

  /** The first block is filed, but its commit fails. */
  method FileFirst() returns (c: CBlockChain)
    ensures fresh(c) && fresh(c.chainActive) && c.Valid() && InStep(c.Contents(), LENIENT) && c.o == LENIENT
    ensures c.mapBlockIndex == map[1 := GENESIS, 2 := FIRST] && c.pindexBest == GENESIS
  {
    FirstIsAccepted();
    Trusts();
    hide Shaped, InStep, Accepted, UndoableInPlace, BlockIndex.ChainTrust, BlockIndex.Root, Adopted, CheckBlock;
    c := new CBlockChain(GENESIS, LENIENT);
    ghost var before := c.Contents();
    var ok := c.AddToBlockIndex(FIRST.block, 1, 1, FAILING);
    FirstNotAdopted(before);
  }

  lemma FirstNotAdopted(c: Chain)
    requires InStep(c, LENIENT) && Shaped(c) && c.tree == map[1 := GENESIS] && c.best == GENESIS
    ensures 1 in c.tree
    ensures var c' := Added(c, FIRST.block, 1, 1, LENIENT, FAILING).chain;
            c'.tree == map[1 := GENESIS, 2 := FIRST] && c'.best == GENESIS && InStep(c', LENIENT)
  {
    FirstIsAccepted();
    Trusts();
    FiledStands(c, FIRST.block, 1, 1, LENIENT);
    var filed := c.(tree := c.tree[2 := FIRST]);
    var t := AdoptedInStep(filed, FIRST, LENIENT, FAILING);
    AdoptedShape(filed, FIRST, LENIENT, FAILING);
    hide Accepted, UndoableInPlace, BlockIndex.ChainTrust, BlockIndex.Root, StandsFor, TreeOk, Adopted;
  }

  /** The first block is filed, but its commit fails; with the second one, which cannot be connected, the
      first is adopted and the second postponed.  In the end the second is the best block, and the
      database stands for the first. */
  method LosesSync() returns (c: CBlockChain)
    ensures CheckBlock(FIRST.block, LENIENT) && CheckBlock(SECOND.block, LENIENT)
    ensures fresh(c) && fresh(c.chainActive) && c.Valid() && c.o == LENIENT
    ensures c.mapBlockIndex == map[1 := GENESIS, 2 := FIRST, 3 := SECOND] && c.pindexBest == SECOND
    ensures StandsBelow(c.Contents(), FIRST, LENIENT) && c.disk.hashBest == FIRST.Hash()
  {
    FirstIsAccepted();
    SecondIsRefused();
    hide Shaped, InStep, Accepted, UndoableInPlace, BlockIndex.ChainTrust, BlockIndex.Root, Added, CheckBlock;
    c := FileFirst();
    ghost var before := c.Contents();
    var ok := c.AddToBlockIndex(SECOND.block, 2, 1, WORKING);
    SecondPostponed(before);
  }

  lemma SecondPostponed(c: Chain)
    requires InStep(c, LENIENT) && Shaped(c) && c.tree == map[1 := GENESIS, 2 := FIRST] && c.best == GENESIS
    ensures 2 in c.tree
    ensures var c' := Added(c, SECOND.block, 2, 1, LENIENT, WORKING).chain;
            && c'.tree == map[1 := GENESIS, 2 := FIRST, 3 := SECOND] && c'.best == SECOND
            && StandsBelow(c', FIRST, LENIENT) && c'.disk.hashBest == FIRST.Hash()
  {
    FirstIsAccepted();
    SecondIsRefused();
    Trusts();
    Ancestors();
    FiledStands(c, SECOND.block, 2, 1, LENIENT);
    var filed := c.(tree := c.tree[3 := SECOND]);
    var t := AdoptedInStep(filed, SECOND, LENIENT, WORKING);
    AdoptedShape(filed, SECOND, LENIENT, WORKING);
    FirstIsFirst();
    FirstCanBeAdopted();
    hide Accepted, UndoableInPlace, BlockIndex.ChainTrust, BlockIndex.Root, TreeOk, Adopted, FirstOf, CanSwitch;
    StandsInBetween(t);
  }

  lemma FirstIsFirst()
    ensures FirstOf(SECOND, GENESIS) == FIRST && FirstOf(FIRST, GENESIS) == FIRST
  {
    Trusts();
  }

  lemma FirstCanBeAdopted()
    ensures GENESIS.Root() == FIRST.Root() && CanSwitch(GENESIS, FIRST, ForkOf(GENESIS, FIRST), LENIENT, WORKING)
  {
    FirstIsAccepted();
    hide Accepted;
  }

  lemma StandsInBetween(t: BlockIndex)
    requires IsAncestor(FIRST, t) && IsAncestor(t, SECOND)
    ensures t == FIRST || t == SECOND
  {
    AncestorHeight(FIRST, t);
    assert IsAncestor(t, SECOND) <==> t == SECOND || IsAncestor(t, FIRST);
    if IsAncestor(t, FIRST) {
      AncestorHeight(t, FIRST);
    }
  }

  // ----- how it goes on -----

  /** A block on top of the second one is attached to the database that stands for the first: its index lacks
      the second block, and stands for no chain. */
  method LosesTrack() returns (c: CBlockChain)
    ensures fresh(c) && fresh(c.chainActive) && c.Valid() && c.o == LENIENT && c.pindexBest == THIRD
    ensures c.mapBlockIndex == map[1 := GENESIS, 2 := FIRST, 3 := SECOND, 4 := THIRD]
    ensures PartedFrom(c.Contents(), FIRST, LENIENT) && forall x :: !StandsFor(c.Contents(), x, LENIENT)
    ensures IndexOf(FIRST).Some? && ConnectTxs(IndexOf(FIRST).value, THIRD.block, 1) == Some(c.disk.index)
    ensures IndexOf(THIRD).Some? && c.disk.index != IndexOf(THIRD).value
  {
    hide Shaped, BlockIndex.ChainTrust, BlockIndex.Root, Added, StandsBelow, PartedFrom, IndexOf, ConnectTxs;
    c := LosesSync();
    ghost var before := c.Contents();
    var ok := c.AddToBlockIndex(THIRD.block, 3, 1, WORKING);
    ThirdAttached(before);
  }

  lemma ThirdAttached(c: Chain)
    requires StandsBelow(c, FIRST, LENIENT) && Shaped(c) && c.best == SECOND
    requires c.tree == map[1 := GENESIS, 2 := FIRST, 3 := SECOND]
    ensures 3 in c.tree
    ensures var c' := Added(c, THIRD.block, 3, 1, LENIENT, WORKING).chain;
            && c'.tree == map[1 := GENESIS, 2 := FIRST, 3 := SECOND, 4 := THIRD] && c'.best == THIRD
            && PartedFrom(c', FIRST, LENIENT) && (forall x :: !StandsFor(c', x, LENIENT))
            && IndexOf(FIRST).Some? && ConnectTxs(IndexOf(FIRST).value, THIRD.block, 1) == Some(c'.disk.index)
            && IndexOf(THIRD).Some? && c'.disk.index != IndexOf(THIRD).value
  {
    StandsParts(c, FIRST, LENIENT);
    ThirdOnTop(c);
    ThirdIsNotSecond();
    ThirdIsUndoable();
    ThirdInTree(c);
    hide PartedFrom, StandsFor, StandsBelow, UndoableInPlace, Added, Acceptable, ConnectTxs, IndexOf, TreeOk, Accepted,
      AllUndoable, CheckBlock, Undoable, InTree;
  }

  lemma ThirdInTree(c: Chain)
    requires Shaped(c) && c.best == SECOND && c.tree == map[1 := GENESIS, 2 := FIRST, 3 := SECOND]
    ensures var c' := Added(c, THIRD.block, 3, 1, LENIENT, WORKING).chain;
            c'.tree == map[1 := GENESIS, 2 := FIRST, 3 := SECOND, 4 := THIRD]
  {
    hide Added, TreeOk;
    AddedShape(c, THIRD.block, 3, 1, LENIENT, WORKING);
  }

  lemma ThirdOnTop(c: Chain)
    requires StandsBelow(c, FIRST, LENIENT) && Shaped(c) && c.best == SECOND
    requires c.tree == map[1 := GENESIS, 2 := FIRST, 3 := SECOND]
    ensures OnTopWell(c, FIRST, THIRD, LENIENT, WORKING, Added(c, THIRD.block, 3, 1, LENIENT, WORKING))
  {
    ThirdIsUndoable();
    Trusts();
    hide PartedFrom, StandsFor, StandsBelow, UndoableInPlace, Added, Acceptable, IndexOf, TreeOk, CheckBlock, OnTopWell,
      AnonShapesStayInside, AllNew, BlockIndex.ChainTrust, BlockIndex.Root;
    AddedOnTopStands(c, FIRST, THIRD, LENIENT, WORKING);
  }

  lemma ThirdIsNotSecond()
    ensures IndexOf(FIRST).Some? && ConnectTxs(IndexOf(FIRST).value, THIRD.block, 1).Some?
    ensures IndexOf(THIRD).Some? && ConnectTxs(IndexOf(FIRST).value, THIRD.block, 1) != IndexOf(THIRD)
  {
    Indexes();
    PlainAccepted(IndexOf(FIRST).value, 4, 12, 50);
    hide ConnectTxs, Acceptable;
    assert 11 !in ConnectTxs(IndexOf(FIRST).value, THIRD.block, 1).value;
  }

  /** A better branch from the first block brings database and best block together again, although the third
      block was taken off a database in which its predecessor never was. */
  method FindsBack() returns (c: CBlockChain)
    ensures CheckBlock(THIRD.block, LENIENT) && CheckBlock(FOURTH.block, LENIENT)
    ensures fresh(c) && c.Valid() && InStep(c.Contents(), LENIENT) && c.pindexBest == FOURTH
  {
    ThirdIsUndoable();
    FourthIsAccepted();
    hide Shaped, BlockIndex.ChainTrust, BlockIndex.Root, Added, StandsBelow, PartedFrom, IndexOf, ConnectTxs, InStep,
      CheckBlock, UndoableInPlace, Acceptable, Undoable, Accepted;
    c := LosesTrack();
    ghost var before := c.Contents();
    var ok := c.AddToBlockIndex(FOURTH.block, 2, 5, WORKING);
    FourthRejoins(before);
  }

  lemma FourthRejoins(c: Chain)
    requires PartedFrom(c, FIRST, LENIENT) && Shaped(c) && c.best == THIRD
    requires c.tree == map[1 := GENESIS, 2 := FIRST, 3 := SECOND, 4 := THIRD]
    ensures 2 in c.tree
    ensures var c' := Added(c, FOURTH.block, 2, 5, LENIENT, WORKING).chain;
            c'.best == FOURTH && InStep(c', LENIENT)
  {
    FourthIsFiled(c);
    var filed := c.(tree := c.tree[5 := FOURTH]);
    FourthAdopted(filed);
    FourthAdded(c);
  }

  lemma FourthIsFiled(c: Chain)
    requires PartedFrom(c, FIRST, LENIENT) && Shaped(c) && c.best == THIRD
    requires c.tree == map[1 := GENESIS, 2 := FIRST, 3 := SECOND, 4 := THIRD]
    ensures var filed := c.(tree := c.tree[5 := FOURTH]);
            PartedFrom(filed, FIRST, LENIENT) && InTree(filed.tree, FOURTH)
  {
    FourthIsAccepted();
    hide PartedFrom, UndoableInPlace, Accepted, TreeOk;
    FiledParted(c, FIRST, FOURTH.block, 2, 5, LENIENT);
  }

  lemma FourthAdded(c: Chain)
    requires Shaped(c) && c.best == THIRD && c.tree == map[1 := GENESIS, 2 := FIRST, 3 := SECOND, 4 := THIRD]
    ensures FOURTH.Root() == THIRD.Root()
    ensures Added(c, FOURTH.block, 2, 5, LENIENT, WORKING) ==
            Adopted(c.(tree := c.tree[5 := FOURTH]), FOURTH, LENIENT, WORKING)
  {
    Trusts();
    hide Adopted, TreeOk, BlockIndex.ChainTrust, BlockIndex.Root;
    AddedIsAdopted(c, FOURTH.block, 2, 5, LENIENT, WORKING);
  }

  lemma FourthAdopted(c: Chain)
    requires PartedFrom(c, FIRST, LENIENT) && c.best == THIRD && InTree(c.tree, FOURTH)
    ensures FOURTH.Root() == THIRD.Root()
    ensures var c' := Adopted(c, FOURTH, LENIENT, WORKING).chain;
            c'.best == FOURTH && InStep(c', LENIENT)
  {
    Trusts();
    FourthIsAccepted();
    FourthFork(c);
    PartedParts(c, FIRST, LENIENT);
    hide Accepted, UndoableInPlace, BlockIndex.ChainTrust, BlockIndex.Root, TreeOk, PartedFrom, Adopted, FirstOf,
      ForkOf,
      StandsFor, TakenOff, Rejoins, CheckBlock, PathUp, PathDown, Readable;
    var x := AdoptedRejoins(c, FIRST, FOURTH, LENIENT, WORKING);
    AdoptedShape(c, FOURTH, LENIENT, WORKING);
    OnlyItself(FOURTH, x);
  }

  lemma OnlyItself(b: BlockIndex, x: BlockIndex)
    requires IsAncestor(b, x) && IsAncestor(x, b)
    ensures x == b
  {
    AncestorHeight(b, x);
    AncestorHeight(x, b);
  }

  lemma FourthFork(c: Chain)
    requires c.best == THIRD && THIRD.Root() == FOURTH.Root()
    ensures FirstOf(FOURTH, THIRD) == FOURTH && ForkOf(THIRD, FOURTH) == FIRST && IsAncestor(FIRST, THIRD)
    ensures Rejoins(c, FIRST, FIRST) && TakenOff(c.disk.index, PathDown(THIRD, FIRST), WORKING).Some?
    ensures IsAncestor(FIRST, FOURTH) && Readable(WORKING, PathUp(FOURTH, FIRST))
  {
    Trusts();
    Ancestors();
    ForkOfFourth();
    Indexes();
    assert PathDown(THIRD, FIRST) == [THIRD, SECOND];
    BothTakenOff(c.disk.index);
    var view := IndexOf(FIRST).value;
    assert BlockLeaves(view, THIRD.block) && BlockLeaves(view, SECOND.block);
    hide IndexOf, BlockLeaves, TakenOff;
  }

  lemma ForkOfFourth()
    requires THIRD.Root() == FOURTH.Root()
    ensures ForkOf(THIRD, FOURTH) == FIRST
  {
    Ancestors();
    assert !IsAncestor(FOURTH, THIRD);
  }

  lemma BothTakenOff(view: View)
    ensures TakenOff(view, [THIRD, SECOND], WORKING).Some?
  {
    var v := DisconnectTxs(view, THIRD.block, 1).value;
    assert [THIRD, SECOND][1..] == [SECOND] && [SECOND][1..] == [];
    assert TakenOff(v, [SECOND], WORKING).Some?;
  }

  // ----- a block that disconnecting does not undo -----

  /** An ordinary transaction whose only input, of anonymous shape, spends the first block's coinbase. */
  const STRADDLER := Tx(2, false, 0, [TxIn(OutPoint(10, 0), true)], [TxOut(50, false, false)])

  /** The block after the first one, with this transaction, is accepted where signatures are not
      looked at; but disconnecting it leaves the coinbase's output marked as spent for good. */
  lemma StraddlerExample()
    ensures var block := Block(6, [CoinBase(14, 50), STRADDLER]);
            && Accepted(FIRST, LENIENT) && IndexOf(FIRST).Some?
            && Acceptable(IndexOf(FIRST).value, block, LENIENT)
            && var after := ConnectTxs(IndexOf(FIRST).value, block, 2);
               after.Some? && DisconnectTxs(after.value, block, 2) != IndexOf(FIRST)
  {
    var block, o := Block(6, [CoinBase(14, 50), STRADDLER]), LENIENT;
    FirstIsAccepted();
    Indexes();
    var view := IndexOf(FIRST).value;
    StraddlerAccepted(view, block);
    assert Straddles(STRADDLER, 0) && block.vtx[1] == STRADDLER;
    hide IndexOf, Accepted, Acceptable;
    DisconnectRestoresExactlyWhenUndoable(view, block);
  }

  lemma StraddlerAccepted(view: View, block: Block)
    requires view == map[10 := NewTxIndex(At(FIRST.block, 0), 1)] && block == Block(6, [CoinBase(14, 50), STRADDLER])
    ensures Acceptable(view, block, LENIENT) && ConnectTxs(view, block, 2).Some? && DistinctTxids(block)
  {
    var o := LENIENT;
    var next := view[14 := NewTxIndex(At(block, 0), 1)];
    assert ConnectTxs(view, block, 0) == Some(view);
    assert ConnectTxs(view, block, 1) == Some(next);
    StraddlerSpends(next, At(block, 1));
    StraddlerPays(next);
    PlainValue(14, 50);
    assert StepAccepted(view, block, o, 0) && StepAccepted(view, block, o, 1);
    assert BlockSigOps(block, o, 0) == 0 && BlockSigOps(block, o, 1) == 0 && BlockSigOps(block, o, 2) == 0;
    assert AllAccepted(view, block, o);
    assert CheckBlock(block, o) && !IsProofOfStake(block);
    hide ValueOut, BlockTotals, PaysItsWay, PrevValues;
  }

  lemma StraddlerSpends(view: View, pos: DiskTxPos)
    requires 10 in view && view[10].vSpent == [Unspent]
    ensures Prevouts(STRADDLER) == [OutPoint(10, 0)] && SpendAll(view, Prevouts(STRADDLER), pos).Some?
  {
    assert PrevoutsFrom(STRADDLER, 1) == [];
    assert Spendable(view, OutPoint(10, 0));
    assert [OutPoint(10, 0)][1..] == [];
  }

  lemma StraddlerPays(view: View)
    requires 10 in view && view[10].pos == At(FIRST.block, 0) && view[10].vSpent == [Unspent]
    ensures InputsAccepted(view, STRADDLER, LENIENT) && MoneyRange(PrevValues(view, Prevouts(STRADDLER)))
    ensures PaysItsWay(PrevValues(view, Prevouts(STRADDLER)), STRADDLER, LENIENT)
  {
    StraddlerSpends(view, At(FIRST.block, 0));
    var o := OutPoint(10, 0);
    assert [o][1..] == [];
    assert PrevValues(view, [o]) == 50;
    assert ValueOutTo(STRADDLER, 0) == 0 && ValueOut(STRADDLER) == 50;
  }
}
