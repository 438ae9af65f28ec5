/** What taking blocks off leaves of an index, in closed form: whatever the order, the entries of their
    transactions are gone and the outputs they give back are unspent. */
module ClearedIndex {
  import opened Basics
  import opened ChainPaths
  import opened ChainTree
  import opened TxIndexing
  import opened UndoBlock

  function Spared(vSpent: seq<DiskTxPos>, h: nat, given: set<OutPoint>): (v: seq<DiskTxPos>)
    ensures |v| == |vSpent|
    ensures forall k :: 0 <= k < |v| ==> v[k] == if OutPoint(h, k) in given then Unspent else vSpent[k]
  {
    seq(|vSpent|, k requires 0 <= k < |vSpent| => if OutPoint(h, k) in given then Unspent else vSpent[k])
  }

  /** The index without some entries, and with some outputs unspent. */
  function Cleared(view: View, erased: set<nat>, given: set<OutPoint>): View {
    map h | h in view && h !in erased :: TxIndex(view[h].pos, Spared(view[h].vSpent, h, given))
  }

  lemma ClearedTwice(view: View, e: set<nat>, g: set<OutPoint>, e': set<nat>, g': set<OutPoint>)
    ensures Cleared(Cleared(view, e, g), e', g') == Cleared(view, e + e', g + g')
  {
    var a, b := Cleared(Cleared(view, e, g), e', g'), Cleared(view, e + e', g + g');
    forall h | h in a ensures h in b && a[h] == b[h] {
      assert a[h].vSpent == b[h].vSpent;
    }
    forall h | h in b ensures h in a {
    }
  }

  lemma ClearedNothing(view: View)
    ensures Cleared(view, {}, {}) == view
  {
    var a := Cleared(view, {}, {});
    forall h | h in a ensures a[h] == view[h] {
      assert a[h].vSpent == view[h].vSpent;
    }
  }

  function Outputs(outs: seq<OutPoint>): set<OutPoint> {
    set o | o in outs
  }

  lemma {:induction false} GiveBackClears(view: View, outs: seq<OutPoint>)
    requires GiveBackAll(view, outs).Some?
    ensures GiveBackAll(view, outs).value == Cleared(view, {}, Outputs(outs))
    decreases |outs|
  {
    if outs == [] {
      assert Outputs(outs) == {};
      ClearedNothing(view);
    } else {
      var next := if outs[0].hash in view then Mark(view, outs[0], Unspent) else view;
      GiveBackClears(next, outs[1..]);
      FirstCleared(view, outs);
      ClearedTwice(view, {}, {outs[0]}, {}, Outputs(outs[1..]));
      assert Outputs(outs) == {outs[0]} + Outputs(outs[1..]);
      hide Cleared;
    }
  }

  lemma FirstCleared(view: View, outs: seq<OutPoint>)
    requires outs != [] && (outs[0].hash in view ==> outs[0].n < |view[outs[0].hash].vSpent|)
    ensures (if outs[0].hash in view then Mark(view, outs[0], Unspent) else view) == Cleared(view, {}, {outs[0]})
  {
    var a := if outs[0].hash in view then Mark(view, outs[0], Unspent) else view;
    var b := Cleared(view, {}, {outs[0]});
    forall h | h in a ensures h in b && a[h] == b[h] {
      assert a[h].vSpent == b[h].vSpent;
    }
    forall h | h in b ensures h in a {
    }
  }

  /** The outputs that a transaction gives back. */
  function GivenByTx(tx: Tx): set<OutPoint> {
    if tx.IsCoinBase() then {} else Outputs(Givebacks(tx))
  }

  lemma DisconnectTxClears(view: View, tx: Tx)
    requires DisconnectTx(view, tx).Some?
    ensures DisconnectTx(view, tx).value == Cleared(view, {tx.hash}, GivenByTx(tx))
  {
    var given := GivenByTx(tx);
    if tx.IsCoinBase() {
      ClearedNothing(view);
    } else {
      GiveBackClears(view, Givebacks(tx));
    }
    ClearedTwice(view, {}, given, {tx.hash}, {});
    assert {} + {tx.hash} == {tx.hash} && given + {} == given;
    var v := Cleared(view, {}, given);
    ErasedOnly(v, tx.hash);
  }

  lemma ErasedOnly(view: View, h: nat)
    ensures Cleared(view, {h}, {}) == view - {h}
  {
    var a, b := Cleared(view, {h}, {}), view - {h};
    forall x | x in a ensures x in b && a[x] == b[x] {
      assert a[x].vSpent == b[x].vSpent;
    }
    forall x | x in b ensures x in a {
    }
  }

  /** The transactions, and the outputs given back, of the first i transactions of a block. */
  function GivenUpTo(block: Block, i: nat): set<OutPoint>
    requires i <= |block.vtx|
  {
    if i == 0 then {} else GivenUpTo(block, i - 1) + GivenByTx(block.vtx[i - 1])
  }

  lemma {:induction false} DisconnectTxsClears(view: View, block: Block, i: nat)
    requires i <= |block.vtx| && DisconnectTxs(view, block, i).Some?
    ensures DisconnectTxs(view, block, i).value == Cleared(view, Txids(block, i), GivenUpTo(block, i))
    decreases i
  {
    if i == 0 {
      assert Txids(block, 0) == {};
      ClearedNothing(view);
    } else {
      var tx := block.vtx[i - 1];
      DisconnectTxClears(view, tx);
      hide DisconnectTx, Cleared, GivenByTx;
      DisconnectTxsClears(DisconnectTx(view, tx).value, block, i - 1);
      ClearedTwice(view, {tx.hash}, GivenByTx(tx), Txids(block, i - 1), GivenUpTo(block, i - 1));
      assert {tx.hash} + Txids(block, i - 1) == Txids(block, i);
      assert GivenByTx(tx) + GivenUpTo(block, i - 1) == GivenUpTo(block, i);
    }
  }

  /** The transactions of the blocks of a path, and the outputs they give back. */
  function TxidsOf(path: seq<BlockIndex>): set<nat> {
    if path == [] then {} else Txids(path[0].block, |path[0].block.vtx|) + TxidsOf(path[1..])
  }

  function GivenBy(path: seq<BlockIndex>): set<OutPoint> {
    if path == [] then {} else GivenUpTo(path[0].block, |path[0].block.vtx|) + GivenBy(path[1..])
  }

  /** An index without what the blocks of a path have put there. */
  function Without(view: View, path: seq<BlockIndex>): View {
    Cleared(view, TxidsOf(path), GivenBy(path))
  }

  lemma {:induction false} TakingOffClears(view: View, path: seq<BlockIndex>, io: Io)
    requires TakenOff(view, path, io).Some?
    ensures TakenOff(view, path, io).value == Without(view, path)
    decreases |path|
  {
    if path == [] {
      ClearedNothing(view);
    } else {
      var block := path[0].block;
      var n := |block.vtx|;
      DisconnectTxsClears(view, block, n);
      hide DisconnectTxs, Cleared, GivenUpTo, Txids;
      TakingOffClears(DisconnectTxs(view, block, n).value, path[1..], io);
      ClearedTwice(view, Txids(block, n), GivenUpTo(block, n), TxidsOf(path[1..]), GivenBy(path[1..]));
    }
  }

  lemma {:induction false} PathSets(p: seq<BlockIndex>, q: seq<BlockIndex>)
    ensures TxidsOf(p + q) == TxidsOf(p) + TxidsOf(q) && GivenBy(p + q) == GivenBy(p) + GivenBy(q)
    decreases |p|
  {
    if p == [] {
      assert p + q == q;
    } else {
      assert (p + q)[1..] == p[1..] + q;
      hide Txids, GivenUpTo;
      PathSets(p[1..], q);
    }
  }

  /** The order in which paths are cleared does not matter. */
  lemma WithoutBoth(view: View, p: seq<BlockIndex>, q: seq<BlockIndex>)
    ensures Without(view, p + q) == Without(Without(view, p), q) == Without(Without(view, q), p)
  {
    hide TxidsOf, GivenBy, Cleared;
    PathSets(p, q);
    ClearedTwice(view, TxidsOf(p), GivenBy(p), TxidsOf(q), GivenBy(q));
    ClearedTwice(view, TxidsOf(q), GivenBy(q), TxidsOf(p), GivenBy(p));
    assert TxidsOf(p) + TxidsOf(q) == TxidsOf(q) + TxidsOf(p) && GivenBy(p) + GivenBy(q) == GivenBy(q) + GivenBy(p);
  }

  // ----- blocks that leave an index alone -----

  /** No transaction of the block is in the index, and what it gives back is not spent there. */
  ghost predicate BlockLeaves(view: View, block: Block) {
    && (forall i :: 0 <= i < |block.vtx| ==> block.vtx[i].hash !in view)
    && forall i, o :: 0 <= i < |block.vtx| && !block.vtx[i].IsCoinBase() && o in Givebacks(block.vtx[i]) ==>
         (InRange(view, o) ==> view[o.hash].vSpent[o.n] == Unspent)
  }

  /** Taking the blocks off would change nothing in the index. */
  ghost predicate Leaves(view: View, path: seq<BlockIndex>) {
    forall i :: 0 <= i < |path| ==> BlockLeaves(view, path[i].block)
  }

  ghost predicate SetsLeave(view: View, erased: set<nat>, given: set<OutPoint>) {
    (forall h :: h in erased ==> h !in view) && forall o :: o in given && InRange(view, o) ==>
      view[o.hash].vSpent[o.n] == Unspent
  }

  lemma ClearedSame(view: View, erased: set<nat>, given: set<OutPoint>)
    ensures Cleared(view, erased, given) == view <==> SetsLeave(view, erased, given)
  {
    var a := Cleared(view, erased, given);
    if SetsLeave(view, erased, given) {
      forall h | h in view ensures h in a && a[h] == view[h] {
        forall k | 0 <= k < |view[h].vSpent| ensures a[h].vSpent[k] == view[h].vSpent[k] {
          assert OutPoint(h, k) in given ==> InRange(view, OutPoint(h, k));
        }
        assert a[h].vSpent == view[h].vSpent;
      }
      assert a.Keys == view.Keys;
    } else if a == view {
      forall h | h in erased ensures h !in view {
        assert h !in a;
      }
      forall o | o in given && InRange(view, o) ensures view[o.hash].vSpent[o.n] == Unspent {
        assert OutPoint(o.hash, o.n) == o && o.hash in a;
        assert a[o.hash].vSpent[o.n] == Unspent;
      }
    }
  }

  lemma {:induction false} GivenMembers(block: Block, i: nat, o: OutPoint)
    requires i <= |block.vtx|
    ensures o in GivenUpTo(block, i) <==>
            exists j :: 0 <= j < i && !block.vtx[j].IsCoinBase() && o in Givebacks(block.vtx[j])
    decreases i
  {
    if i > 0 {
      hide Givebacks, Tx.IsCoinBase;
      GivenMembers(block, i - 1, o);
    }
  }

  lemma BlockLeavesSets(view: View, block: Block)
    ensures BlockLeaves(view, block) <==>
            SetsLeave(view, Txids(block, |block.vtx|), GivenUpTo(block, |block.vtx|))
  {
    var n := |block.vtx|;
    hide Givebacks, Tx.IsCoinBase, GivenUpTo;
    forall o ensures o in GivenUpTo(block, n) <==>
                     exists j :: 0 <= j < n && !block.vtx[j].IsCoinBase() && o in Givebacks(block.vtx[j])
    {
      GivenMembers(block, n, o);
    }
    if BlockLeaves(view, block) {
      forall o | o in GivenUpTo(block, n) && InRange(view, o) ensures view[o.hash].vSpent[o.n] == Unspent {
        var j :| 0 <= j < n && !block.vtx[j].IsCoinBase() && o in Givebacks(block.vtx[j]);
      }
    }
  }

  lemma {:induction false} LeavesSets(view: View, path: seq<BlockIndex>)
    ensures Leaves(view, path) <==> SetsLeave(view, TxidsOf(path), GivenBy(path))
    decreases |path|
  {
    if path != [] {
      BlockLeavesSets(view, path[0].block);
      LeavesSets(view, path[1..]);
      hide BlockLeaves, Txids, GivenUpTo;
      LeavesFirst(view, path);
    }
  }

  lemma LeavesFirst(view: View, path: seq<BlockIndex>)
    requires path != []
    ensures Leaves(view, path) <==> BlockLeaves(view, path[0].block) && Leaves(view, path[1..])
  {
    hide BlockLeaves;
    if BlockLeaves(view, path[0].block) && Leaves(view, path[1..]) {
      forall i | 0 <= i < |path| ensures BlockLeaves(view, path[i].block) {
        if i > 0 {
          assert path[i] == path[1..][i - 1];
        }
      }
    }
  }

  /** Taking the blocks off changes nothing exactly when they leave the index alone. */
  lemma LeavesExactly(view: View, path: seq<BlockIndex>)
    ensures Without(view, path) == view <==> Leaves(view, path)
  {
    ClearedSame(view, TxidsOf(path), GivenBy(path));
    LeavesSets(view, path);
    hide Cleared, SetsLeave, Leaves;
  }
}
