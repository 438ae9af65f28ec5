/** Disconnecting a block undoes connecting it, exactly under the condition Undoable. */
module UndoBlock {
  import opened Basics
  import opened TxIndexing

  /** The hashes of the first i transactions of a block. */
  function Txids(block: Block, i: nat): set<nat>
    requires i <= |block.vtx|
  {
    set j | 0 <= j < i :: block.vtx[j].hash
  }

  // ----- connecting -----

  /** What connecting one transaction has done to the index. */
  lemma ConnectTxEffect(view: View, tx: Tx, pos: DiskTxPos)
    requires pos != Unspent && ConnectTx(view, tx, pos).Some?
    ensures var after := ConnectTx(view, tx, pos).value;
            && after.Keys == view.Keys + {tx.hash} && after[tx.hash] == NewTxIndex(pos, |tx.vout|)
            && forall h :: h in view && h != tx.hash ==>
                 && after[h].pos == view[h].pos && |after[h].vSpent| == |view[h].vSpent|
                 && forall n :: 0 <= n < |after[h].vSpent| ==>
                      after[h].vSpent[n] == if !tx.IsCoinBase() && OutPoint(h, n) in Prevouts(tx) then pos
                        else view[h].vSpent[n]
    ensures !tx.IsCoinBase() ==> forall o :: o in Prevouts(tx) ==> Spendable(view, o)
    ensures !tx.IsCoinBase() ==> forall i, j :: 0 <= i < j < |Prevouts(tx)| ==> Prevouts(tx)[i] != Prevouts(tx)[j]
  {
    if !tx.IsCoinBase() {
      SpendAllMarks(view, Prevouts(tx), pos);
    }
  }

  lemma {:induction false} ConnectedKeys(view: View, block: Block, i: nat)
    requires i <= |block.vtx| && ConnectTxs(view, block, i).Some?
    ensures ConnectTxs(view, block, i).value.Keys == view.Keys + Txids(block, i)
    decreases i
  {
    if i > 0 {
      ConnectedKeys(view, block, i - 1);
      ConnectTxEffect(ConnectTxs(view, block, i - 1).value, block.vtx[i - 1], At(block, i - 1));
      assert Txids(block, i) == Txids(block, i - 1) + {block.vtx[i - 1].hash};
    } else {
      assert Txids(block, 0) == {};
    }
  }

  // ----- disconnecting, when it restores -----

  /** The two indexes have the same entries, and agree outside the given transactions. */
  ghost predicate AgreeOutside(v: View, w: View, own: set<nat>) {
    && (forall h :: h in v <==> h in w)
    && forall h :: h in v ==>
         && v[h].pos == w[h].pos && |v[h].vSpent| == |w[h].vSpent|
         && (h !in own ==> v[h] == w[h])
  }

  /** Taking back the transaction that was connected last. */
  lemma UndoTx(before: View, tx: Tx, pos: DiskTxPos, w: View, own: set<nat>)
    requires pos != Unspent && ConnectTx(before, tx, pos).Some? && tx.hash !in before
    requires AgreeOutside(ConnectTx(before, tx, pos).value, w, own)
    requires forall j :: Straddles(tx, j) && tx.vin[j].prevout.hash in before ==> tx.vin[j].prevout.hash in own
    ensures DisconnectTx(w, tx).Some? && AgreeOutside(before, DisconnectTx(w, tx).value, own)
  {
    var after := ConnectTx(before, tx, pos).value;
    ConnectTxEffect(before, tx, pos);
    if !tx.IsCoinBase() {
      forall o | o in Givebacks(tx) ensures InRange(w, o) {
        GivebacksAreSpent(tx, 0, o);
        assert Spendable(before, o);
      }
      GiveBackAllMarks(w, Givebacks(tx));
      var restored := DisconnectTx(w, tx).value;
      forall h | h in before && h !in own ensures before[h] == restored[h] {
        UndoEntry(before, tx, pos, w, own, h);
      }
    }
  }

  /** An entry outside the block's own transactions reads as before. */
  lemma UndoEntry(before: View, tx: Tx, pos: DiskTxPos, w: View, own: set<nat>, h: nat)
    requires pos != Unspent && ConnectTx(before, tx, pos).Some? && tx.hash !in before && !tx.IsCoinBase()
    requires AgreeOutside(ConnectTx(before, tx, pos).value, w, own)
    requires forall j :: Straddles(tx, j) && tx.vin[j].prevout.hash in before ==> tx.vin[j].prevout.hash in own
    requires GiveBackAll(w, Givebacks(tx)).Some? && Marked(w, GiveBackAll(w, Givebacks(tx)).value, Givebacks(tx),
                                                           Unspent)
    requires h in before && h !in own
    ensures h in GiveBackAll(w, Givebacks(tx)).value && before[h] == GiveBackAll(w, Givebacks(tx)).value[h]
  {
    ConnectTxEffect(before, tx, pos);
    var after, given := ConnectTx(before, tx, pos).value, GiveBackAll(w, Givebacks(tx)).value;
    assert h in after && after[h] == w[h];
    forall n | 0 <= n < |given[h].vSpent| ensures given[h].vSpent[n] == before[h].vSpent[n] {
      var o := OutPoint(h, n);
      SpentIsGivenBack(tx, o);
      if o in Prevouts(tx) {
        assert Spendable(before, o);
      }
    }
  }

  lemma StepIsUndoable(view: View, block: Block, i: nat)
    requires 0 < i <= |block.vtx| && DistinctTxids(block) && Undoable(view, block) &&
             ConnectTxs(view, block, i - 1).Some?
    ensures var before, tx := ConnectTxs(view, block, i - 1).value, block.vtx[i - 1];
            && tx.hash !in before
            && forall j :: Straddles(tx, j) && tx.vin[j].prevout.hash in before ==>
                 tx.vin[j].prevout.hash in Txids(block, |block.vtx|)
  {
    ConnectedKeys(view, block, i - 1);
  }

  lemma {:induction false} UndoTxs(view: View, block: Block, i: nat, w: View)
    requires i <= |block.vtx| && DistinctTxids(block) && Undoable(view, block)
    requires ConnectTxs(view, block, i).Some? && AgreeOutside(ConnectTxs(view, block, i).value, w,
                                                              Txids(block, |block.vtx|))
    ensures DisconnectTxs(w, block, i).Some?
    ensures AgreeOutside(view, DisconnectTxs(w, block, i).value, Txids(block, |block.vtx|))
    decreases i
  {
    if i > 0 {
      var own, tx := Txids(block, |block.vtx|), block.vtx[i - 1];
      var before := ConnectTxs(view, block, i - 1).value;
      StepIsUndoable(view, block, i);
      hide ConnectTx, DisconnectTx, AgreeOutside, Undoable, DistinctTxids;
      UndoTx(before, tx, At(block, i - 1), w, own);
      UndoTxs(view, block, i - 1, DisconnectTx(w, tx).value);
    }
  }

  lemma UndoableRestores(view: View, block: Block)
    requires DistinctTxids(block) && Undoable(view, block) && ConnectTxs(view, block, |block.vtx|).Some?
    ensures DisconnectTxs(ConnectTxs(view, block, |block.vtx|).value, block, |block.vtx|) == Some(view)
  {
    var after := ConnectTxs(view, block, |block.vtx|).value;
    UndoTxs(view, block, |block.vtx|, after);
    var restored := DisconnectTxs(after, block, |block.vtx|).value;
    assert restored == view;
  }

  // ----- disconnecting, when it does not restore -----

  lemma {:induction false} GiveBackAllKeeps(view: View, outs: seq<OutPoint>, o: OutPoint)
    requires GiveBackAll(view, outs).Some?
    ensures GiveBackAll(view, outs).value.Keys == view.Keys
    ensures InRange(view, o) && o !in outs ==>
              InRange(GiveBackAll(view, outs).value, o) &&
              GiveBackAll(view, outs).value[o.hash].vSpent[o.n] == view[o.hash].vSpent[o.n]
    decreases |outs|
  {
    if outs != [] {
      if outs[0].hash in view {
        GiveBackAllKeeps(Mark(view, outs[0], Unspent), outs[1..], o);
      } else {
        GiveBackAllKeeps(view, outs[1..], o);
      }
    }
  }

  /** None of the block's transactions is in the index after the block is disconnected. */
  lemma {:induction false} DisconnectErases(w: View, block: Block, i: nat, k: nat)
    requires i <= |block.vtx| && DisconnectTxs(w, block, i).Some?
    ensures DisconnectTxs(w, block, i).value.Keys <= w.Keys
    ensures k < i ==> block.vtx[k].hash !in DisconnectTxs(w, block, i).value
    decreases i
  {
    if i > 0 {
      var tx := block.vtx[i - 1];
      if !tx.IsCoinBase() {
        GiveBackAllKeeps(w, Givebacks(tx), OutPoint(0, 0));
      }
      DisconnectErases(DisconnectTx(w, tx).value, block, i - 1, k);
    }
  }

  /** Disconnecting leaves alone an output of another transaction that it does not give back. */
  lemma {:induction false} DisconnectKeeps(w: View, block: Block, i: nat, o: OutPoint)
    requires i <= |block.vtx| && DisconnectTxs(w, block, i).Some? && InRange(w, o)
    requires forall k :: 0 <= k < i ==> block.vtx[k].hash != o.hash
    requires forall k :: 0 <= k < i && !block.vtx[k].IsCoinBase() ==> o !in Givebacks(block.vtx[k])
    ensures InRange(DisconnectTxs(w, block, i).value, o)
    ensures DisconnectTxs(w, block, i).value[o.hash].vSpent[o.n] == w[o.hash].vSpent[o.n]
    decreases i
  {
    if i > 0 {
      var tx := block.vtx[i - 1];
      if !tx.IsCoinBase() {
        GiveBackAllKeeps(w, Givebacks(tx), o);
      }
      DisconnectKeeps(DisconnectTx(w, tx).value, block, i - 1, o);
    }
  }

  /** An output of another transaction that the block's transaction k spends was unspent
      before the block, no other transaction of the block spends it, and it stays spent. */
  lemma {:induction false} SpentOnce(view: View, block: Block, i: nat, k: nat, o: OutPoint)
    requires k < i <= |block.vtx| && ConnectTxs(view, block, i).Some? && !block.vtx[k].IsCoinBase()
    requires o in Prevouts(block.vtx[k]) && forall m :: 0 <= m < |block.vtx| ==> block.vtx[m].hash != o.hash
    ensures InRange(ConnectTxs(view, block, i).value, o) && ConnectTxs(view, block, i).value[o.hash].vSpent[o.n] ==
            At(block, k)
    ensures forall m :: 0 <= m < i && m != k && !block.vtx[m].IsCoinBase() ==> o !in Prevouts(block.vtx[m])
    ensures Spendable(view, o)
    decreases i
  {
    hide ConnectTx, Prevouts, Tx.IsCoinBase;
    var before := ConnectTxs(view, block, i - 1).value;
    ConnectTxEffect(before, block.vtx[i - 1], At(block, i - 1));
    if k == i - 1 {
      UnspentBefore(view, block, k, o);
    } else {
      SpentOnce(view, block, i - 1, k, o);
    }
  }

  lemma {:induction false} UnspentBefore(view: View, block: Block, i: nat, o: OutPoint)
    requires i <= |block.vtx| && ConnectTxs(view, block, i).Some? && Spendable(ConnectTxs(view, block, i).value, o)
    requires forall m :: 0 <= m < |block.vtx| ==> block.vtx[m].hash != o.hash
    ensures Spendable(view, o) && forall m :: 0 <= m < i && !block.vtx[m].IsCoinBase() ==> o !in Prevouts(block.vtx[m])
    decreases i
  {
    if i > 0 {
      ConnectTxEffect(ConnectTxs(view, block, i - 1).value, block.vtx[i - 1], At(block, i - 1));
      UnspentBefore(view, block, i - 1, o);
    }
  }

  /** A straddling input's output is given back by no transaction of the block. */
  lemma StraddlerStaysSpent(view: View, block: Block, k: nat, j: nat)
    requires ConnectTxs(view, block, |block.vtx|).Some? && AllNew(view, block)
    requires k < |block.vtx| && Straddles(block.vtx[k], j) && block.vtx[k].vin[j].prevout.hash in view
    requires DisconnectTxs(ConnectTxs(view, block, |block.vtx|).value, block, |block.vtx|).Some?
    ensures DisconnectTxs(ConnectTxs(view, block, |block.vtx|).value, block, |block.vtx|).value != view
  {
    var n, tx, o := |block.vtx|, block.vtx[k], block.vtx[k].vin[j].prevout;
    OrdinarySpendsAll(tx, 0);
    assert Prevouts(tx)[j] == o;
    SpentOnce(view, block, n, k, o);
    forall m | 0 <= m < n && !block.vtx[m].IsCoinBase() ensures o !in Givebacks(block.vtx[m]) {
      GivebacksAreSpent(block.vtx[m], 0, o);
      if m == k && o in Givebacks(tx) {
        var j' :| 0 <= j' < |tx.vin| && !tx.vin[j'].isAnon && tx.vin[j'].prevout == o;
        SpentTwiceFails(view, block, k, j, j');
      }
    }
    DisconnectKeeps(ConnectTxs(view, block, n).value, block, n, o);
  }

  lemma {:induction false} ConnectsPrefix(view: View, block: Block, i: nat, k: nat)
    requires k <= i <= |block.vtx| && ConnectTxs(view, block, i).Some?
    ensures ConnectTxs(view, block, k).Some?
    decreases i
  {
    if k < i {
      ConnectsPrefix(view, block, i - 1, k);
    }
  }

  lemma SpentTwiceFails(view: View, block: Block, k: nat, j: nat, j': nat)
    requires k < |block.vtx| && ConnectTxs(view, block, |block.vtx|).Some?
    requires var tx := block.vtx[k];
             !tx.IsCoinBase() && !tx.isAnonVersion && j < |tx.vin| && j' < |tx.vin| &&
               tx.vin[j].prevout == tx.vin[j'].prevout
    ensures j == j'
  {
    var tx := block.vtx[k];
    OrdinarySpendsAll(tx, 0);
    ConnectsPrefix(view, block, |block.vtx|, k + 1);
    ConnectTxEffect(ConnectTxs(view, block, k).value, tx, At(block, k));
    assert Prevouts(tx)[j] == Prevouts(tx)[j'];
  }

  /** Disconnecting a block that has just been connected restores the index exactly when the
      block is undoable: no transaction of it was in the index, and no input of anonymous
      shape in an ordinary transaction spends an output from before the block. */
  lemma DisconnectRestoresExactlyWhenUndoable(view: View, block: Block)
    requires DistinctTxids(block) && ConnectTxs(view, block, |block.vtx|).Some?
    ensures DisconnectTxs(ConnectTxs(view, block, |block.vtx|).value, block, |block.vtx|) == Some(view) <==>
            Undoable(view, block)
  {
    var n := |block.vtx|;
    var after := ConnectTxs(view, block, n).value;
    if Undoable(view, block) {
      UndoableRestores(view, block);
    } else if DisconnectTxs(after, block, n) == Some(view) {
      if !AllNew(view, block) {
        var i :| 0 <= i < n && block.vtx[i].hash in view;
        DisconnectErases(after, block, n, i);
      } else {
        var k, j :| 0 <= k < n && Straddles(block.vtx[k], j) && block.vtx[k].vin[j].prevout.hash in view;
        StraddlerStaysSpent(view, block, k, j);
      }
    }
  }
}
