/** A block made from a template: what the scheduler picks, put after a coinbase, is a block that
    ConnectBlock accepts.  For proof of stake a coinstake comes second, and the transactions from after its
    time are dropped again. */
module Template {
  import opened Basics
  import opened ConnectBlocks
  import opened Miner
  import opened MinerPool
  import opened Supply
  import opened TxIndexing
  import opened UndoBlock

  // ----- the kept transactions -----

  /** The listed transactions that are kept, in order. */
  function Kept(n: Node, txs: seq<nat>, keep: nat -> bool): seq<Tx> {
    if txs == [] then []
    else
      var h := txs[|txs| - 1];
      Kept(n, txs[..|txs| - 1], keep) + if h in n.mempool && keep(h) then [n.mempool[h]] else []
  }

  /** Whatever may be spent by a kept transaction is kept: transactions do not spend from the future. */
  ghost predicate KeepsOlder(n: Node, keep: nat -> bool) {
    forall h, p :: h in n.mempool && p in n.mempool && keep(h) && n.mempool[p].nTime <= n.mempool[h].nTime ==> keep(p)
  }

  lemma {:induction false} KeptStep(n: Node, txs: seq<nat>, keep: nat -> bool, i: nat)
    requires i < |txs|
    ensures Kept(n, txs[..i + 1], keep) ==
            Kept(n, txs[..i], keep) + if txs[i] in n.mempool && keep(txs[i]) then [n.mempool[txs[i]]] else []
  {
    assert txs[..i + 1][..i] == txs[..i];
  }

  lemma {:induction false} KeptPrefix(n: Node, txs: seq<nat>, keep: nat -> bool, i: nat)
    requires i <= |txs|
    ensures Kept(n, txs[..i], keep) <= Kept(n, txs, keep)
    decreases |txs| - i
  {
    if i < |txs| {
      KeptStep(n, txs, keep, i);
      KeptPrefix(n, txs, keep, i + 1);
    } else {
      assert txs[..i] == txs;
    }
  }

  lemma {:induction false} KeptMembers(n: Node, txs: seq<nat>, keep: nat -> bool, x: Tx)
    ensures x in Kept(n, txs, keep) <==> exists h :: h in txs && h in n.mempool && keep(h) && n.mempool[h] == x
    decreases |txs|
  {
    if txs != [] {
      var before, h := txs[..|txs| - 1], txs[|txs| - 1];
      KeptMembers(n, before, keep, x);
      assert txs == before + [h];
    }
  }

  // ----- two views side by side -----

  /** Entries of the database and of kept transactions. */
  predicate Stays(n: Node, keep: nat -> bool, h: nat) {
    h in n.db || keep(h)
  }

  /** The block's view holds everything of the pool's view that stays, with the same transactions behind the
      entries, and with the same outputs unspent but for those that the head of the block spends. */
  ghost predicate Alike(n: Node, v: View, w: View, keep: nat -> bool, s: set<OutPoint>) {
    forall h :: h in v && Stays(n, keep, h) ==> EntryAlike(n, v, w, s, h)
  }

  ghost predicate EntryAlike(n: Node, v: View, w: View, s: set<OutPoint>, h: nat)
    requires h in v
  {
    && h in w && |w[h].vSpent| == |v[h].vSpent| && ReadTx(w[h].pos) == TxOf(n, h)
    && forall k :: 0 <= k < |v[h].vSpent| ==>
         (v[h].vSpent[k] == Unspent ==> OutPoint(h, k) in s || w[h].vSpent[k] == Unspent)
  }

  lemma AlikeSpendable(n: Node, v: View, w: View, keep: nat -> bool, s: set<OutPoint>, o: OutPoint)
    requires Alike(n, v, w, keep, s) && Spendable(v, o) && Stays(n, keep, o.hash) && o !in s
    ensures Spendable(w, o)
  {
    assert EntryAlike(n, v, w, s, o.hash);
    assert OutPoint(o.hash, o.n) == o;
  }

  lemma AlikeMark(n: Node, v: View, w: View, keep: nat -> bool, s: set<OutPoint>, o: OutPoint, pos: DiskTxPos)
    requires Alike(n, v, w, keep, s) && Spendable(v, o) && Spendable(w, o) && pos != Unspent
    ensures Alike(n, Mark(v, o, InMempool), Mark(w, o, pos), keep, s)
  {
    var v', w' := Mark(v, o, InMempool), Mark(w, o, pos);
    forall h | h in v' && Stays(n, keep, h) ensures EntryAlike(n, v', w', s, h) {
      assert EntryAlike(n, v, w, s, h);
    }
  }

  /** Every output in the list stays, and the head of the block does not spend it. */
  ghost predicate AllStay(n: Node, keep: nat -> bool, s: set<OutPoint>, ins: seq<OutPoint>) {
    forall o :: o in ins ==> Stays(n, keep, o.hash) && o !in s
  }

  lemma {:induction false} AlikeSpendAll(n: Node, v: View, w: View, keep: nat -> bool, s: set<OutPoint>,
                                         ins: seq<OutPoint>, pos: DiskTxPos)
    requires Alike(n, v, w, keep, s) && SpendAll(v, ins, InMempool).Some? && AllStay(n, keep, s, ins) && pos != Unspent
    ensures SpendAll(w, ins, pos).Some?
    ensures Alike(n, SpendAll(v, ins, InMempool).value, SpendAll(w, ins, pos).value, keep, s)
    decreases |ins|
  {
    if ins != [] {
      assert ins[0] in ins;
      AlikeSpendable(n, v, w, keep, s, ins[0]);
      AlikeMark(n, v, w, keep, s, ins[0], pos);
      forall o | o in ins[1..] ensures o in ins {
      }
      hide Alike, Spendable;
      AlikeSpendAll(n, Mark(v, ins[0], InMempool), Mark(w, ins[0], pos), keep, s, ins[1..], pos);
    }
  }

  lemma AlikeAdd(n: Node, v: View, w: View, keep: nat -> bool, s: set<OutPoint>, tx: Tx, pos: DiskTxPos)
    requires Alike(n, v, w, keep, s) && ReadTx(pos) == TxOf(n, tx.hash)
    ensures Alike(n, v[tx.hash := NewTxIndex(InMempool, |tx.vout|)], w[tx.hash := NewTxIndex(pos, |tx.vout|)], keep, s)
  {
    var v', w' := v[tx.hash := NewTxIndex(InMempool, |tx.vout|)], w[tx.hash := NewTxIndex(pos, |tx.vout|)];
    forall h | h in v' && Stays(n, keep, h) ensures EntryAlike(n, v', w', s, h) {
      if h != tx.hash {
        assert EntryAlike(n, v, w, s, h);
      }
    }
  }

  /** Both views after the same transaction. */
  lemma AlikeConnect(n: Node, v: View, w: View, keep: nat -> bool, s: set<OutPoint>, tx: Tx, pos: DiskTxPos)
    requires Alike(n, v, w, keep, s) && !tx.IsCoinBase() && SpendAll(v, Prevouts(tx), InMempool).Some?
    requires AllStay(n, keep, s, Prevouts(tx)) && ReadTx(pos) == Some(tx) == TxOf(n, tx.hash) && pos != Unspent
    ensures ConnectTx(w, tx, pos).Some? && ConnectTx(v, tx, InMempool).Some?
    ensures Alike(n, ConnectTx(v, tx, InMempool).value, ConnectTx(w, tx, pos).value, keep, s)
  {
    AlikeSpendAll(n, v, w, keep, s, Prevouts(tx), pos);
    var v1, w1 := SpendAll(v, Prevouts(tx), InMempool).value, SpendAll(w, Prevouts(tx), pos).value;
    hide SpendAll, Prevouts;
    AlikeAdd(n, v1, w1, keep, s, tx, pos);
  }

  /** A transaction that is dropped: only the pool's view goes on. */
  lemma AlikeDropped(n: Node, v: View, w: View, keep: nat -> bool, s: set<OutPoint>, tx: Tx)
    requires Alike(n, v, w, keep, s) && ConnectTx(v, tx, InMempool).Some? && !Stays(n, keep, tx.hash)
    ensures Alike(n, ConnectTx(v, tx, InMempool).value, w, keep, s)
  {
    ConnectTxEffect(v, tx, InMempool);
    var v' := ConnectTx(v, tx, InMempool).value;
    hide ConnectTx, Prevouts;
    forall h | h in v' && Stays(n, keep, h) ensures EntryAlike(n, v', w, s, h) {
      assert EntryAlike(n, v, w, s, h);
    }
  }

  // ----- acceptance carries over -----

  lemma {:induction false} AlikeValues(n: Node, v: View, w: View, keep: nat -> bool, s: set<OutPoint>, tx: Tx, i: nat)
    requires i <= |tx.vin| && Alike(n, v, w, keep, s) && PoolInputs(n, v, tx) && InputsStay(n, keep, tx)
    ensures PrevValues(w, PrevoutsFrom(tx, i)) == TotalInFrom(n, tx, i)
    decreases |tx.vin| - i
  {
    if i < |tx.vin| {
      AlikeValues(n, v, w, keep, s, tx, i + 1);
      if tx.SkipsInput(i) {
        assert PrevoutsFrom(tx, i) == PrevoutsFrom(tx, i + 1);
      } else {
        assert PoolInput(n, v, tx, i);
        assert EntryAlike(n, v, w, s, tx.vin[i].prevout.hash);
        assert PrevoutsFrom(tx, i) == [tx.vin[i].prevout] + PrevoutsFrom(tx, i + 1);
        assert PrevoutsFrom(tx, i)[1..] == PrevoutsFrom(tx, i + 1);
        hide Alike, PoolInputs, InputsStay, InputPasses, TxOf, ReadTx;
      }
    }
  }

  ghost predicate InputsStay(n: Node, keep: nat -> bool, tx: Tx) {
    forall i :: 0 <= i < |tx.vin| && !tx.SkipsInput(i) ==> Stays(n, keep, tx.vin[i].prevout.hash)
  }

  /** The inputs of a kept transaction stay, since nothing spends from the future. */
  lemma KeptInputsStay(n: Node, v: View, keep: nat -> bool, tx: Tx)
    requires PoolOk(n) && KeepsOlder(n, keep) && PoolInputs(n, v, tx)
    requires tx.hash in n.mempool && n.mempool[tx.hash] == tx && keep(tx.hash)
    ensures InputsStay(n, keep, tx)
  {
    forall i | 0 <= i < |tx.vin| && !tx.SkipsInput(i) ensures Stays(n, keep, tx.vin[i].prevout.hash) {
      assert PoolInput(n, v, tx, i);
    }
  }

  lemma {:induction false} PrevoutsStay(n: Node, keep: nat -> bool, tx: Tx, i: nat)
    requires i <= |tx.vin| && InputsStay(n, keep, tx)
    ensures forall o :: o in PrevoutsFrom(tx, i) ==> Stays(n, keep, o.hash)
    decreases |tx.vin| - i
  {
    if i < |tx.vin| {
      PrevoutsStay(n, keep, tx, i + 1);
    }
  }

  lemma AlikeInputs(n: Node, v: View, w: View, keep: nat -> bool, s: set<OutPoint>, tx: Tx)
    requires Alike(n, v, w, keep, s) && PoolInputs(n, v, tx) && InputsStay(n, keep, tx)
    ensures InputsAccepted(w, tx, n.o)
  {
    forall i | 0 <= i < |tx.vin| && !tx.SkipsInput(i)
      ensures Fetchable(w, map[], tx.vin[i].prevout)
      ensures var prev := ReadTx(w[tx.vin[i].prevout.hash].pos).value;
              InputPasses(prev, tx, i, n.o) && n.o.verifySignature(prev, tx, i)
    {
      assert PoolInput(n, v, tx, i);
      assert EntryAlike(n, v, w, s, tx.vin[i].prevout.hash);
    }
  }

  /** The head of the block spends nothing that the transaction spends. */
  ghost predicate Apart(s: set<OutPoint>, tx: Tx) {
    forall o :: o in Prevouts(tx) ==> o !in s
  }

  lemma AlikeAccepted(n: Node, v: View, w: View, keep: nat -> bool, s: set<OutPoint>, tx: Tx, pos: DiskTxPos)
    requires Alike(n, v, w, keep, s) && PoolAccepted(n, v, tx) && InputsStay(n, keep, tx) && Apart(s, tx)
    requires pos != Unspent
    ensures TxAccepted(w, tx, pos, n.o) && AllStay(n, keep, s, Prevouts(tx))
  {
    AlikeInputs(n, v, w, keep, s, tx);
    AlikeValues(n, v, w, keep, s, tx, 0);
    PrevoutsStay(n, keep, tx, 0);
    hide Alike, PoolInputs, InputsStay, PaysItsWay;
    AlikeSpendAll(n, v, w, keep, s, Prevouts(tx), pos);
  }

  // ----- the block -----

  /** The head of the block is accepted, is new to the node, and leaves the view that the kept
      transactions see as it was but for the outputs in s, which it spends. */
  ghost predicate HeadOk(n: Node, block: Block, head: seq<Tx>, keep: nat -> bool, s: set<OutPoint>) {
    && head != [] && head <= block.vtx && ConnectTxs(n.db, block, |head|).Some?
    && (forall j :: 0 <= j < |head| ==> StepAccepted(n.db, block, n.o, j))
    && (forall j :: 0 <= j < |head| ==> head[j].hash !in n.db && head[j].hash !in n.mempool)
    && Alike(n, n.db, ConnectTxs(n.db, block, |head|).value, keep, s)
  }

  /** The block is the head and then the kept ones of the listed transactions. */
  ghost predicate Holds(n: Node, block: Block, head: seq<Tx>, txs: seq<nat>, keep: nat -> bool) {
    block.vtx == head + Kept(n, txs, keep)
  }

  /** How far the block is when the first i listed transactions have been gone through. */
  function Reached(n: Node, head: seq<Tx>, txs: seq<nat>, keep: nat -> bool, i: nat): nat
    requires i <= |txs|
  {
    |head| + |Kept(n, txs[..i], keep)|
  }

  lemma ReachedFits(n: Node, block: Block, head: seq<Tx>, txs: seq<nat>, keep: nat -> bool, i: nat)
    requires Holds(n, block, head, txs, keep) && i <= |txs|
    ensures Reached(n, head, txs, keep, i) <= |block.vtx|
    ensures i == |txs| ==> Reached(n, head, txs, keep, i) == |block.vtx|
  {
    KeptPrefix(n, txs, keep, i);
    assert i == |txs| ==> txs[..i] == txs;
    hide Kept;
  }

  /** The next transaction, if it is kept. */
  lemma ReachedStep(n: Node, block: Block, head: seq<Tx>, txs: seq<nat>, keep: nat -> bool, i: nat)
    requires Holds(n, block, head, txs, keep) && i < |txs| && txs[i] in n.mempool
    ensures var m, m' := Reached(n, head, txs, keep, i), Reached(n, head, txs, keep, i + 1);
            if keep(txs[i]) then m' == m + 1 && m < |block.vtx| && block.vtx[m] == n.mempool[txs[i]] else m' == m
  {
    KeptStep(n, txs, keep, i);
    KeptPrefix(n, txs, keep, i + 1);
    hide Kept;
    if keep(txs[i]) {
      var k := Kept(n, txs[..i + 1], keep);
      assert block.vtx[|head| + (|k| - 1)] == Kept(n, txs, keep)[|k| - 1] == k[|k| - 1];
    }
  }

  /** After the first i listed transactions, the two runs are side by side. */
  ghost predicate Abreast(n: Node, block: Block, head: seq<Tx>, txs: seq<nat>, keep: nat -> bool, s: set<OutPoint>,
                          i: nat, v: View, w: View)
  {
    && i <= |txs| && PoolView(n, txs[..i]) == Some(v)
    && AcceptedTo(n, block, Reached(n, head, txs, keep, i), w) && Alike(n, v, w, keep, s)
  }

  /** Every kept transaction leaves alone what the head spends. */
  ghost predicate AllApart(n: Node, txs: seq<nat>, keep: nat -> bool, s: set<OutPoint>) {
    forall h :: h in txs && h in n.mempool && keep(h) ==> Apart(s, n.mempool[h])
  }

  /** A kept transaction, for both views. */
  lemma KeptBoth(n: Node, v: View, w: View, keep: nat -> bool, s: set<OutPoint>, tx: Tx, pos: DiskTxPos)
    requires PoolOk(n) && KeepsOlder(n, keep) && Alike(n, v, w, keep, s) && PoolAccepted(n, v, tx) && Apart(s, tx)
    requires tx.hash in n.mempool && n.mempool[tx.hash] == tx && keep(tx.hash) && !tx.IsCoinBase()
    requires pos != Unspent && ReadTx(pos) == Some(tx)
    ensures TxAccepted(w, tx, pos, n.o) && MayOverwrite(n.db, tx.hash)
    ensures ConnectTx(w, tx, pos).Some? && ConnectTx(v, tx, InMempool).Some?
    ensures Alike(n, ConnectTx(v, tx, InMempool).value, ConnectTx(w, tx, pos).value, keep, s)
  {
    KeptInputsStay(n, v, keep, tx);
    AlikeAccepted(n, v, w, keep, s, tx, pos);
    assert tx.hash !in n.db;
    hide Alike, SpendAll, PoolInputs, PaysItsWay, Prevouts, KeepsOlder, Apart, AllStay, InputsStay, TxAccepted, PoolOk;
    AlikeConnect(n, v, w, keep, s, tx, pos);
  }

  /** The next listed transaction is a pooled one that may follow. */
  lemma NextListed(n: Node, txs: seq<nat>, keep: nat -> bool, s: set<OutPoint>, i: nat)
    requires PoolOk(n) && i < |txs| && PoolChain(n, txs[..i + 1]) && AllApart(n, txs, keep, s)
    ensures PoolView(n, txs[..i]).Some? && txs[i] in n.mempool && n.mempool[txs[i]].hash == txs[i]
    ensures txs[i] !in n.db
    ensures var tx := n.mempool[txs[i]];
            && !tx.IsCoinBase() && PoolAccepted(n, PoolView(n, txs[..i]).value, tx)
            && PoolView(n, txs[..i + 1]) == ConnectTx(PoolView(n, txs[..i]).value, tx, InMempool)
            && (keep(txs[i]) ==> Apart(s, tx))
  {
    PoolStep(n, txs, i);
    hide PoolChain, PoolAccepted, ConnectTx, Apart;
    assert txs[i] in txs;
  }

  lemma AcceptedConnectTx(n: Node, v: View, tx: Tx)
    requires PoolAccepted(n, v, tx) && !tx.IsCoinBase()
    ensures ConnectTx(v, tx, InMempool).Some?
  {
  }

  /** The block's first m transactions are accepted one after the other, and lead to a view. */
  ghost predicate AcceptedTo(n: Node, block: Block, m: nat, w: View) {
    && m <= |block.vtx| && ConnectTxs(n.db, block, m) == Some(w)
    && forall j :: 0 <= j < m ==> StepAccepted(n.db, block, n.o, j)
  }

  lemma AcceptedNext(n: Node, block: Block, m: nat, w: View, w': View)
    requires AcceptedTo(n, block, m, w) && m < |block.vtx| && MayOverwrite(n.db, block.vtx[m].hash)
    requires TxAccepted(w, block.vtx[m], At(block, m), n.o) && ConnectTx(w, block.vtx[m], At(block, m)) == Some(w')
    ensures AcceptedTo(n, block, m + 1, w')
  {
    hide TxAccepted, MayOverwrite, ConnectTx;
  }

  /** The kept transaction is the block's next one. */
  lemma KeptOn(n: Node, block: Block, m: nat, v: View, w: View, keep: nat -> bool, s: set<OutPoint>, tx: Tx)
    returns (w': View)
    requires PoolOk(n) && KeepsOlder(n, keep) && Alike(n, v, w, keep, s) && PoolAccepted(n, v, tx) && Apart(s, tx)
    requires tx.hash in n.mempool && n.mempool[tx.hash] == tx && keep(tx.hash) && !tx.IsCoinBase()
    requires AcceptedTo(n, block, m, w) && m < |block.vtx| && block.vtx[m] == tx && ConnectTx(v, tx, InMempool).Some?
    ensures AcceptedTo(n, block, m + 1, w') && Alike(n, ConnectTx(v, tx, InMempool).value, w', keep, s)
  {
    assert ReadTx(At(block, m)) == Some(tx);
    hide *;
    KeptBoth(n, v, w, keep, s, tx, At(block, m));
    w' := ConnectTx(w, tx, At(block, m)).value;
    AcceptedNext(n, block, m, w, w');
  }

  /** One listed transaction more. */
  lemma SideBySide(n: Node, block: Block, head: seq<Tx>, txs: seq<nat>, keep: nat -> bool, s: set<OutPoint>, i: nat,
                   v: View, w: View)
    returns (v': View, w': View)
    requires PoolOk(n) && KeepsOlder(n, keep) && Holds(n, block, head, txs, keep) && i < |txs|
    requires PoolChain(n, txs[..i + 1]) && AllApart(n, txs, keep, s)
    requires Abreast(n, block, head, txs, keep, s, i, v, w)
    ensures Abreast(n, block, head, txs, keep, s, i + 1, v', w')
  {
    hide *;
    AbreastParts(n, block, head, txs, keep, s, i, v, w);
    NextListed(n, txs, keep, s, i);
    ReachedStep(n, block, head, txs, keep, i);
    AcceptedConnectTx(n, v, n.mempool[txs[i]]);
    v' := ConnectTx(v, n.mempool[txs[i]], InMempool).value;
    if keep(txs[i]) {
      w' := KeptOn(n, block, Reached(n, head, txs, keep, i), v, w, keep, s, n.mempool[txs[i]]);
    } else {
      NotStaying(n, keep, txs[i]);
      AlikeDropped(n, v, w, keep, s, n.mempool[txs[i]]);
      w' := w;
    }
    MakeAbreast(n, block, head, txs, keep, s, i + 1, v', w');
  }

  lemma AbreastParts(n: Node, block: Block, head: seq<Tx>, txs: seq<nat>, keep: nat -> bool, s: set<OutPoint>, i: nat,
                     v: View, w: View)
    requires Abreast(n, block, head, txs, keep, s, i, v, w)
    ensures i <= |txs| && PoolView(n, txs[..i]) == Some(v)
    ensures AcceptedTo(n, block, Reached(n, head, txs, keep, i), w) && Alike(n, v, w, keep, s)
  {
  }

  lemma MakeAbreast(n: Node, block: Block, head: seq<Tx>, txs: seq<nat>, keep: nat -> bool, s: set<OutPoint>, i: nat,
                    v: View, w: View)
    requires i <= |txs| && PoolView(n, txs[..i]) == Some(v)
    requires AcceptedTo(n, block, Reached(n, head, txs, keep, i), w) && Alike(n, v, w, keep, s)
    ensures Abreast(n, block, head, txs, keep, s, i, v, w)
  {
  }

  lemma NotStaying(n: Node, keep: nat -> bool, h: nat)
    requires h !in n.db && !keep(h)
    ensures !Stays(n, keep, h)
  {
  }

  /** The block connects transaction by transaction, as the pool did. */
  lemma {:induction false} TemplateConnects(n: Node, block: Block, head: seq<Tx>, txs: seq<nat>, keep: nat -> bool,
                                            s: set<OutPoint>, i: nat)
    returns (v: View, w: View)
    requires PoolOk(n) && KeepsOlder(n, keep) && Holds(n, block, head, txs, keep) && HeadOk(n, block, head, keep, s)
    requires PoolChain(n, txs) && AllApart(n, txs, keep, s) && i <= |txs|
    ensures Abreast(n, block, head, txs, keep, s, i, v, w)
    decreases i
  {
    hide *;
    v, w := TemplateStarts(n, block, head, txs, keep, s);
    if i > 0 {
      PrefixChain(n, txs, i);
      v, w := TemplateConnects(n, block, head, txs, keep, s, i - 1);
      v, w := SideBySide(n, block, head, txs, keep, s, i - 1, v, w);
    }
  }

  lemma TemplateStarts(n: Node, block: Block, head: seq<Tx>, txs: seq<nat>, keep: nat -> bool, s: set<OutPoint>)
    returns (v: View, w: View)
    requires HeadOk(n, block, head, keep, s)
    ensures Abreast(n, block, head, txs, keep, s, 0, v, w)
  {
    assert txs[..0] == [];
    v, w := n.db, ConnectTxs(n.db, block, |head|).value;
    hide Alike, StepAccepted, ConnectTxs;
  }

  // ----- its sums -----

  /** The fees of the kept transactions. */
  function KeptFees(n: Node, txs: seq<nat>, keep: nat -> bool): int {
    if txs == [] then 0
    else
      var h := txs[|txs| - 1];
      KeptFees(n, txs[..|txs| - 1], keep) + if h in n.mempool && keep(h) then FeeOf(n, n.mempool[h]) else 0
  }

  lemma {:induction false} SumStep(n: Node, txs: seq<nat>, keep: nat -> bool, i: nat)
    requires i < |txs| && txs[i] in n.mempool
    ensures SumSigOps(n, txs[..i + 1]) == SumSigOps(n, txs[..i]) + TxSigOps(n.mempool[txs[i]], n.o)
    ensures KeptFees(n, txs[..i + 1], keep) ==
            KeptFees(n, txs[..i], keep) + if keep(txs[i]) then FeeOf(n, n.mempool[txs[i]]) else 0
  {
    assert txs[..i + 1][..i] == txs[..i];
    hide FeeOf, TxSigOps;
  }

  lemma {:induction false} TemplateSigOps(n: Node, block: Block, head: seq<Tx>, txs: seq<nat>, keep: nat -> bool,
                                          i: nat)
    requires Holds(n, block, head, txs, keep) && PoolChain(n, txs) && i <= |txs|
    ensures |head| <= |block.vtx| && Reached(n, head, txs, keep, i) <= |block.vtx|
    ensures BlockSigOps(block, n.o, Reached(n, head, txs, keep, i)) <=
            BlockSigOps(block, n.o, |head|) + SumSigOps(n, txs[..i])
    decreases i
  {
    hide *;
    ReachedFits(n, block, head, txs, keep, i);
    HeadFits(n, block, head, txs, keep);
    if i == 0 {
      NoSigOpsYet(n, head, txs, keep);
    } else {
      ListedKind(n, txs, i - 1);
      TemplateSigOps(n, block, head, txs, keep, i - 1);
      ReachedStep(n, block, head, txs, keep, i - 1);
      SumStep(n, txs, keep, i - 1);
      if keep(txs[i - 1]) {
        SigOpsNext(block, n.o, Reached(n, head, txs, keep, i - 1));
      }
    }
  }

  lemma HeadFits(n: Node, block: Block, head: seq<Tx>, txs: seq<nat>, keep: nat -> bool)
    requires Holds(n, block, head, txs, keep)
    ensures |head| <= |block.vtx|
  {
  }

  lemma NoSigOpsYet(n: Node, head: seq<Tx>, txs: seq<nat>, keep: nat -> bool)
    ensures Reached(n, head, txs, keep, 0) == |head| && SumSigOps(n, txs[..0]) == 0
  {
    assert txs[..0] == [];
  }

  lemma SigOpsNext(block: Block, o: Oracle, m: nat)
    requires m < |block.vtx|
    ensures BlockSigOps(block, o, m + 1) == BlockSigOps(block, o, m) + TxSigOps(block.vtx[m], o)
  {
    hide TxSigOps;
  }

  /** The fees and the stake reward after a kept transaction. */
  lemma FeesNext(n: Node, block: Block, m: nat, v: View, w: View, keep: nat -> bool, s: set<OutPoint>, tx: Tx)
    requires AcceptedTo(n, block, m, w) && m < |block.vtx| && block.vtx[m] == tx
    requires Alike(n, v, w, keep, s) && PoolInputs(n, v, tx) && InputsStay(n, keep, tx)
    requires !tx.IsCoinBase() && !tx.IsCoinStake()
    ensures var t, t' := BlockTotals(n.db, block, n.o, m), BlockTotals(n.db, block, n.o, m + 1);
            t'.nFees == t.nFees + FeeOf(n, tx) && t'.nStakeReward == t.nStakeReward
  {
    AlikeValues(n, v, w, keep, s, tx, 0);
    hide Alike, PoolInputs, InputsStay, ConnectTxs, StepAccepted, ValueOut, PrevValues, TotalInFrom, PrevoutsFrom,
      AnonIn,
      AnonOut;
  }

  lemma AcceptedInputs(n: Node, v: View, tx: Tx)
    requires PoolAccepted(n, v, tx)
    ensures PoolInputs(n, v, tx)
  {
  }

  lemma ListedKind(n: Node, txs: seq<nat>, i: nat)
    requires PoolChain(n, txs) && i < |txs|
    ensures txs[i] in n.mempool && !n.mempool[txs[i]].IsCoinBase() && !n.mempool[txs[i]].IsCoinStake()
  {
    ChainPooled(n, txs);
  }

  /** After the first i listed transactions, the block has collected the fees of the kept ones, and its stake
      reward is the head's. */
  ghost predicate FeesAre(n: Node, block: Block, head: seq<Tx>, txs: seq<nat>, keep: nat -> bool, i: nat)
    requires i <= |txs| && |head| <= |block.vtx| && Reached(n, head, txs, keep, i) <= |block.vtx|
  {
    var t, t' := BlockTotals(n.db, block, n.o, |head|),
                 BlockTotals(n.db, block, n.o, Reached(n, head, txs, keep, i));
    t'.nFees == t.nFees + KeptFees(n, txs[..i], keep) && t'.nStakeReward == t.nStakeReward
  }

  lemma FeesKept(n: Node, block: Block, head: seq<Tx>, txs: seq<nat>, keep: nat -> bool, s: set<OutPoint>, i: nat,
                 v: View, w: View)
    requires PoolOk(n) && KeepsOlder(n, keep) && Holds(n, block, head, txs, keep) && i < |txs|
    requires PoolChain(n, txs) && AllApart(n, txs, keep, s) && Abreast(n, block, head, txs, keep, s, i, v, w)
    requires txs[i] in n.mempool && keep(txs[i]) && |head| <= |block.vtx|
    requires Reached(n, head, txs, keep, i) <= |block.vtx| && FeesAre(n, block, head, txs, keep, i)
    ensures Reached(n, head, txs, keep, i + 1) <= |block.vtx| && FeesAre(n, block, head, txs, keep, i + 1)
  {
    hide *;
    ReachedStep(n, block, head, txs, keep, i);
    NextFees(n, block, head, txs, keep, s, i, v, w);
    SumStep(n, txs, keep, i);
    FeesAreIs(n, block, head, txs, keep, i);
    FeesAreMade(n, block, head, txs, keep, i + 1);
  }

  /** The fees that the next kept transaction brings. */
  lemma NextFees(n: Node, block: Block, head: seq<Tx>, txs: seq<nat>, keep: nat -> bool, s: set<OutPoint>, i: nat,
                 v: View, w: View)
    requires PoolOk(n) && KeepsOlder(n, keep) && i < |txs| && PoolChain(n, txs) && AllApart(n, txs, keep, s)
    requires Abreast(n, block, head, txs, keep, s, i, v, w) && txs[i] in n.mempool && keep(txs[i])
    requires var m := Reached(n, head, txs, keep, i); m < |block.vtx| && block.vtx[m] == n.mempool[txs[i]]
    ensures var m := Reached(n, head, txs, keep, i);
            var t, t' := BlockTotals(n.db, block, n.o, m), BlockTotals(n.db, block, n.o, m + 1);
            t'.nFees == t.nFees + FeeOf(n, n.mempool[txs[i]]) && t'.nStakeReward == t.nStakeReward
  {
    var tx, m := n.mempool[txs[i]], Reached(n, head, txs, keep, i);
    PrefixChain(n, txs, i + 1);
    AbreastParts(n, block, head, txs, keep, s, i, v, w);
    NextListed(n, txs, keep, s, i);
    ListedKind(n, txs, i);
    AcceptedInputs(n, v, tx);
    hide *;
    KeptInputsStay(n, v, keep, tx);
    FeesNext(n, block, m, v, w, keep, s, tx);
  }

  lemma FeesAreMade(n: Node, block: Block, head: seq<Tx>, txs: seq<nat>, keep: nat -> bool, i: nat)
    requires i <= |txs| && |head| <= |block.vtx| && Reached(n, head, txs, keep, i) <= |block.vtx|
    requires var t, t' := BlockTotals(n.db, block, n.o, |head|),
                          BlockTotals(n.db, block, n.o, Reached(n, head, txs, keep, i));
             t'.nFees == t.nFees + KeptFees(n, txs[..i], keep) && t'.nStakeReward == t.nStakeReward
    ensures FeesAre(n, block, head, txs, keep, i)
  {
  }

  lemma NoFeesYet(n: Node, block: Block, head: seq<Tx>, txs: seq<nat>, keep: nat -> bool)
    requires |head| <= |block.vtx|
    ensures Reached(n, head, txs, keep, 0) == |head| && FeesAre(n, block, head, txs, keep, 0)
  {
    assert txs[..0] == [];
    hide BlockTotals;
  }

  lemma FeesDropped(n: Node, block: Block, head: seq<Tx>, txs: seq<nat>, keep: nat -> bool, i: nat)
    requires Holds(n, block, head, txs, keep) && i < |txs| && txs[i] in n.mempool && !keep(txs[i])
    requires |head| <= |block.vtx|
    requires Reached(n, head, txs, keep, i) <= |block.vtx| && FeesAre(n, block, head, txs, keep, i)
    ensures Reached(n, head, txs, keep, i + 1) <= |block.vtx| && FeesAre(n, block, head, txs, keep, i + 1)
  {
    ReachedStep(n, block, head, txs, keep, i);
    SumStep(n, txs, keep, i);
    hide Holds, BlockTotals, KeptFees, Reached;
  }

  lemma {:induction false} TemplateFees(n: Node, block: Block, head: seq<Tx>, txs: seq<nat>, keep: nat -> bool,
                                        s: set<OutPoint>, i: nat)
    requires PoolOk(n) && KeepsOlder(n, keep) && Holds(n, block, head, txs, keep) && HeadOk(n, block, head, keep, s)
    requires PoolChain(n, txs) && AllApart(n, txs, keep, s) && i <= |txs|
    ensures |head| <= |block.vtx| && Reached(n, head, txs, keep, i) <= |block.vtx|
    ensures FeesAre(n, block, head, txs, keep, i)
    decreases i
  {
    assert |head| <= |block.vtx|;
    hide *;
    NoFeesYet(n, block, head, txs, keep);
    if i > 0 {
      TemplateFees(n, block, head, txs, keep, s, i - 1);
      var v, w := TemplateConnects(n, block, head, txs, keep, s, i - 1);
      ListedKind(n, txs, i - 1);
      if keep(txs[i - 1]) {
        FeesKept(n, block, head, txs, keep, s, i - 1, v, w);
      } else {
        FeesDropped(n, block, head, txs, keep, i - 1);
      }
    }
  }

  // ----- its checks -----

  /** The kept transactions are ordinary ones, and do not repeat. */
  lemma KeptKind(n: Node, txs: seq<nat>, keep: nat -> bool, j: nat)
    requires PoolOk(n) && PoolChain(n, txs) && j < |Kept(n, txs, keep)|
    ensures var tx := Kept(n, txs, keep)[j];
            !tx.IsCoinBase() && !tx.IsCoinStake() && tx.hash in n.mempool && n.mempool[tx.hash] == tx && tx.hash in txs
  {
    var tx := Kept(n, txs, keep)[j];
    KeptMembers(n, txs, keep, tx);
    var h :| h in txs && h in n.mempool && keep(h) && n.mempool[h] == tx;
    var i :| 0 <= i < |txs| && txs[i] == h;
    ListedKind(n, txs, i);
    hide Kept, PoolChain;
  }

  lemma {:induction false} KeptDistinct(n: Node, txs: seq<nat>, keep: nat -> bool)
    requires PoolOk(n) && PoolChain(n, txs)
    ensures var k := Kept(n, txs, keep); forall i, j :: 0 <= i < j < |k| ==> k[i].hash != k[j].hash
    decreases |txs|
  {
    if txs != [] {
      var m := |txs| - 1;
      var before, k := txs[..m], Kept(n, txs[..m], keep);
      PrefixChain(n, txs, m);
      ChainPooled(n, txs);
      KeptDistinct(n, before, keep);
      forall i | 0 <= i < |k| ensures k[i].hash != txs[m] {
        KeptKind(n, before, keep, i);
        var x :| 0 <= x < m && before[x] == k[i].hash;
        assert txs[x] == before[x];
      }
      hide PoolChain;
    }
  }

  /** The block's transactions are all different, and only those of the head are special. */
  lemma TemplateDistinct(n: Node, block: Block, head: seq<Tx>, txs: seq<nat>, keep: nat -> bool)
    requires PoolOk(n) && PoolChain(n, txs) && Holds(n, block, head, txs, keep)
    requires forall i, j :: 0 <= i < j < |head| ==> head[i].hash != head[j].hash
    requires forall i :: 0 <= i < |head| ==> head[i].hash !in n.mempool
    ensures forall i, j :: 0 <= i < j < |block.vtx| ==> block.vtx[i].hash != block.vtx[j].hash
    ensures forall i :: |head| <= i < |block.vtx| ==> !block.vtx[i].IsCoinBase() && !block.vtx[i].IsCoinStake()
  {
    KeptDistinct(n, txs, keep);
    var k := Kept(n, txs, keep);
    forall i | |head| <= i < |block.vtx|
      ensures block.vtx[i] == k[i - |head|] && block.vtx[i].hash in n.mempool
      ensures !block.vtx[i].IsCoinBase() && !block.vtx[i].IsCoinStake()
    {
      KeptKind(n, txs, keep, i - |head|);
    }
    hide Kept, PoolChain, Tx.IsCoinBase, Tx.IsCoinStake, PoolOk, Holds;
    forall i, j | 0 <= i < j < |block.vtx| ensures block.vtx[i].hash != block.vtx[j].hash {
      assert i < |head| ==> block.vtx[i] == head[i];
      assert j < |head| ==> block.vtx[j] == head[j];
    }
  }

  /** Everything but the reward: the block is accepted transaction by transaction, and its totals
      are known. */
  lemma TemplateSteps(n: Node, p: Policy, block: Block, head: seq<Tx>, txs: seq<nat>, keep: nat -> bool,
                      s: set<OutPoint>, nBlockSize: nat, nBlockSigOps: nat, nFees: int)
    requires PoolOk(n) && KeepsOlder(n, keep) && Holds(n, block, head, txs, keep) && HeadOk(n, block, head, keep, s)
    requires PoolChain(n, txs) && AllApart(n, txs, keep, s) && Totalled(n, p, txs, nBlockSize, nBlockSigOps, nFees)
    requires |head| <= |block.vtx| && BlockSigOps(block, n.o, |head|) <= 100
    ensures AllAccepted(n.db, block, n.o)
    ensures var t, t' := BlockTotals(n.db, block, n.o, |head|), BlockTotals(n.db, block, n.o, |block.vtx|);
            t'.nFees == t.nFees + KeptFees(n, txs, keep) && t'.nStakeReward == t.nStakeReward
  {
    var i := |txs|;
    assert txs[..i] == txs;
    hide *;
    var v, w := TemplateConnects(n, block, head, txs, keep, s, i);
    AbreastParts(n, block, head, txs, keep, s, i, v, w);
    ReachedFits(n, block, head, txs, keep, i);
    TemplateSigOps(n, block, head, txs, keep, i);
    TemplateFees(n, block, head, txs, keep, s, i);
    SigOpsInBound(n, p, txs, nBlockSize, nBlockSigOps, nFees);
    AcceptedAll(n, block, w);
    FeesAreIs(n, block, head, txs, keep, i);
  }

  lemma FeesAreIs(n: Node, block: Block, head: seq<Tx>, txs: seq<nat>, keep: nat -> bool, i: nat)
    requires i <= |txs| && |head| <= |block.vtx| && Reached(n, head, txs, keep, i) <= |block.vtx|
    requires FeesAre(n, block, head, txs, keep, i)
    ensures var t, t' := BlockTotals(n.db, block, n.o, |head|),
                         BlockTotals(n.db, block, n.o, Reached(n, head, txs, keep, i));
            t'.nFees == t.nFees + KeptFees(n, txs[..i], keep) && t'.nStakeReward == t.nStakeReward
  {
  }

  lemma AcceptedAll(n: Node, block: Block, w: View)
    requires AcceptedTo(n, block, |block.vtx|, w) && BlockSigOps(block, n.o, |block.vtx|) <= MAX_BLOCK_SIGOPS
    ensures AllAccepted(n.db, block, n.o)
  {
    hide StepAccepted;
  }

  lemma SigOpsInBound(n: Node, p: Policy, txs: seq<nat>, nBlockSize: nat, nBlockSigOps: nat, nFees: int)
    requires Totalled(n, p, txs, nBlockSize, nBlockSigOps, nFees)
    ensures 100 + SumSigOps(n, txs) <= MAX_BLOCK_SIGOPS && nFees == SumFees(n, txs)
  {
  }

  // ----- proof of work: a coinbase, and everything is kept -----

  const EVERY: nat -> bool := _ => true

  /** A coinbase that is new to the node, first in a block. */
  ghost predicate FreshCoinBase(n: Node, block: Block, coinbase: Tx) {
    && |block.vtx| > 0 && block.vtx[0] == coinbase && coinbase.IsCoinBase()
    && coinbase.hash !in n.db && coinbase.hash !in n.mempool
  }

  /** The coinbase, new to the database, changes nothing that pooled transactions can see. */
  lemma CoinBaseFirst(n: Node, block: Block, coinbase: Tx, keep: nat -> bool)
    requires FreshCoinBase(n, block, coinbase)
    ensures ConnectTxs(n.db, block, 1) == Some(n.db[coinbase.hash := NewTxIndex(At(block, 0), |coinbase.vout|)])
    ensures StepAccepted(n.db, block, n.o, 0) && BlockSigOps(block, n.o, 1) == TxSigOps(coinbase, n.o)
    ensures var t := BlockTotals(n.db, block, n.o, 1); t.nFees == 0 && t.nStakeReward == 0
    ensures Alike(n, n.db, ConnectTxs(n.db, block, 1).value, keep, {})
  {
    assert ConnectTxs(n.db, block, 0) == Some(n.db);
    assert BlockTotals(n.db, block, n.o, 0) == NO_TOTALS && BlockSigOps(block, n.o, 0) == 0;
    var w := ConnectTxs(n.db, block, 1).value;
    forall h | h in n.db ensures EntryAlike(n, n.db, w, {}, h) {
    }
    hide ValueOut;
  }

  lemma CoinBaseHead(n: Node, block: Block, coinbase: Tx, keep: nat -> bool)
    requires FreshCoinBase(n, block, coinbase)
    ensures HeadOk(n, block, [coinbase], keep, {})
  {
    CoinBaseFirst(n, block, coinbase, keep);
    hide Alike, ConnectTxs, StepAccepted;
  }

  lemma {:induction false} EveryFee(n: Node, txs: seq<nat>)
    ensures KeptFees(n, txs, EVERY) == SumFees(n, txs)
    decreases |txs|
  {
    if txs != [] {
      EveryFee(n, txs[..|txs| - 1]);
      hide FeeOf;
    }
  }

  /** The proof-of-work block built from a template is acceptable: given a coinbase that is new, pays the
      reward for exactly the collected fees and has no more signature operations than are set
      aside for it, and a header that passes, ConnectBlock takes it. */
  lemma TemplateIsAcceptable(n: Node, p: Policy, block: Block, coinbase: Tx, txs: seq<nat>, nBlockSize: nat,
                             nBlockSigOps: nat, nFees: int)
    requires PoolOk(n) && PoolChain(n, txs) && Totalled(n, p, txs, nBlockSize, nBlockSigOps, nFees)
    requires block.vtx == [coinbase] + Kept(n, txs, EVERY) && FreshCoinBase(n, block, coinbase)
    requires n.o.blockChecks(block) && TxSigOps(coinbase, n.o) <= 100
    requires ValueOut(coinbase) == n.o.proofOfWorkReward(block, nFees)
    ensures Acceptable(n.db, block, n.o)
  {
    var head := [coinbase];
    CoinBaseHead(n, block, coinbase, EVERY);
    CoinBaseFirst(n, block, coinbase, EVERY);
    EveryFee(n, txs);
    SigOpsInBound(n, p, txs, nBlockSize, nBlockSigOps, nFees);
    hide PoolChain, BlockTotals, BlockSigOps, HeadOk, ValueOut, PoolOk, Kept, AllAccepted, Totalled, Alike, KeptFees,
      SumFees, CheckBlock, IsProofOfStake, AllApart, KeepsOlder, EVERY, ConnectTxs, StepAccepted, FreshCoinBase,
        TxSigOps;
    NothingShared(n, txs);
    PlainChecks(n, block, coinbase, txs);
    TemplateSteps(n, p, block, head, txs, EVERY, {}, nBlockSize, nBlockSigOps, nFees);
  }

  lemma NothingShared(n: Node, txs: seq<nat>)
    ensures AllApart(n, txs, EVERY, {}) && KeepsOlder(n, EVERY)
  {
  }

  lemma PlainChecks(n: Node, block: Block, coinbase: Tx, txs: seq<nat>)
    requires PoolOk(n) && PoolChain(n, txs) && block.vtx == [coinbase] + Kept(n, txs, EVERY)
    requires FreshCoinBase(n, block, coinbase) && n.o.blockChecks(block)
    ensures CheckBlock(block, n.o) && !IsProofOfStake(block) && block.vtx[0] == coinbase
  {
    TemplateDistinct(n, block, [coinbase], txs, EVERY);
    hide PoolOk, PoolChain, Kept, Tx.IsCoinBase, Tx.IsCoinStake;
  }

  // ----- proof of stake: a coinstake comes second, and later transactions are dropped -----

  /** The transactions that are not from after a time. */
  function NotAfter(n: Node, nTime: int): nat -> bool {
    h => h in n.mempool && n.mempool[h].nTime <= nTime
  }

  lemma NotAfterKeepsOlder(n: Node, nTime: int)
    ensures KeepsOlder(n, NotAfter(n, nTime))
  {
  }

  function StakeInputs(stake: Tx): set<OutPoint> {
    set o | o in Prevouts(stake)
  }

  /** A block with an empty coinbase and a coinstake, both new to the node, of which the coinstake is accepted
      in its place. */
  ghost predicate StakeHead(n: Node, block: Block, coinbase: Tx, stake: Tx) {
    && FreshCoinBase(n, block, coinbase) && |coinbase.vout| == 1 && coinbase.vout[0].IsEmpty()
    && |block.vtx| > 1 && block.vtx[1] == stake && stake.IsCoinStake()
    && stake.hash !in n.db && stake.hash !in n.mempool && stake.hash != coinbase.hash
    && ConnectTxs(n.db, block, 1).Some? && TxAccepted(ConnectTxs(n.db, block, 1).value, stake, At(block, 1), n.o)
  }

  /** What the coinstake pays out beyond what it brings. */
  function StakeReward(view: View, stake: Tx, o: Oracle): int {
    ValueOut(stake) - (PrevValues(view, Prevouts(stake)) + AnonIn(stake, o))
  }

  lemma NotBoth(tx: Tx)
    requires tx.IsCoinStake()
    ensures !tx.IsCoinBase()
  {
  }

  lemma StakeSecond(n: Node, block: Block, coinbase: Tx, stake: Tx)
    requires StakeHead(n, block, coinbase, stake)
    ensures ConnectTxs(n.db, block, 1).Some? && StepAccepted(n.db, block, n.o, 1) && ConnectTxs(n.db, block, 2).Some?
    ensures BlockSigOps(block, n.o, 2) == TxSigOps(coinbase, n.o) + TxSigOps(stake, n.o)
    ensures var t := BlockTotals(n.db, block, n.o, 2);
            t.nFees == 0 && t.nStakeReward == StakeReward(ConnectTxs(n.db, block, 1).value, stake, n.o)
  {
    CoinBaseFirst(n, block, coinbase, EVERY);
    NotBoth(stake);
    hide Alike, ValueOut, PrevValues, Prevouts, AnonIn, AnonOut, Tx.IsCoinStake, Tx.IsCoinBase, InputsAccepted,
      PaysItsWay,
      TxSigOps, FreshCoinBase;
  }

  /** After the coinstake, its inputs are spent and everything else is as it was. */
  lemma StakeAlike(n: Node, block: Block, coinbase: Tx, stake: Tx, keep: nat -> bool)
    requires StakeHead(n, block, coinbase, stake)
    ensures ConnectTxs(n.db, block, 2).Some?
    ensures Alike(n, n.db, ConnectTxs(n.db, block, 2).value, keep, StakeInputs(stake))
    ensures forall o :: o in StakeInputs(stake) ==>
            InRange(ConnectTxs(n.db, block, 2).value, o) && !Spendable(ConnectTxs(n.db, block, 2).value, o)
  {
    StakeSecond(n, block, coinbase, stake);
    CoinBaseFirst(n, block, coinbase, keep);
    NotBoth(stake);
    var w1, w2 := ConnectTxs(n.db, block, 1).value, ConnectTxs(n.db, block, 2).value;
    StakeConnects(n, block, coinbase, stake);
    ConnectTxEffect(w1, stake, At(block, 1));
    hide ConnectTxs, ConnectTx, Prevouts, TxAccepted, StepAccepted, BlockTotals, BlockSigOps, Tx.IsCoinStake,
      Tx.IsCoinBase, FreshCoinBase, TxSigOps, StakeReward, TxOf, ReadTx;
    forall h | h in n.db ensures EntryAlike(n, n.db, w2, StakeInputs(stake), h) {
      assert EntryAlike(n, n.db, w1, {}, h);
      StakeEntry(n, w1, w2, stake, h, At(block, 1));
    }
    forall o | o in StakeInputs(stake) ensures InRange(w2, o) && !Spendable(w2, o) {
      assert Spendable(w1, o) && OutPoint(o.hash, o.n) == o;
    }
  }

  lemma StakeConnects(n: Node, block: Block, coinbase: Tx, stake: Tx)
    requires StakeHead(n, block, coinbase, stake)
    ensures ConnectTxs(n.db, block, 1).Some?
    ensures ConnectTxs(n.db, block, 2) == ConnectTx(ConnectTxs(n.db, block, 1).value, stake, At(block, 1))
  {
    hide ConnectTx, TxAccepted, FreshCoinBase;
  }

  lemma StakeEntry(n: Node, w1: View, w2: View, stake: Tx, h: nat, pos: DiskTxPos)
    requires h in n.db && h != stake.hash && EntryAlike(n, n.db, w1, {}, h) && h in w2
    requires w2[h].pos == w1[h].pos && |w2[h].vSpent| == |w1[h].vSpent|
    requires forall k :: 0 <= k < |w2[h].vSpent| ==>
             w2[h].vSpent[k] == if OutPoint(h, k) in Prevouts(stake) then pos else w1[h].vSpent[k]
    ensures EntryAlike(n, n.db, w2, StakeInputs(stake), h)
  {
    hide Prevouts, TxOf, ReadTx;
  }

  lemma StakeHeadOk(n: Node, block: Block, coinbase: Tx, stake: Tx, keep: nat -> bool)
    requires StakeHead(n, block, coinbase, stake)
    ensures HeadOk(n, block, [coinbase, stake], keep, StakeInputs(stake))
  {
    hide Alike, ConnectTxs, StepAccepted, TxAccepted, BlockTotals, BlockSigOps, StakeInputs, Tx.IsCoinBase,
      Tx.IsCoinStake, TxSigOps, StakeReward;
    StakeSecond(n, block, coinbase, stake);
    StakeAlike(n, block, coinbase, stake, keep);
    CoinBaseFirst(n, block, coinbase, keep);
  }

  // ----- when a kept transaction and the coinstake spend the same -----

  /** What the head spends stays spent. */
  lemma {:induction false} StaysSpentAfter(n: Node, block: Block, m: nat, i: nat, o: OutPoint)
    requires m <= i <= |block.vtx| && ConnectTxs(n.db, block, m).Some? && ConnectTxs(n.db, block, i).Some?
    requires InRange(ConnectTxs(n.db, block, m).value, o) && !Spendable(ConnectTxs(n.db, block, m).value, o)
    requires forall j :: m <= j < i ==> block.vtx[j].hash != o.hash
    ensures InRange(ConnectTxs(n.db, block, i).value, o) && !Spendable(ConnectTxs(n.db, block, i).value, o)
    decreases i
  {
    if m < i {
      var before := ConnectTxs(n.db, block, i - 1);
      assert before.Some?;
      StaysSpentAfter(n, block, m, i - 1, o);
      ConnectTxEffect(before.value, block.vtx[i - 1], At(block, i - 1));
      hide ConnectTx, Prevouts, Tx.IsCoinBase;
      assert OutPoint(o.hash, o.n) == o;
    }
  }

  /** So a block in which they do is not accepted. */
  lemma NotApart(n: Node, block: Block, coinbase: Tx, stake: Tx, txs: seq<nat>, keep: nat -> bool)
    requires PoolOk(n) && PoolChain(n, txs) && StakeHead(n, block, coinbase, stake)
    requires Holds(n, block, [coinbase, stake], txs, keep) && !AllApart(n, txs, keep, StakeInputs(stake))
    ensures !AllAccepted(n.db, block, n.o)
  {
    hide *;
    var m, o := FindShared(n, block, [coinbase, stake], txs, keep, StakeInputs(stake));
    SharedRefused(n, block, coinbase, stake, txs, keep, m, o);
  }

  /** Where a kept transaction spends what the head does. */
  lemma FindShared(n: Node, block: Block, head: seq<Tx>, txs: seq<nat>, keep: nat -> bool, s: set<OutPoint>)
    returns (m: nat, o: OutPoint)
    requires PoolOk(n) && PoolChain(n, txs) && Holds(n, block, head, txs, keep) && !AllApart(n, txs, keep, s)
    ensures |head| <= m < |block.vtx| && o in Prevouts(block.vtx[m]) && o in s && !block.vtx[m].IsCoinBase()
  {
    hide Prevouts, Tx.IsCoinBase, Tx.IsCoinStake, Kept, PoolChain, PoolOk;
    var h :| h in txs && h in n.mempool && keep(h) && !Apart(s, n.mempool[h]);
    var tx := n.mempool[h];
    KeptMembers(n, txs, keep, tx);
    var j :| 0 <= j < |Kept(n, txs, keep)| && Kept(n, txs, keep)[j] == tx;
    KeptKind(n, txs, keep, j);
    o :| o in Prevouts(tx) && o in s;
    m := |head| + j;
  }

  lemma SharedRefused(n: Node, block: Block, coinbase: Tx, stake: Tx, txs: seq<nat>, keep: nat -> bool, m: nat,
                      o: OutPoint)
    requires PoolOk(n) && PoolChain(n, txs) && StakeHead(n, block, coinbase, stake) && o in StakeInputs(stake)
    requires Holds(n, block, [coinbase, stake], txs, keep) && 2 <= m < |block.vtx|
    requires o in Prevouts(block.vtx[m]) && !block.vtx[m].IsCoinBase()
    ensures !AllAccepted(n.db, block, n.o)
  {
    hide *;
    if AllAccepted(n.db, block, n.o) {
      AcceptedSpends(n, block, m, o);
      SharedIsSpent(n, block, coinbase, stake, txs, keep, m, o);
    }
  }

  lemma AcceptedSpends(n: Node, block: Block, m: nat, o: OutPoint)
    requires AllAccepted(n.db, block, n.o) && m < |block.vtx| && o in Prevouts(block.vtx[m])
    requires !block.vtx[m].IsCoinBase()
    ensures ConnectTxs(n.db, block, m).Some? && Spendable(ConnectTxs(n.db, block, m).value, o)
  {
    assert StepAccepted(n.db, block, n.o, m);
    SpendAllMarks(ConnectTxs(n.db, block, m).value, Prevouts(block.vtx[m]), At(block, m));
  }

  lemma SharedIsSpent(n: Node, block: Block, coinbase: Tx, stake: Tx, txs: seq<nat>, keep: nat -> bool, m: nat,
                      o: OutPoint)
    requires PoolOk(n) && PoolChain(n, txs) && StakeHead(n, block, coinbase, stake) && o in StakeInputs(stake)
    requires Holds(n, block, [coinbase, stake], txs, keep) && 2 <= m < |block.vtx|
    requires ConnectTxs(n.db, block, m).Some?
    ensures !Spendable(ConnectTxs(n.db, block, m).value, o)
  {
    StakeAlike(n, block, coinbase, stake, keep);
    StakeKeys(n, block, coinbase, stake, o);
    forall j | 2 <= j < m ensures block.vtx[j].hash != o.hash {
      KeptKind(n, txs, keep, j - 2);
      assert block.vtx[j] == Kept(n, txs, keep)[j - 2];
    }
    hide Kept, ConnectTxs, PoolChain, StakeHead, Holds, StakeInputs, Alike;
    StaysSpentAfter(n, block, 2, m, o);
  }

  lemma StakeKeys(n: Node, block: Block, coinbase: Tx, stake: Tx, o: OutPoint)
    requires PoolOk(n) && StakeHead(n, block, coinbase, stake) && o in StakeInputs(stake)
    ensures o.hash !in n.mempool
  {
    CoinBaseFirst(n, block, coinbase, EVERY);
    NotBoth(stake);
    SpendAllMarks(ConnectTxs(n.db, block, 1).value, Prevouts(stake), At(block, 1));
    hide Prevouts, SpendAll;
    assert InRange(ConnectTxs(n.db, block, 1).value, o);
  }

  // ----- the signed block -----

  /** Everything but the reward, when the coinstake and the kept transactions spend different outputs. */
  lemma SignedSteps(n: Node, p: Policy, block: Block, coinbase: Tx, stake: Tx, txs: seq<nat>, keep: nat -> bool,
                    nBlockSize: nat, nBlockSigOps: nat, nFees: int)
    requires PoolOk(n) && KeepsOlder(n, keep) && Holds(n, block, [coinbase, stake], txs, keep)
    requires PoolChain(n, txs) && Totalled(n, p, txs, nBlockSize, nBlockSigOps, nFees)
    requires StakeHead(n, block, coinbase, stake) && TxSigOps(coinbase, n.o) + TxSigOps(stake, n.o) <= 100
    requires AllApart(n, txs, keep, StakeInputs(stake))
    ensures AllAccepted(n.db, block, n.o) && ConnectTxs(n.db, block, 1).Some?
    ensures var t := BlockTotals(n.db, block, n.o, |block.vtx|);
            t.nFees == KeptFees(n, txs, keep) &&
              t.nStakeReward == StakeReward(ConnectTxs(n.db, block, 1).value, stake, n.o)
  {
    var head := [coinbase, stake];
    assert |block.vtx| > 1 && |head| == 2;
    hide *;
    StakeHeadOk(n, block, coinbase, stake, keep);
    StakeSecond(n, block, coinbase, stake);
    TemplateSteps(n, p, block, head, txs, keep, StakeInputs(stake), nBlockSize, nBlockSigOps, nFees);
  }

  lemma SignedChecks(n: Node, block: Block, coinbase: Tx, stake: Tx, txs: seq<nat>, keep: nat -> bool)
    requires PoolOk(n) && PoolChain(n, txs) && Holds(n, block, [coinbase, stake], txs, keep)
    requires StakeHead(n, block, coinbase, stake) && n.o.blockChecks(block)
    ensures CheckBlock(block, n.o) && IsProofOfStake(block)
  {
    NotBoth(stake);
    TemplateDistinct(n, block, [coinbase, stake], txs, keep);
    hide PoolOk, PoolChain, Holds, TxAccepted, ConnectTxs, Tx.IsCoinBase, Tx.IsCoinStake;
  }

  lemma StakeLength(n: Node, block: Block, coinbase: Tx, stake: Tx)
    requires StakeHead(n, block, coinbase, stake)
    ensures |block.vtx| > 1
  {
  }

  lemma ThisHolds(n: Node, block: Block, head: seq<Tx>, txs: seq<nat>, keep: nat -> bool)
    requires block.vtx == head + Kept(n, txs, keep)
    ensures Holds(n, block, head, txs, keep)
  {
  }

  lemma AcceptableIs(n: Node, block: Block)
    requires CheckBlock(block, n.o) && IsProofOfStake(block)
    ensures var t := BlockTotals(n.db, block, n.o, |block.vtx|);
            Acceptable(n.db, block, n.o) <==>
              AllAccepted(n.db, block, n.o) && t.nStakeReward <= n.o.stakeSubsidy(block) + t.nFees &&
                n.o.donationPaid(block, n.o.stakeSubsidy(block) + t.nFees)
  {
  }

  lemma SignedExactly(n: Node, p: Policy, block: Block, coinbase: Tx, stake: Tx, txs: seq<nat>, keep: nat -> bool,
                      nBlockSize: nat, nBlockSigOps: nat, nFees: int)
    requires PoolOk(n) && KeepsOlder(n, keep) && Holds(n, block, [coinbase, stake], txs, keep)
    requires PoolChain(n, txs) && Totalled(n, p, txs, nBlockSize, nBlockSigOps, nFees) && n.o.blockChecks(block)
    requires StakeHead(n, block, coinbase, stake) && TxSigOps(coinbase, n.o) + TxSigOps(stake, n.o) <= 100
    ensures ConnectTxs(n.db, block, 1).Some?
    ensures var limit := n.o.stakeSubsidy(block) + KeptFees(n, txs, keep);
            Acceptable(n.db, block, n.o) <==>
              && AllApart(n, txs, keep, StakeInputs(stake))
              && StakeReward(ConnectTxs(n.db, block, 1).value, stake, n.o) <= limit && n.o.donationPaid(block, limit)
  {
    hide *;
    StakeLength(n, block, coinbase, stake);
    SignedChecks(n, block, coinbase, stake, txs, keep);
    AcceptableIs(n, block);
    StakeSecond(n, block, coinbase, stake);
    if AllApart(n, txs, keep, StakeInputs(stake)) {
      SignedSteps(n, p, block, coinbase, stake, txs, keep, nBlockSize, nBlockSigOps, nFees);
    } else {
      NotApart(n, block, coinbase, stake, txs, keep);
    }
  }

  /** A signed block is acceptable if and only if no kept transaction spends what the coinstake
      spends, and the coinstake stays within the subsidy and the fees of the kept transactions, and
      pays the donation that is due for these. */
  lemma SignedIsAcceptableExactly(n: Node, p: Policy, block: Block, coinbase: Tx, stake: Tx, txs: seq<nat>,
                                  nTime: int, nBlockSize: nat, nBlockSigOps: nat, nFees: int)
    requires PoolOk(n) && PoolChain(n, txs) && Totalled(n, p, txs, nBlockSize, nBlockSigOps, nFees)
    requires block.vtx == [coinbase, stake] + Kept(n, txs, NotAfter(n, nTime)) && n.o.blockChecks(block)
    requires StakeHead(n, block, coinbase, stake) && TxSigOps(coinbase, n.o) + TxSigOps(stake, n.o) <= 100
    ensures ConnectTxs(n.db, block, 1).Some?
    ensures var keep, limit := NotAfter(n, nTime), n.o.stakeSubsidy(block) + KeptFees(n, txs, NotAfter(n, nTime));
            Acceptable(n.db, block, n.o) <==>
              && AllApart(n, txs, keep, StakeInputs(stake))
              && StakeReward(ConnectTxs(n.db, block, 1).value, stake, n.o) <= limit && n.o.donationPaid(block, limit)
  {
    hide *;
    StakeLength(n, block, coinbase, stake);
    NotAfterKeepsOlder(n, nTime);
    ThisHolds(n, block, [coinbase, stake], txs, NotAfter(n, nTime));
    SignedExactly(n, p, block, coinbase, stake, txs, NotAfter(n, nTime), nBlockSize, nBlockSigOps, nFees);
  }

  // ----- fees of dropped transactions -----

  /** No listed transaction pays less than nothing. */
  lemma FeesNotNegative(n: Node, txs: seq<nat>, i: nat)
    requires PoolChain(n, txs) && i < |txs|
    ensures txs[i] in n.mempool && FeeOf(n, n.mempool[txs[i]]) >= 0
  {
    PrefixChain(n, txs, i + 1);
    PoolStep(n, txs, i);
    ListedKind(n, txs, i);
    hide PoolChain, PoolView, PoolInputs, ConnectTx, TotalInFrom, ValueOut, SpendAll, Tx.IsCoinStake;
  }

  /** None of the dropped transactions pays a fee. */
  ghost predicate DroppedAreFree(n: Node, txs: seq<nat>, keep: nat -> bool) {
    forall h :: h in txs && h in n.mempool && !keep(h) ==> FeeOf(n, n.mempool[h]) == 0
  }

  lemma {:induction false} KeptFeesExactly(n: Node, txs: seq<nat>, keep: nat -> bool)
    requires PoolChain(n, txs)
    ensures KeptFees(n, txs, keep) <= SumFees(n, txs)
    ensures KeptFees(n, txs, keep) == SumFees(n, txs) <==> DroppedAreFree(n, txs, keep)
    decreases |txs|
  {
    if txs != [] {
      var m := |txs| - 1;
      var before := txs[..m];
      PrefixChain(n, txs, m);
      FeesNotNegative(n, txs, m);
      hide PoolChain, FeeOf;
      KeptFeesExactly(n, before, keep);
      assert txs == before + [txs[m]];
    }
  }

  /** The coinstake is made with the fees of the whole template, before the later transactions are
      dropped.  If it claims the subsidy and all of these fees, the block is refused as soon as a
      dropped transaction pays. */
  lemma ClaimsDroppedFees(n: Node, p: Policy, block: Block, coinbase: Tx, stake: Tx, txs: seq<nat>, nTime: int,
                          nBlockSize: nat, nBlockSigOps: nat, nFees: int)
    requires PoolOk(n) && PoolChain(n, txs) && Totalled(n, p, txs, nBlockSize, nBlockSigOps, nFees)
    requires block.vtx == [coinbase, stake] + Kept(n, txs, NotAfter(n, nTime)) && n.o.blockChecks(block)
    requires StakeHead(n, block, coinbase, stake) && TxSigOps(coinbase, n.o) + TxSigOps(stake, n.o) <= 100
    requires AllApart(n, txs, NotAfter(n, nTime), StakeInputs(stake)) && ConnectTxs(n.db, block, 1).Some?
    requires StakeReward(ConnectTxs(n.db, block, 1).value, stake, n.o) == n.o.stakeSubsidy(block) + nFees
    requires n.o.donationPaid(block, n.o.stakeSubsidy(block) + nFees)
    ensures Acceptable(n.db, block, n.o) <==> DroppedAreFree(n, txs, NotAfter(n, nTime))
  {
    hide *;
    SigOpsInBound(n, p, txs, nBlockSize, nBlockSigOps, nFees);
    SignedIsAcceptableExactly(n, p, block, coinbase, stake, txs, nTime, nBlockSize, nBlockSigOps, nFees);
    KeptFeesExactly(n, txs, NotAfter(n, nTime));
  }
}
