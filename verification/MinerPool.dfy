/** The memory pool as the block template sees it: what a pooled transaction waits for, what
    it pays, and what a sequence of pooled transactions does to the test pool. */
module MinerPool {
  import opened Basics
  import opened ConnectBlocks
  import opened Supply
  import opened TxIndexing
  import opened UndoBlock

  /** The database, the memory pool by transaction hash, and the checks. */
  datatype Node = Node(db: View, mempool: map<nat, Tx>, o: Oracle)

  /** The transaction with this hash, wherever it is. */
  function TxOf(n: Node, hash: nat): Option<Tx> {
    if hash in n.db then ReadTx(n.db[hash].pos)
    else if hash in n.mempool then Some(n.mempool[hash]) else None
  }

  /** The previous output can be read from disk. */
  predicate OnDisk(n: Node, o: OutPoint) {
    o.hash in n.db && TxOf(n, o.hash).Some? && o.n < |TxOf(n, o.hash).value.vout|
  }

  /** The pool files transactions by their hash, and holds none that a block has. */
  ghost predicate PoolOk(n: Node) {
    forall h :: h in n.mempool ==> n.mempool[h].hash == h && h !in n.db
  }

  /** No pooled transaction names an output that neither the disk nor the pool has. */
  ghost predicate NoMissing(n: Node) {
    forall h :: h in n.mempool ==> InputsExist(n, n.mempool[h])
  }

  predicate InputsExist(n: Node, tx: Tx) {
    forall i :: 0 <= i < |tx.vin| && !tx.SkipsInput(i) ==> OutputExists(n, tx.vin[i].prevout)
  }

  predicate OutputExists(n: Node, o: OutPoint) {
    OnDisk(n, o) || (o.hash !in n.db && o.hash in n.mempool && o.n < |n.mempool[o.hash].vout|)
  }

  /** The pooled transactions that the first i inputs spend from. */
  function ParentsTo(n: Node, tx: Tx, i: nat): set<nat>
    requires i <= |tx.vin|
  {
    if i == 0 then {}
    else ParentsTo(n, tx, i - 1) +
         if tx.SkipsInput(i - 1) || OnDisk(n, tx.vin[i - 1].prevout) then {} else {tx.vin[i - 1].prevout.hash}
  }

  function Parents(n: Node, tx: Tx): set<nat> {
    ParentsTo(n, tx, |tx.vin|)
  }

  /** The value of one previous output. */
  function ValueOf(n: Node, o: OutPoint): int {
    if TxOf(n, o.hash).Some? && o.n < |TxOf(n, o.hash).value.vout| then TxOf(n, o.hash).value.vout[o.n].nValue else 0
  }

  /** The value that the inputs from i on bring. */
  function TotalInFrom(n: Node, tx: Tx, i: nat): int
    requires i <= |tx.vin|
    decreases |tx.vin| - i
  {
    if i == |tx.vin| then 0
    else (if tx.SkipsInput(i) then 0 else ValueOf(n, tx.vin[i].prevout)) + TotalInFrom(n, tx, i + 1)
  }

  /** What a transaction pays the miner. */
  function FeeOf(n: Node, tx: Tx): int {
    TotalInFrom(n, tx, 0) + AnonIn(tx, n.o) - ValueOut(tx)
  }

  // ----- the test pool -----

  /** A pooled transaction may be connected on top of the view. */
  ghost predicate PoolAccepted(n: Node, view: View, tx: Tx) {
    && PoolInputs(n, view, tx)
    && MoneyRange(TotalInFrom(n, tx, 0))
    && SpendAll(view, Prevouts(tx), InMempool).Some?
    && PaysItsWay(TotalInFrom(n, tx, 0), tx, n.o)
  }

  ghost predicate PoolInputs(n: Node, view: View, tx: Tx) {
    forall i :: 0 <= i < |tx.vin| && !tx.SkipsInput(i) ==> PoolInput(n, view, tx, i)
  }

  ghost predicate PoolInput(n: Node, view: View, tx: Tx, i: nat)
    requires i < |tx.vin|
  {
    var prevout := tx.vin[i].prevout;
    && InRange(view, prevout) && TxOf(n, prevout.hash).Some?
    && InputPasses(TxOf(n, prevout.hash).value, tx, i, n.o)
    && n.o.verifySignature(TxOf(n, prevout.hash).value, tx, i)
  }

  /** The index after the listed pooled transactions. */
  function PoolView(n: Node, txs: seq<nat>): Option<View>
    decreases |txs|
  {
    if txs == [] then Some(n.db)
    else
      var before, h := PoolView(n, txs[..|txs| - 1]), txs[|txs| - 1];
      if before.None? || h !in n.mempool then None else ConnectTx(before.value, n.mempool[h], InMempool)
  }

  /** Each of the listed transactions is pooled, is listed once, is neither coinbase nor
      coinstake, and may follow the ones before it. */
  ghost predicate PoolChain(n: Node, txs: seq<nat>)
    decreases |txs|
  {
    txs == [] ||
    var before, h := txs[..|txs| - 1], txs[|txs| - 1];
    && PoolChain(n, before) && PoolView(n, before).Some?
    && h in n.mempool && h !in before && !n.mempool[h].IsCoinBase() && !n.mempool[h].IsCoinStake()
    && PoolAccepted(n, PoolView(n, before).value, n.mempool[h])
  }

  /** What is found through the view is what the node has. */
  ghost predicate Faithful(n: Node, view: View) {
    forall h :: h in view ==> Lookup(n.mempool, h, view[h]) == TxOf(n, h)
  }

  /** The listed transactions' entries, and those of the database, make up the view. */
  ghost predicate ViewKeys(n: Node, view: View, txs: seq<nat>) {
    forall h :: h in view <==> h in n.db || h in txs
  }

  lemma ChainStep(n: Node, txs: seq<nat>, h: nat)
    ensures (txs + [h])[..|txs + [h]| - 1] == txs && (txs + [h])[|txs + [h]| - 1] == h
  {
  }

  /** One more transaction. */
  lemma ChainGrows(n: Node, txs: seq<nat>, view: View, h: nat)
    requires PoolChain(n, txs) && PoolView(n, txs) == Some(view)
    requires h in n.mempool && h !in txs && !n.mempool[h].IsCoinBase() && !n.mempool[h].IsCoinStake() &&
             PoolAccepted(n, view, n.mempool[h])
    ensures PoolChain(n, txs + [h]) && PoolView(n, txs + [h]) == ConnectTx(view, n.mempool[h], InMempool)
  {
    ChainStep(n, txs, h);
    hide ConnectTx, PoolAccepted;
  }

  lemma FaithfulAfter(n: Node, view: View, tx: Tx)
    requires PoolOk(n) && Faithful(n, view) && tx.hash in n.mempool && n.mempool[tx.hash] == tx
    requires !tx.IsCoinBase() && SpendAll(view, Prevouts(tx), InMempool).Some?
    ensures ConnectTx(view, tx, InMempool).Some? && Faithful(n, ConnectTx(view, tx, InMempool).value)
    ensures ConnectTx(view, tx, InMempool).value.Keys == view.Keys + {tx.hash}
  {
    SpendAllMarks(view, Prevouts(tx), InMempool);
    hide SpendAll;
  }

  lemma FaithfulDb(n: Node)
    requires PoolOk(n)
    ensures Faithful(n, n.db)
  {
  }

  lemma ChainUnfolds(n: Node, txs: seq<nat>)
    requires PoolChain(n, txs) && txs != []
    ensures var before, h := txs[..|txs| - 1], txs[|txs| - 1];
            && PoolChain(n, before) && PoolView(n, before).Some? && h in n.mempool && !n.mempool[h].IsCoinBase()
            && PoolAccepted(n, PoolView(n, before).value, n.mempool[h])
  {
  }

  lemma PooledHash(n: Node, h: nat)
    requires PoolOk(n) && h in n.mempool
    ensures n.mempool[h].hash == h
  {
  }

  /** The view is faithful, and made up as it should be, all along. */
  lemma {:induction false} ChainFaithful(n: Node, txs: seq<nat>)
    requires PoolOk(n) && PoolChain(n, txs)
    ensures PoolView(n, txs).Some? && Faithful(n, PoolView(n, txs).value) && ViewKeys(n, PoolView(n, txs).value, txs)
    decreases |txs|
  {
    hide PoolOk, Faithful, ConnectTx, PoolInputs, SpendAll, PaysItsWay, PoolChain;
    if txs == [] {
      FaithfulDb(n);
    } else {
      var before, h := txs[..|txs| - 1], txs[|txs| - 1];
      ChainUnfolds(n, txs);
      ChainFaithful(n, before);
      PooledHash(n, h);
      FaithfulAfter(n, PoolView(n, before).value, n.mempool[h]);
      assert txs == before + [h];
    }
  }

  // ----- what has been fetched -----

  lemma {:induction false} FetchedValue(n: Node, view: View, tx: Tx, inputs: MapPrevTx, i: nat)
    requires i <= |tx.vin| && Faithful(n, view) && Fetched(view, n.mempool, tx, inputs)
    ensures ValueInFrom(inputs, tx, i) == TotalInFrom(n, tx, i)
    decreases |tx.vin| - i
  {
    if i < |tx.vin| {
      FetchedValue(n, view, tx, inputs, i + 1);
    }
  }

  lemma FetchedPool(n: Node, view: View, tx: Tx, inputs: MapPrevTx)
    requires Faithful(n, view) && Fetched(view, n.mempool, tx, inputs)
    ensures EntriesMatch(inputs, view, tx)
    ensures InputsPass(inputs, tx, 0, n.o) && SignaturesVerify(inputs, tx, 0, n.o) <==> PoolInputs(n, view, tx)
  {
    forall i | 0 <= i < |tx.vin| && !tx.SkipsInput(i) && PoolInputs(n, view, tx)
      ensures InputPasses(inputs[tx.vin[i].prevout.hash].tx, tx, i, n.o) &&
              n.o.verifySignature(inputs[tx.vin[i].prevout.hash].tx, tx, i)
    {
      assert PoolInput(n, view, tx, i);
    }
  }

  lemma NotFetched(n: Node, view: View, tx: Tx)
    requires Faithful(n, view)
    requires exists i :: 0 <= i < |tx.vin| && !tx.SkipsInput(i) && !Fetchable(view, n.mempool, tx.vin[i].prevout)
    ensures !PoolInputs(n, view, tx)
  {
    var i :| 0 <= i < |tx.vin| && !tx.SkipsInput(i) && !Fetchable(view, n.mempool, tx.vin[i].prevout);
    assert !PoolInput(n, view, tx, i);
  }

  // ----- the listed transactions as a schedule -----

  lemma {:induction false} ChainPooled(n: Node, txs: seq<nat>)
    requires PoolChain(n, txs)
    ensures forall i :: 0 <= i < |txs| ==>
            txs[i] in n.mempool && !n.mempool[txs[i]].IsCoinBase() && !n.mempool[txs[i]].IsCoinStake()
    ensures forall i, j :: 0 <= i < j < |txs| ==> txs[i] != txs[j]
    decreases |txs|
  {
    if txs != [] {
      var before := txs[..|txs| - 1];
      ChainPooled(n, before);
      hide PoolAccepted, PoolView;
      forall i | 0 <= i < |txs|
        ensures txs[i] in n.mempool && !n.mempool[txs[i]].IsCoinBase() && !n.mempool[txs[i]].IsCoinStake()
      {
        if i < |txs| - 1 {
          assert before[i] == txs[i];
        }
      }
      forall i, j | 0 <= i < j < |txs| ensures txs[i] != txs[j] {
        assert before[i] == txs[i];
        if j < |txs| - 1 {
          assert before[j] == txs[j];
        }
      }
    }
  }

  lemma {:induction false} PrefixChain(n: Node, txs: seq<nat>, i: nat)
    requires i <= |txs| && PoolChain(n, txs)
    ensures PoolChain(n, txs[..i])
    decreases |txs|
  {
    if i < |txs| {
      assert txs[..|txs| - 1][..i] == txs[..i];
      PrefixChain(n, txs[..|txs| - 1], i);
    } else {
      assert txs[..i] == txs;
    }
  }

  lemma PoolStep(n: Node, txs: seq<nat>, i: nat)
    requires i < |txs| && PoolChain(n, txs[..i + 1])
    ensures PoolView(n, txs[..i]).Some? && txs[i] in n.mempool && !n.mempool[txs[i]].IsCoinBase() &&
            !n.mempool[txs[i]].IsCoinStake()
    ensures PoolAccepted(n, PoolView(n, txs[..i]).value, n.mempool[txs[i]])
    ensures PoolView(n, txs[..i + 1]) == ConnectTx(PoolView(n, txs[..i]).value, n.mempool[txs[i]], InMempool)
  {
    assert txs[..i + 1][..i] == txs[..i];
    hide PoolAccepted, ConnectTx;
  }

  /** Every parent of an accepted transaction is in the view it was accepted on. */
  lemma {:induction false} ParentsInView(n: Node, view: View, tx: Tx, i: nat)
    requires i <= |tx.vin| && PoolInputs(n, view, tx) && InputsExist(n, tx)
    ensures forall p :: p in ParentsTo(n, tx, i) ==> p in view && p !in n.db
    decreases i
  {
    if i > 0 {
      ParentsInView(n, view, tx, i - 1);
    }
  }

  /** Every listed transaction comes after all pooled transactions that it spends from. */
  ghost predicate ParentsFirst(n: Node, txs: seq<nat>) {
    forall i :: 0 <= i < |txs| ==> txs[i] in n.mempool && forall p :: p in Parents(n, n.mempool[txs[i]]) ==>
      p in txs[..i]
  }

  /** A chain of pooled transactions is ordered by dependency. */
  lemma {:induction false} ChainIsOrdered(n: Node, txs: seq<nat>)
    requires PoolOk(n) && NoMissing(n) && PoolChain(n, txs)
    ensures ParentsFirst(n, txs)
  {
    hide PoolOk, PoolChain, PoolInputs, ConnectTx, Faithful, SpendAll, PaysItsWay, InputsExist;
    forall i | 0 <= i < |txs|
      ensures txs[i] in n.mempool && forall p :: p in Parents(n, n.mempool[txs[i]]) ==> p in txs[..i]
    {
      PrefixChain(n, txs, i);
      PrefixChain(n, txs, i + 1);
      PoolStep(n, txs, i);
      ChainFaithful(n, txs[..i]);
      var tx := n.mempool[txs[i]];
      ParentsInView(n, PoolView(n, txs[..i]).value, tx, |tx.vin|);
    }
  }

  /** The outputs that the i-th listed transaction spends. */
  function SpentBy(n: Node, txs: seq<nat>, i: nat): seq<OutPoint> {
    if i < |txs| && txs[i] in n.mempool then Prevouts(n.mempool[txs[i]]) else []
  }

  /** No output is spent twice, whether by two listed transactions or by one. */
  ghost predicate SpendsOnce(n: Node, txs: seq<nat>) {
    && (forall i: nat, j: nat, o :: i < j && o in SpentBy(n, txs, i) ==> o !in SpentBy(n, txs, j))
    && forall i: nat, x: nat, y: nat :: x < y < |SpentBy(n, txs, i)| ==> SpentBy(n, txs, i)[x] != SpentBy(n, txs, i)[y]
  }

  /** What the next listed transaction does to the view. */
  lemma {:induction false} StepEffect(n: Node, txs: seq<nat>, i: nat)
    requires PoolOk(n) && PoolChain(n, txs) && i < |txs|
    ensures PoolView(n, txs[..i]).Some? && PoolView(n, txs[..i + 1]).Some?
    ensures var v, w := PoolView(n, txs[..i]).value, PoolView(n, txs[..i + 1]).value;
            && (forall o :: o in SpentBy(n, txs, i) ==> Spendable(v, o))
            && (forall x: nat, y: nat :: x < y < |SpentBy(n, txs, i)| ==>
                SpentBy(n, txs, i)[x] != SpentBy(n, txs, i)[y])
            && forall o :: InRange(v, o) ==>
                 InRange(w, o) && w[o.hash].vSpent[o.n] == if o in SpentBy(n, txs, i) then InMempool
                   else v[o.hash].vSpent[o.n]
  {
    hide PoolChain, PoolInputs, ConnectTx, Faithful, PaysItsWay, Prevouts, Tx.IsCoinBase;
    PrefixChain(n, txs, i);
    PrefixChain(n, txs, i + 1);
    PoolStep(n, txs, i);
    ChainFaithful(n, txs[..i]);
    ChainFaithful(n, txs[..i + 1]);
    ChainPooled(n, txs);
    var v, tx := PoolView(n, txs[..i]).value, n.mempool[txs[i]];
    assert txs[i] !in txs[..i];
    assert tx.hash == txs[i] && tx.hash !in v;
    ConnectTxEffect(v, tx, InMempool);
  }

  /** An output once spent stays spent. */
  lemma {:induction false} StaysSpent(n: Node, txs: seq<nat>, i: nat, k: nat, o: OutPoint)
    requires PoolOk(n) && PoolChain(n, txs) && i < k <= |txs| && o in SpentBy(n, txs, i)
    ensures PoolView(n, txs[..k]).Some? && InRange(PoolView(n, txs[..k]).value, o)
    ensures PoolView(n, txs[..k]).value[o.hash].vSpent[o.n] == InMempool
    decreases k
  {
    hide PoolOk, PoolChain, PoolView, SpentBy;
    if k > i + 1 {
      StaysSpent(n, txs, i, k - 1, o);
    }
    StepEffect(n, txs, k - 1);
  }

  /** In a chain of pooled transactions no output is spent twice. */
  lemma {:induction false} ChainSpendsOnce(n: Node, txs: seq<nat>)
    requires PoolOk(n) && PoolChain(n, txs)
    ensures SpendsOnce(n, txs)
  {
    hide PoolOk, PoolChain, PoolView, Prevouts;
    forall i: nat, j: nat, o | i < j && o in SpentBy(n, txs, i) ensures o !in SpentBy(n, txs, j) {
      if j < |txs| {
        StaysSpent(n, txs, i, j, o);
        StepEffect(n, txs, j);
      }
    }
    forall i: nat, x: nat, y: nat | x < y < |SpentBy(n, txs, i)|
      ensures SpentBy(n, txs, i)[x] != SpentBy(n, txs, i)[y]
    {
      StepEffect(n, txs, i);
    }
  }
}
