/** Connecting and disconnecting blocks, as the node does it: inputs are fetched into a map,
    checked, and spent there; changed entries are queued and written at the end. */
module ConnectBlocks {
  import opened Basics
  import opened Supply
  import opened TxIndexing

  const MAX_MONEY := 0x7FFF_FFFF_FFFF_FFFF
  const MAX_BLOCK_SIGOPS := 1000000 / 50

  predicate MoneyRange(nValue: int) {
    0 <= nValue <= MAX_MONEY
  }

  /** The checks this model leaves uninterpreted. */
  datatype Oracle = Oracle(
    blockChecks: Block -> bool,                // size, proof of work, times, signature, Merkle root
    legacySigOps: Tx -> nat,
    p2shSigOps: Tx -> nat,
    spendAllowed: (Tx, Tx, nat) -> bool,       // maturity and special marker of a previous output
    verifySignature: (Tx, Tx, nat) -> bool,
    checkAnonInputs: Tx -> Option<int>,        // the value of the anonymous inputs, if they are valid
    minFee: Tx -> int,
    proofOfWorkReward: (Block, int) -> int,    // for the fees collected
    stakeSubsidy: Block -> int,                // a stake may earn the subsidy and the fees
    donationPaid: (Block, int) -> bool)

  datatype Prev = Prev(index: TxIndex, tx: Tx)
  type MapPrevTx = map<nat, Prev>

  // ----- fetching -----

  /** Where the transaction of an index entry is read from. */
  function Lookup(mempool: map<nat, Tx>, hash: nat, e: TxIndex): Option<Tx> {
    if e.pos == InMempool then (if hash in mempool then Some(mempool[hash]) else None) else ReadTx(e.pos)
  }

  /** The previous output can be fetched through the view. */
  predicate Fetchable(view: View, mempool: map<nat, Tx>, o: OutPoint) {
    && o.hash in view && Lookup(mempool, o.hash, view[o.hash]).Some?
    && o.n < |Lookup(mempool, o.hash, view[o.hash]).value.vout| && o.n < |view[o.hash].vSpent|
  }

  /** inputs holds what the view has for every previous output of the transaction. */
  ghost predicate Fetched(view: View, mempool: map<nat, Tx>, tx: Tx, inputs: MapPrevTx) {
    && (forall h :: h in inputs ==>
        h in view && inputs[h].index == view[h] && Lookup(mempool, h, view[h]) == Some(inputs[h].tx))
    && forall i :: 0 <= i < |tx.vin| && !tx.SkipsInput(i) ==>
       Fetchable(view, mempool, tx.vin[i].prevout) && tx.vin[i].prevout.hash in inputs
  }

  /** Reads the entries and transactions that a transaction's inputs name, first from the
      changes queued so far and then from the database.  It fails exactly when an output
      cannot be found. */
  method FetchInputs(db: View, queued: View, mempool: map<nat, Tx>, tx: Tx) returns (ok: bool, inputs: MapPrevTx)
    ensures tx.IsCoinBase() ==> ok
    ensures !tx.IsCoinBase() && ok ==> Fetched(db + queued, mempool, tx, inputs)
    ensures !tx.IsCoinBase() && !ok ==>
              exists i :: 0 <= i < |tx.vin| && !tx.SkipsInput(i) && !Fetchable(db + queued, mempool, tx.vin[i].prevout)
  {
    inputs := map[];
    if tx.IsCoinBase() {
      return true, inputs;
    }
    ghost var view := db + queued;
    for i := 0 to |tx.vin|
      invariant forall h :: h in inputs ==>
                h in view && inputs[h].index == view[h] && Lookup(mempool, h, view[h]) == Some(inputs[h].tx)
      invariant forall j :: 0 <= j < i && !tx.SkipsInput(j) ==> tx.vin[j].prevout.hash in inputs
    {
      var hash := tx.vin[i].prevout.hash;
      if !tx.SkipsInput(i) && hash !in inputs {
        if hash !in queued && hash !in db {
          return false, inputs;
        }
        var e := if hash in queued then queued[hash] else db[hash];
        var txPrev := Lookup(mempool, hash, e);
        if txPrev.None? {
          return false, inputs;
        }
        inputs := inputs[hash := Prev(e, txPrev.value)];
      }
    }
    for i := 0 to |tx.vin|
      invariant forall j :: 0 <= j < i && !tx.SkipsInput(j) ==> Fetchable(view, mempool, tx.vin[j].prevout)
    {
      if !tx.SkipsInput(i) {
        var prevout := tx.vin[i].prevout;
        if prevout.n >= |inputs[prevout.hash].tx.vout| || prevout.n >= |inputs[prevout.hash].index.vSpent| {
          return false, inputs;
        }
      }
    }
    ok := true;
  }

  // ----- spending -----

  /** The value brought by the inputs from i on. */
  function ValueInFrom(inputs: MapPrevTx, tx: Tx, i: nat): int
    requires i <= |tx.vin|
    decreases |tx.vin| - i
  {
    if i == |tx.vin| then 0
    else
      var o := tx.vin[i].prevout;
      (if !tx.SkipsInput(i) && o.hash in inputs && o.n < |inputs[o.hash].tx.vout|
       then inputs[o.hash].tx.vout[o.n].nValue else 0) +
      ValueInFrom(inputs, tx, i + 1)
  }

  /** Input i may spend an output of prev: the output exists, is not from the future, is
      mature, and is worth a possible amount. */
  predicate InputPasses(prev: Tx, tx: Tx, i: nat, o: Oracle)
    requires i < |tx.vin|
  {
    var n := tx.vin[i].prevout.n;
    n < |prev.vout| && prev.nTime <= tx.nTime && o.spendAllowed(tx, prev, i) && MoneyRange(prev.vout[n].nValue)
  }

  /** The inputs from i on pass, by what has been fetched for them. */
  predicate InputsPass(inputs: MapPrevTx, tx: Tx, i: nat, o: Oracle) {
    forall j :: i <= j < |tx.vin| && !tx.SkipsInput(j) ==>
      tx.vin[j].prevout.hash in inputs && InputPasses(inputs[tx.vin[j].prevout.hash].tx, tx, j, o)
  }

  lemma {:induction false} PassingValueIsNotNegative(inputs: MapPrevTx, tx: Tx, i: nat, o: Oracle)
    requires i <= |tx.vin| && InputsPass(inputs, tx, i, o)
    ensures ValueInFrom(inputs, tx, i) >= 0
    decreases |tx.vin| - i
  {
    if i < |tx.vin| {
      PassingValueIsNotNegative(inputs, tx, i + 1, o);
    }
  }

  /** The inexpensive checks of all inputs, and the sum of their values so far.  They fail
      exactly when an input does not pass or the whole sum is not a possible amount. */
  method CheckInputs(inputs: MapPrevTx, tx: Tx, o: Oracle) returns (ok: bool, nValueIn: int)
    requires forall i :: 0 <= i < |tx.vin| && !tx.SkipsInput(i) ==>
               tx.vin[i].prevout.hash in inputs && tx.vin[i].prevout.n < |inputs[tx.vin[i].prevout.hash].index.vSpent|
    ensures ok <==> InputsPass(inputs, tx, 0, o) && MoneyRange(ValueInFrom(inputs, tx, 0))
    ensures ok ==> nValueIn == ValueInFrom(inputs, tx, 0)
  {
    nValueIn := 0;
    for i := 0 to |tx.vin|
      invariant MoneyRange(nValueIn) && nValueIn + ValueInFrom(inputs, tx, i) == ValueInFrom(inputs, tx, 0)
      invariant InputsPass(inputs, tx, i, o) ==> InputsPass(inputs, tx, 0, o)
    {
      if !tx.SkipsInput(i) {
        var prevout := tx.vin[i].prevout;
        var prev := inputs[prevout.hash];
        if prevout.n >= |prev.tx.vout| || prevout.n >= |prev.index.vSpent| {
          return false, 0;
        }
        if prev.tx.nTime > tx.nTime || !o.spendAllowed(tx, prev.tx, i) {
          return false, 0;
        }
        nValueIn := nValueIn + prev.tx.vout[prevout.n].nValue;
        if !MoneyRange(prev.tx.vout[prevout.n].nValue) || !MoneyRange(nValueIn) {
          if InputsPass(inputs, tx, 0, o) {
            PassingValueIsNotNegative(inputs, tx, i + 1, o);
          }
          return false, 0;
        }
      }
    }
    ok := true;
  }

  /** The fetched entries agree with the view, and cover what the transaction names. */
  ghost predicate EntriesMatch(entries: MapPrevTx, view: View, tx: Tx) {
    && (forall h :: h in entries ==> h in view && entries[h].index == view[h])
    && forall i :: 0 <= i < |tx.vin| && !tx.SkipsInput(i) ==>
         tx.vin[i].prevout.hash in entries && tx.vin[i].prevout.n < |entries[tx.vin[i].prevout.hash].index.vSpent|
  }

  /** Spending changes index entries, never the transactions they belong to. */
  ghost predicate SameTxs(entries: MapPrevTx, inputs: MapPrevTx) {
    && (forall h :: h in entries <==> h in inputs)
    && forall h :: h in entries ==> entries[h].tx == inputs[h].tx
  }

  /** The signatures of the inputs from i on verify. */
  predicate SignaturesVerify(inputs: MapPrevTx, tx: Tx, i: nat, o: Oracle) {
    forall j :: i <= j < |tx.vin| && !tx.SkipsInput(j) ==>
      tx.vin[j].prevout.hash in inputs && o.verifySignature(inputs[tx.vin[j].prevout.hash].tx, tx, j)
  }

  lemma SignatureStep(inputs: MapPrevTx, tx: Tx, i: nat, o: Oracle)
    requires i < |tx.vin|
    ensures SignaturesVerify(inputs, tx, i, o) <==>
              && SignaturesVerify(inputs, tx, i + 1, o)
              && (tx.SkipsInput(i) || (tx.vin[i].prevout.hash in inputs &&
                                       o.verifySignature(inputs[tx.vin[i].prevout.hash].tx, tx, i)))
  {
  }

  lemma SkippedInput(inputs: MapPrevTx, tx: Tx, i: nat, o: Oracle)
    requires i < |tx.vin| && tx.SkipsInput(i)
    ensures PrevoutsFrom(tx, i) == PrevoutsFrom(tx, i + 1)
    ensures SignaturesVerify(inputs, tx, i, o) <==> SignaturesVerify(inputs, tx, i + 1, o)
  {
    SignatureStep(inputs, tx, i, o);
  }

  lemma NothingLeftToSpend(view: View, inputs: MapPrevTx, tx: Tx, pos: DiskTxPos, o: Oracle)
    ensures SpendAll(view, PrevoutsFrom(tx, |tx.vin|), pos) == Some(view) && SignaturesVerify(inputs, tx, |tx.vin|, o)
  {
  }

  /** An entry replaced in the queue and among the fetched ones alike. */
  lemma EntryReplaced(entries: MapPrevTx, inputs: MapPrevTx, view: View, tx: Tx, hash: nat, index: TxIndex)
    requires EntriesMatch(entries, view, tx) && SameTxs(entries, inputs)
    requires hash in entries && |index.vSpent| == |entries[hash].index.vSpent|
    ensures EntriesMatch(entries[hash := entries[hash].(index := index)], view[hash := index], tx)
    ensures SameTxs(entries[hash := entries[hash].(index := index)], inputs)
  {
  }

  lemma EntryAt(entries: MapPrevTx, inputs: MapPrevTx, view: View, tx: Tx, i: nat)
    requires EntriesMatch(entries, view, tx) && SameTxs(entries, inputs) && i < |tx.vin| && !tx.SkipsInput(i)
    ensures var o := tx.vin[i].prevout;
            o.hash in entries && o.hash in inputs && entries[o.hash].tx == inputs[o.hash].tx &&
              entries[o.hash].index == view[o.hash] && InRange(view, o)
  {
  }

  /** Marks the previous output of input i as spent by pos, in the fetched entries and in the
      queue; it fails only on an output that is spent already or a signature that does not
      verify. */
  method SpendInput(entries: MapPrevTx, ghost inputs: MapPrevTx, ghost db: View, queued: View, tx: Tx, i: nat,
                    pos: DiskTxPos, o: Oracle)
    returns (ok: bool, entries': MapPrevTx, queued': View)
    requires i < |tx.vin| && !tx.SkipsInput(i) && EntriesMatch(entries, db + queued, tx) && SameTxs(entries, inputs)
    ensures !ok ==> SpendAll(db + queued, PrevoutsFrom(tx, i), pos).None? || !SignaturesVerify(inputs, tx, i, o)
    ensures ok ==> EntriesMatch(entries', db + queued', tx) && SameTxs(entries', inputs)
    ensures ok ==>
            SpendAll(db + queued', PrevoutsFrom(tx, i + 1), pos) == SpendAll(db + queued, PrevoutsFrom(tx, i), pos)
    ensures ok ==> (SignaturesVerify(inputs, tx, i + 1, o) <==> SignaturesVerify(inputs, tx, i, o))
  {
    entries', queued' := entries, queued;
    var prevout := tx.vin[i].prevout;
    EntryAt(entries, inputs, db + queued, tx, i);
    SpendStep(db, queued, tx, i, pos);
    SignatureStep(inputs, tx, i, o);
    hide SpendAll, PrevoutsFrom, EntriesMatch, SameTxs, SignaturesVerify;
    var e := entries[prevout.hash];
    if e.index.vSpent[prevout.n] != Unspent {
      return false, entries', queued';
    }
    if !o.verifySignature(e.tx, tx, i) {
      return false, entries', queued';
    }
    var index := e.index.(vSpent := e.index.vSpent[prevout.n := pos]);
    QueueEntry(db, queued, prevout.hash, index);
    EntryReplaced(entries, inputs, db + queued, tx, prevout.hash, index);
    entries' := entries[prevout.hash := e.(index := index)];
    queued' := queued[prevout.hash := index];
    ok := true;
  }

  /** Marks every previous output as spent by pos. */
  method SpendInputs(inputs: MapPrevTx, ghost db: View, queued: View, tx: Tx, pos: DiskTxPos, o: Oracle)
    returns (ok: bool, queued': View)
    requires EntriesMatch(inputs, db + queued, tx)
    ensures ok <==> SpendAll(db + queued, Prevouts(tx), pos).Some? && SignaturesVerify(inputs, tx, 0, o)
    ensures ok ==> SpendAll(db + queued, Prevouts(tx), pos) == Some(db + queued')
  {
    queued' := queued;
    var entries := inputs;
    var i := 0;
    assert SameTxs(entries, inputs);
    hide SpendAll, PrevoutsFrom, EntriesMatch, SameTxs, SignaturesVerify;
    while i < |tx.vin|
      invariant 0 <= i <= |tx.vin| && EntriesMatch(entries, db + queued', tx) && SameTxs(entries, inputs)
      invariant SpendAll(db + queued', PrevoutsFrom(tx, i), pos) == SpendAll(db + queued, Prevouts(tx), pos)
      invariant SignaturesVerify(inputs, tx, i, o) <==> SignaturesVerify(inputs, tx, 0, o)
    {
      if !tx.SkipsInput(i) {
        ok, entries, queued' := SpendInput(entries, inputs, db, queued', tx, i, pos, o);
        if !ok {
          return false, queued';
        }
      } else {
        SkippedInput(inputs, tx, i, o);
      }
      i := i + 1;
    }
    NothingLeftToSpend(db + queued', inputs, tx, pos, o);
    ok := true;
  }

  lemma SpendStep(db: View, queued: View, tx: Tx, i: nat, pos: DiskTxPos)
    requires i < |tx.vin| && !tx.SkipsInput(i) && InRange(db + queued, tx.vin[i].prevout)
    ensures var o := tx.vin[i].prevout;
            var index := (db + queued)[o.hash].(vSpent := (db + queued)[o.hash].vSpent[o.n := pos]);
            SpendAll(db + queued, PrevoutsFrom(tx, i), pos) ==
              if Spendable(db + queued, o) then SpendAll(db + queued[o.hash := index], PrevoutsFrom(tx, i + 1), pos)
                else None
  {
    var o := tx.vin[i].prevout;
    var index := (db + queued)[o.hash].(vSpent := (db + queued)[o.hash].vSpent[o.n := pos]);
    assert db + queued[o.hash := index] == Mark(db + queued, o, pos);
    assert PrevoutsFrom(tx, i) == [o] + PrevoutsFrom(tx, i + 1);
    assert PrevoutsFrom(tx, i)[1..] == PrevoutsFrom(tx, i + 1);
  }

  // ----- one transaction -----

  /** Every output value, and every partial sum of them, is in range. */
  predicate ValuesInRange(tx: Tx, k: nat)
    requires k <= |tx.vout|
  {
    k == 0 || (ValuesInRange(tx, k - 1) && MoneyRange(tx.vout[k - 1].nValue) && MoneyRange(ValueOutTo(tx, k)))
  }

  /** The value of a transaction's anonymous inputs. */
  function AnonIn(tx: Tx, o: Oracle): int {
    if tx.isAnonVersion && o.checkAnonInputs(tx).Some? then o.checkAnonInputs(tx).value else 0
  }

  /** Anonymous inputs are valid, and a transaction that is not a coinstake creates no value
      and pays its fee. */
  predicate PaysItsWay(nValueIn: int, tx: Tx, o: Oracle) {
    && (tx.isAnonVersion ==> o.checkAnonInputs(tx).Some?)
    && (!tx.IsCoinStake() ==>
          && ValuesInRange(tx, |tx.vout|)
          && var nTxFee := nValueIn + AnonIn(tx, o) - ValueOut(tx);
             nTxFee >= 0 && nTxFee >= o.minFee(tx) && MoneyRange(nTxFee))
  }

  /** Checks and spends a transaction's inputs. */
  method ConnectInputs(inputs: MapPrevTx, ghost db: View, queued: View, tx: Tx, pos: DiskTxPos, o: Oracle)
    returns (ok: bool, queued': View)
    requires tx.IsCoinBase() || EntriesMatch(inputs, db + queued, tx)
    ensures tx.IsCoinBase() ==> ok && queued' == queued
    ensures !tx.IsCoinBase() ==> (ok <==>
              && InputsPass(inputs, tx, 0, o) && MoneyRange(ValueInFrom(inputs, tx, 0))
              && SpendAll(db + queued, Prevouts(tx), pos).Some? && SignaturesVerify(inputs, tx, 0, o)
              && PaysItsWay(ValueInFrom(inputs, tx, 0), tx, o))
    ensures ok && !tx.IsCoinBase() ==> SpendAll(db + queued, Prevouts(tx), pos) == Some(db + queued')
  {
    queued' := queued;
    if tx.IsCoinBase() {
      return true, queued;
    }
    var nValueIn;
    ok, nValueIn := CheckInputs(inputs, tx, o);
    if !ok {
      return false, queued;
    }
    hide EntriesMatch, InputsPass, SignaturesVerify, SpendAll, ValueInFrom, ValueOut, ValuesInRange;
    ok, queued' := SpendInputs(inputs, db, queued, tx, pos, o);
    if !ok {
      return false, queued';
    }
    if tx.isAnonVersion {
      var nSumAnon := o.checkAnonInputs(tx);
      if nSumAnon.None? {
        return false, queued';
      }
      nValueIn := nValueIn + nSumAnon.value;
    }
    if !tx.IsCoinStake() {
      if !ValuesInRange(tx, |tx.vout|) {
        return false, queued';
      }
      if nValueIn < ValueOut(tx) {
        return false, queued';
      }
      var nTxFee := nValueIn - ValueOut(tx);
      if nTxFee < o.minFee(tx) || !MoneyRange(nTxFee) {
        return false, queued';
      }
    }
  }

  /** The sums a block's transactions add up to. */
  datatype Totals = Totals(nFees: int, nAnonIn: int, nAnonOut: int, nValueIn: int, nValueOut: int, nStakeReward: int)

  const NO_TOTALS := Totals(0, 0, 0, 0, 0, 0)

  /** The sums after one more transaction, connected on top of the view. */
  function AddTx(t: Totals, view: View, tx: Tx, o: Oracle): Totals {
    if tx.IsCoinBase() then t.(nValueOut := t.nValueOut + ValueOut(tx))
    else
      var nTxValueIn := PrevValues(view, Prevouts(tx)) + AnonIn(tx, o);
      Totals(
        if tx.IsCoinStake() then t.nFees else t.nFees + nTxValueIn - ValueOut(tx),
        t.nAnonIn + AnonIn(tx, o),
        t.nAnonOut + AnonOut(tx),
        t.nValueIn + nTxValueIn,
        t.nValueOut + ValueOut(tx),
        if tx.IsCoinStake() then ValueOut(tx) - nTxValueIn else t.nStakeReward)
  }

  lemma {:induction false} ValueInIsPrevValues(view: View, tx: Tx, inputs: MapPrevTx, i: nat)
    requires i <= |tx.vin| && Fetched(view, map[], tx, inputs)
    ensures ValueInFrom(inputs, tx, i) == PrevValues(view, PrevoutsFrom(tx, i))
    decreases |tx.vin| - i
  {
    if i < |tx.vin| {
      ValueInIsPrevValues(view, tx, inputs, i + 1);
      if tx.SkipsInput(i) {
        assert PrevoutsFrom(tx, i) == PrevoutsFrom(tx, i + 1);
      } else {
        assert PrevoutsFrom(tx, i) == [tx.vin[i].prevout] + PrevoutsFrom(tx, i + 1);
        assert PrevoutsFrom(tx, i)[1..] == PrevoutsFrom(tx, i + 1);
      }
    }
  }

  lemma FetchedMatches(view: View, tx: Tx, inputs: MapPrevTx)
    requires Fetched(view, map[], tx, inputs)
    ensures EntriesMatch(inputs, view, tx)
  {
  }

  /** What every input of a transaction has to satisfy, read from the index itself. */
  ghost predicate InputsAccepted(view: View, tx: Tx, o: Oracle) {
    forall i :: 0 <= i < |tx.vin| && !tx.SkipsInput(i) ==>
      && Fetchable(view, map[], tx.vin[i].prevout)
      && var prev := ReadTx(view[tx.vin[i].prevout.hash].pos).value;
         InputPasses(prev, tx, i, o) && o.verifySignature(prev, tx, i)
  }

  lemma FetchedInputsAccepted(view: View, tx: Tx, inputs: MapPrevTx, o: Oracle)
    requires Fetched(view, map[], tx, inputs)
    ensures InputsAccepted(view, tx, o) <==> InputsPass(inputs, tx, 0, o) && SignaturesVerify(inputs, tx, 0, o)
  {
  }

  /** A transaction that a block may contain on top of the index: everything about it that
      connecting it checks. */
  ghost predicate TxAccepted(view: View, tx: Tx, pos: DiskTxPos, o: Oracle) {
    !tx.IsCoinBase() ==>
      && InputsAccepted(view, tx, o)
      && MoneyRange(PrevValues(view, Prevouts(tx)))
      && SpendAll(view, Prevouts(tx), pos).Some?
      && PaysItsWay(PrevValues(view, Prevouts(tx)), tx, o)
  }

  function TxSigOps(tx: Tx, o: Oracle): nat {
    o.legacySigOps(tx) + if tx.IsCoinBase() then 0 else o.p2shSigOps(tx)
  }

  lemma QueueEntry(db: View, queued: View, hash: nat, e: TxIndex)
    ensures db + queued[hash := e] == (db + queued)[hash := e]
  {
  }

  /** AnonOut counts nothing in a transaction of ordinary version. */
  lemma {:induction false} OrdinaryHasNoAnonOut(tx: Tx, k: nat)
    requires k <= |tx.vout| && !tx.isAnonVersion
    ensures AnonOutTo(tx, k) == 0
    decreases k
  {
    if k > 0 {
      OrdinaryHasNoAnonOut(tx, k - 1);
    }
  }

  lemma NotFetchable(view: View, tx: Tx, o: Oracle)
    requires exists i :: 0 <= i < |tx.vin| && !tx.SkipsInput(i) && !Fetchable(view, map[], tx.vin[i].prevout)
    ensures !InputsAccepted(view, tx, o)
  {
  }

  /** Fetches a transaction's inputs, adds up its sums, and spends the inputs. */
  method ConnectOrdinary(db: View, queued: View, tx: Tx, pos: DiskTxPos, t: Totals, nSigOps: nat, o: Oracle)
    returns (ok: bool, queued': View, t': Totals, nSigOps': nat)
    requires !tx.IsCoinBase()
    ensures ok <==> TxAccepted(db + queued, tx, pos, o) && nSigOps + o.p2shSigOps(tx) <= MAX_BLOCK_SIGOPS
    ensures ok ==> SpendAll(db + queued, Prevouts(tx), pos) == Some(db + queued')
    ensures ok ==> t' == AddTx(t, db + queued, tx, o) && nSigOps' == nSigOps + o.p2shSigOps(tx)
  {
    var inputs;
    queued', t', nSigOps' := queued, t, nSigOps;
    ok, inputs := FetchInputs(db, queued, map[], tx);
    hide Fetchable, Fetched, InputsAccepted, EntriesMatch, InputsPass, SignaturesVerify, SpendAll, PrevValues,
      ValueInFrom, ValueOut;
    if !ok {
      NotFetchable(db + queued, tx, o);
      return false, queued', t', nSigOps';
    }
    nSigOps' := nSigOps + o.p2shSigOps(tx);
    if nSigOps' > MAX_BLOCK_SIGOPS {
      return false, queued', t', nSigOps';
    }
    var nTxValueIn, nAnonOut, nAnonIn := ValueInFrom(inputs, tx, 0), 0, 0;
    ValueInIsPrevValues(db + queued, tx, inputs, 0);
    FetchedMatches(db + queued, tx, inputs);
    FetchedInputsAccepted(db + queued, tx, inputs, o);
    if tx.isAnonVersion {
      nAnonOut := AnonOut(tx);
      if o.checkAnonInputs(tx).None? {
        return false, queued', t', nSigOps';
      }
      nAnonIn := o.checkAnonInputs(tx).value;
      nTxValueIn := nTxValueIn + nAnonIn;
    } else {
      OrdinaryHasNoAnonOut(tx, |tx.vout|);
    }
    t' := Totals(if tx.IsCoinStake() then t.nFees else t.nFees + nTxValueIn - ValueOut(tx), t.nAnonIn + nAnonIn,
                 t.nAnonOut + nAnonOut, t.nValueIn + nTxValueIn, t.nValueOut + ValueOut(tx),
                 if tx.IsCoinStake() then ValueOut(tx) - nTxValueIn else t.nStakeReward);
    hide PaysItsWay;
    ok, queued' := ConnectInputs(inputs, db, queued, tx, pos, o);
  }

  /** Connects transaction i of a block on top of the queued changes. */
  method ConnectTransaction(db: View, queued: View, block: Block, i: nat, t: Totals, nSigOps: nat, o: Oracle)
    returns (ok: bool, queued': View, t': Totals, nSigOps': nat)
    requires i < |block.vtx|
    ensures ok <==> MayOverwrite(db, block.vtx[i].hash) && TxAccepted(db + queued, block.vtx[i], At(block, i), o) &&
                    nSigOps + TxSigOps(block.vtx[i], o) <= MAX_BLOCK_SIGOPS
    ensures ok ==> ConnectTx(db + queued, block.vtx[i], At(block, i)) == Some(db + queued')
    ensures ok ==> t' == AddTx(t, db + queued, block.vtx[i], o) && nSigOps' == nSigOps + TxSigOps(block.vtx[i], o)
  {
    hide SpendAll, MayOverwrite, ValueOut, PrevValues, InputsAccepted, PaysItsWay, Prevouts;
    var tx, pos := block.vtx[i], At(block, i);
    queued', t', nSigOps' := queued, t, nSigOps;
    if !MayOverwrite(db, tx.hash) {
      return false, queued', t', nSigOps';
    }
    nSigOps' := nSigOps + o.legacySigOps(tx);
    if nSigOps' > MAX_BLOCK_SIGOPS {
      return false, queued', t', nSigOps';
    }
    if tx.IsCoinBase() {
      t' := t.(nValueOut := t.nValueOut + ValueOut(tx));
    } else {
      ok, queued', t', nSigOps' := ConnectOrdinary(db, queued, tx, pos, t, nSigOps', o);
      if !ok {
        return false, queued', t', nSigOps';
      }
    }
    QueueEntry(db, queued', tx.hash, NewTxIndex(pos, |tx.vout|));
    queued' := queued'[tx.hash := NewTxIndex(pos, |tx.vout|)];
    ok := true;
  }

  // ----- one block -----

  predicate IsProofOfStake(block: Block) {
    |block.vtx| > 1 && block.vtx[1].IsCoinStake()
  }

  /** The checks of a block that do not depend on where it is. */
  predicate CheckBlock(block: Block, o: Oracle) {
    && block.vtx != [] && block.vtx[0].IsCoinBase()
    && (forall i :: 1 <= i < |block.vtx| ==> !block.vtx[i].IsCoinBase())
    && (IsProofOfStake(block) ==>
          && |block.vtx[0].vout| == 1 && block.vtx[0].vout[0].IsEmpty()
          && forall i :: 2 <= i < |block.vtx| ==> !block.vtx[i].IsCoinStake())
    && (forall i, j :: 0 <= i < j < |block.vtx| ==> block.vtx[i].hash != block.vtx[j].hash)
    && o.blockChecks(block)
  }

  /** The money supply recorded with a block. */
  datatype SupplyInfo = SupplyInfo(nMint: int, nMoneySupply: int, nAnonSupply: int)

  const NO_SUPPLY := SupplyInfo(0, 0, 0)

  function SupplyAfter(prev: SupplyInfo, t: Totals): SupplyInfo {
    SupplyInfo(t.nValueOut - t.nValueIn + t.nFees, prev.nMoneySupply + t.nValueOut - t.nValueIn,
               prev.nAnonSupply + t.nAnonOut - t.nAnonIn)
  }

  /** The sums after the first i transactions of a block. */
  function BlockTotals(view: View, block: Block, o: Oracle, i: nat): Totals
    requires i <= |block.vtx|
  {
    if i == 0 || ConnectTxs(view, block, i - 1).None? then NO_TOTALS
    else AddTx(BlockTotals(view, block, o, i - 1), ConnectTxs(view, block, i - 1).value, block.vtx[i - 1], o)
  }

  /** The signature operations of the first i transactions. */
  function BlockSigOps(block: Block, o: Oracle, i: nat): nat
    requires i <= |block.vtx|
  {
    if i == 0 then 0 else BlockSigOps(block, o, i - 1) + TxSigOps(block.vtx[i - 1], o)
  }

  /** What the block pays out is within what it may earn. */
  predicate RewardAllowed(block: Block, t: Totals, o: Oracle) {
    if IsProofOfStake(block) then
      t.nStakeReward <= o.stakeSubsidy(block) + t.nFees && o.donationPaid(block, o.stakeSubsidy(block) + t.nFees)
    else
      block.vtx != [] && ValueOut(block.vtx[0]) <= o.proofOfWorkReward(block, t.nFees)
  }

  /** Transaction i may follow the ones before it. */
  ghost predicate StepAccepted(view: View, block: Block, o: Oracle, i: nat) {
    && i < |block.vtx| && MayOverwrite(view, block.vtx[i].hash)
    && ConnectTxs(view, block, i).Some? && TxAccepted(ConnectTxs(view, block, i).value, block.vtx[i], At(block, i), o)
  }

  /** All its transactions may follow each other. */
  ghost predicate AllAccepted(view: View, block: Block, o: Oracle) {
    && (forall i :: 0 <= i < |block.vtx| ==> StepAccepted(view, block, o, i))
    && BlockSigOps(block, o, |block.vtx|) <= MAX_BLOCK_SIGOPS
  }

  /** A block that may extend a chain whose index is view. */
  ghost predicate Acceptable(view: View, block: Block, o: Oracle) {
    && CheckBlock(block, o)
    && AllAccepted(view, block, o)
    && RewardAllowed(block, BlockTotals(view, block, o, |block.vtx|), o)
  }

  /** What a block that connects has passed, and what it leaves behind. */
  ghost predicate Connected(view: View, block: Block, o: Oracle, prev: SupplyInfo, view': View, supply: SupplyInfo) {
    && Acceptable(view, block, o)
    && ConnectTxs(view, block, |block.vtx|) == Some(view')
    && supply == SupplyAfter(prev, BlockTotals(view, block, o, |block.vtx|))
  }

  lemma {:induction false} SigOpsGrow(block: Block, o: Oracle, i: nat, j: nat)
    requires i <= j <= |block.vtx|
    ensures BlockSigOps(block, o, i) <= BlockSigOps(block, o, j)
    decreases j
  {
    if i < j {
      SigOpsGrow(block, o, i, j - 1);
    }
  }

  /** One transaction that does not pass makes the block unacceptable. */
  lemma StepRefused(view: View, block: Block, o: Oracle, i: nat)
    requires i < |block.vtx|
    requires !StepAccepted(view, block, o, i) || BlockSigOps(block, o, i + 1) > MAX_BLOCK_SIGOPS
    ensures !AllAccepted(view, block, o)
  {
    SigOpsGrow(block, o, i + 1, |block.vtx|);
  }

  /** Connects the block's transactions in order, in the queue only. */
  method ConnectTransactions(db: View, block: Block, o: Oracle) returns (ok: bool, queued: View, t: Totals)
    ensures ok <==> AllAccepted(db, block, o)
    ensures ok ==>
            ConnectTxs(db, block, |block.vtx|) == Some(db + queued) && t == BlockTotals(db, block, o, |block.vtx|)
  {
    hide MayOverwrite, TxAccepted, AddTx, ConnectTx, TxSigOps;
    var nSigOps := 0;
    queued, t := map[], NO_TOTALS;
    assert db + queued == db;
    for i := 0 to |block.vtx|
      invariant ConnectTxs(db, block, i) == Some(db + queued) && t == BlockTotals(db, block, o, i)
      invariant nSigOps == BlockSigOps(block, o, i) <= MAX_BLOCK_SIGOPS
      invariant forall j :: 0 <= j < i ==> StepAccepted(db, block, o, j)
    {
      ok, queued, t, nSigOps := ConnectTransaction(db, queued, block, i, t, nSigOps, o);
      if !ok {
        StepRefused(db, block, o, i);
        return false, queued, t;
      }
    }
    ok := true;
  }

  /** Connects a block, exactly when it is acceptable: the new index and supply, or the old
      ones. */
  method ConnectBlock(db: View, block: Block, o: Oracle, prev: SupplyInfo)
    returns (ok: bool, db': View, supply: SupplyInfo)
    ensures ok <==> Acceptable(db, block, o)
    ensures ok ==> Connected(db, block, o, prev, db', supply)
    ensures !ok ==> db' == db && supply == prev
  {
    db', supply := db, prev;
    if !CheckBlock(block, o) {
      return false, db, prev;
    }
    var queued, t;
    ok, queued, t := ConnectTransactions(db, block, o);
    if !ok {
      return false, db, prev;
    }
    hide AllAccepted, ConnectTxs, BlockTotals, ValueOut;
    if IsProofOfStake(block) {
      var nCalculatedStakeReward := o.stakeSubsidy(block) + t.nFees;
      if t.nStakeReward > nCalculatedStakeReward || !o.donationPaid(block, nCalculatedStakeReward) {
        return false, db, prev;
      }
    } else if ValueOut(block.vtx[0]) > o.proofOfWorkReward(block, t.nFees) {
      return false, db, prev;
    }
    supply := SupplyAfter(prev, t);
    db' := db + queued;
    ok := true;
  }

  /** Gives back the outputs a transaction spent and forgets the transaction. */
  method DisconnectInputs(db: View, tx: Tx) returns (ok: bool, db': View)
    ensures ok <==> DisconnectTx(db, tx).Some?
    ensures ok ==> DisconnectTx(db, tx) == Some(db')
  {
    db' := db;
    if !tx.IsCoinBase() {
      for i := 0 to |tx.vin|
        invariant GiveBackAll(db', GivebacksFrom(tx, i)) == GiveBackAll(db, Givebacks(tx))
      {
        GivebackStep(db', tx, i);
        hide GiveBackAll, GivebacksFrom;
        var prevout := tx.vin[i].prevout;
        if !tx.vin[i].isAnon && prevout.hash in db' {
          var txindex := db'[prevout.hash];
          if prevout.n >= |txindex.vSpent| {
            return false, db';
          }
          db' := db'[prevout.hash := txindex.(vSpent := txindex.vSpent[prevout.n := Unspent])];
        }
      }
    }
    db' := db' - {tx.hash};
    ok := true;
  }

  lemma GivebackStep(db: View, tx: Tx, i: nat)
    requires i < |tx.vin|
    ensures var o := tx.vin[i].prevout;
            GiveBackAll(db, GivebacksFrom(tx, i)) ==
              if tx.vin[i].isAnon || o.hash !in db then GiveBackAll(db, GivebacksFrom(tx, i + 1))
              else if o.n >= |db[o.hash].vSpent| then None
              else GiveBackAll(Mark(db, o, Unspent), GivebacksFrom(tx, i + 1))
  {
    if tx.vin[i].isAnon {
      assert GivebacksFrom(tx, i) == GivebacksFrom(tx, i + 1);
    } else {
      assert GivebacksFrom(tx, i) == [tx.vin[i].prevout] + GivebacksFrom(tx, i + 1);
      assert GivebacksFrom(tx, i)[1..] == GivebacksFrom(tx, i + 1);
    }
  }

  /** Disconnects a block, last transaction first. */
  method DisconnectBlock(db: View, block: Block) returns (ok: bool, db': View)
    ensures ok <==> DisconnectTxs(db, block, |block.vtx|).Some?
    ensures ok ==> DisconnectTxs(db, block, |block.vtx|) == Some(db')
  {
    db' := db;
    var i := |block.vtx|;
    while i > 0
      invariant 0 <= i <= |block.vtx| && DisconnectTxs(db', block, i) == DisconnectTxs(db, block, |block.vtx|)
    {
      ok, db' := DisconnectInputs(db', block.vtx[i - 1]);
      if !ok {
        return false, db';
      }
      i := i - 1;
    }
    ok := true;
  }

  // ----- which blocks can be undone -----

  /** No signature check passes for an input of anonymous shape in an ordinary transaction: its script
      starts with an operation that fails. */
  ghost predicate RejectsAnonShapes(o: Oracle) {
    forall prev: Tx, tx: Tx, i: nat :: i < |tx.vin| && tx.vin[i].isAnon && !tx.isAnonVersion ==>
      !o.verifySignature(prev, tx, i)
  }

  /** While signatures are checked, an acceptable block has no input that is spent and not given
      back, so it can be undone exactly when its transactions are new to the index. */
  lemma {:induction false} CheckedBlocksAreUndoable(view: View, block: Block, o: Oracle)
    requires RejectsAnonShapes(o) && Acceptable(view, block, o)
    ensures AnonShapesStayInside(view, block)
    ensures Undoable(view, block) <==> AllNew(view, block)
  {
    forall i | 0 <= i < |block.vtx| ensures forall j :: !Straddles(block.vtx[i], j) {
      NothingStraddles(view, block, o, i);
    }
  }

  lemma {:induction false} NothingStraddles(view: View, block: Block, o: Oracle, i: nat)
    requires RejectsAnonShapes(o) && AllAccepted(view, block, o) && i < |block.vtx|
    ensures forall j :: !Straddles(block.vtx[i], j)
  {
    assert StepAccepted(view, block, o, i);
    var tx, before := block.vtx[i], ConnectTxs(view, block, i).value;
    hide ConnectTxs, SpendAll, PaysItsWay, MayOverwrite, AllAccepted;
    if !tx.IsCoinBase() {
      forall j | 0 <= j < |tx.vin| && !tx.SkipsInput(j) ensures tx.isAnonVersion || !tx.vin[j].isAnon {
        var prev := ReadTx(before[tx.vin[j].prevout.hash].pos).value;
        assert o.verifySignature(prev, tx, j);
      }
    }
  }

  // ----- conservation -----

  /** Every input of the block names a transparent output, in the index its transaction is
      connected on. */
  ghost predicate SpendsTransparent(view: View, block: Block) {
    forall i :: 0 <= i < |block.vtx| && !block.vtx[i].IsCoinBase() && ConnectTxs(view, block, i).Some? ==>
      forall o :: o in Prevouts(block.vtx[i]) ==> NamesTransparent(ConnectTxs(view, block, i).value, o)
  }

  /** The block's own transactions are not overwritten inside the block either. */
  lemma {:induction false} StaysOverwritable(view: View, block: Block, i: nat, hash: nat)
    requires i <= |block.vtx| && ConnectTxs(view, block, i).Some? && MayOverwrite(view, hash)
    requires forall j :: 0 <= j < i ==> block.vtx[j].hash != hash
    ensures MayOverwrite(ConnectTxs(view, block, i).value, hash)
    decreases i
  {
    if i > 0 {
      var before, tx := ConnectTxs(view, block, i - 1).value, block.vtx[i - 1];
      StaysOverwritable(view, block, i - 1, hash);
      if !tx.IsCoinBase() {
        SpendAllMarks(before, Prevouts(tx), At(block, i - 1));
        var after := ConnectTxs(view, block, i).value;
        if hash in after {
          forall n | 0 <= n < |after[hash].vSpent| ensures after[hash].vSpent[n] != Unspent {
            assert before[hash].vSpent[n] in before[hash].vSpent;
          }
        }
      }
    }
  }

  lemma BlockStep(view: View, block: Block, o: Oracle, i: nat)
    requires 0 < i <= |block.vtx| && ConnectTxs(view, block, i).Some?
    ensures ConnectTxs(view, block, i - 1).Some?
    ensures var before, tx := ConnectTxs(view, block, i - 1).value, block.vtx[i - 1];
            ConnectTxs(view, block, i) == ConnectTx(before, tx, At(block, i - 1)) &&
            BlockTotals(view, block, o, i) == AddTx(BlockTotals(view, block, o, i - 1), before, tx, o)
  {
  }

  /** Up to every transaction of a block, the index's unspent transparent value has changed
      by the change in money supply less the change in anonymous supply. */
  lemma {:induction false} TotalOfConnectTxs(view: View, block: Block, o: Oracle, i: nat)
    requires i <= |block.vtx| && ConnectTxs(view, block, i).Some? && DistinctTxids(block) &&
             SpendsTransparent(view, block)
    requires forall j :: 0 <= j < |block.vtx| ==> MayOverwrite(view, block.vtx[j].hash)
    ensures var t := BlockTotals(view, block, o, i);
            Total(ConnectTxs(view, block, i).value) - Total(view) ==
              (t.nValueOut - t.nValueIn) - (t.nAnonOut - t.nAnonIn)
    decreases i
  {
    if i > 0 {
      var tx, before := block.vtx[i - 1], ConnectTxs(view, block, i - 1).value;
      StaysOverwritable(view, block, i - 1, tx.hash);
      TransparentAt(view, block, i - 1);
      BlockStep(view, block, o, i);
      hide SpendsTransparent, MayOverwrite, Total, NamesTransparent, ConnectTx, AddTx, DistinctTxids, ConnectTxs,
        BlockTotals;
      TotalOfConnectTxs(view, block, o, i - 1);
      TotalOfConnectTx(before, tx, At(block, i - 1));
      AddTxBalance(BlockTotals(view, block, o, i - 1), before, tx, o);
    }
  }

  lemma TransparentAt(view: View, block: Block, i: nat)
    requires i < |block.vtx| && ConnectTxs(view, block, i).Some? && SpendsTransparent(view, block)
    ensures !block.vtx[i].IsCoinBase() ==>
              forall o :: o in Prevouts(block.vtx[i]) ==> NamesTransparent(ConnectTxs(view, block, i).value, o)
  {
  }

  lemma AddTxBalance(t: Totals, view: View, tx: Tx, o: Oracle)
    ensures var t' := AddTx(t, view, tx, o);
            (t'.nValueOut - t'.nValueIn) - (t'.nAnonOut - t'.nAnonIn) ==
              (t.nValueOut - t.nValueIn) - (t.nAnonOut - t.nAnonIn)
            + ValueOut(tx) - AnonOut(tx) - if tx.IsCoinBase() then 0 else PrevValues(view, Prevouts(tx))
  {
    if tx.IsCoinBase() {
      CoinBaseHasNoAnonOut(tx, |tx.vout|);
    }
  }

  lemma {:induction false} CoinBaseHasNoAnonOut(tx: Tx, k: nat)
    requires k <= |tx.vout| && tx.IsCoinBase()
    ensures AnonOutTo(tx, k) == 0
    decreases k
  {
    if k > 0 {
      CoinBaseHasNoAnonOut(tx, k - 1);
    }
  }

  /** Conservation for a block: money supply less anonymous supply moves exactly as the
      unspent transparent value of the index does. */
  lemma BlockConservesSupply(view: View, block: Block, o: Oracle, prev: SupplyInfo, view': View, supply: SupplyInfo)
    requires Connected(view, block, o, prev, view', supply) && SpendsTransparent(view, block)
    ensures (supply.nMoneySupply - supply.nAnonSupply) - (prev.nMoneySupply - prev.nAnonSupply) ==
            Total(view') - Total(view)
  {
    forall i | 0 <= i < |block.vtx| ensures MayOverwrite(view, block.vtx[i].hash) {
      assert StepAccepted(view, block, o, i);
    }
    TotalOfConnectTxs(view, block, o, |block.vtx|);
  }

  /** In a proof-of-stake block only the coinstake adds to the supply, and fees are burned. */
  lemma {:induction false} StakeTotals(view: View, block: Block, o: Oracle, i: nat)
    requires CheckBlock(block, o) && IsProofOfStake(block) && i <= |block.vtx| && ConnectTxs(view, block, i).Some?
    ensures var t := BlockTotals(view, block, o, i); t.nValueOut - t.nValueIn == t.nStakeReward - t.nFees
    ensures i < 2 ==> BlockTotals(view, block, o, i).nStakeReward == 0
    decreases i
  {
    if i > 0 {
      StakeTotals(view, block, o, i - 1);
      if i == 1 {
        EmptyCoinBase(block.vtx[0]);
      }
    }
  }

  lemma EmptyCoinBase(tx: Tx)
    requires |tx.vout| == 1 && tx.vout[0].IsEmpty()
    ensures ValueOut(tx) == 0
  {
    assert ValueOutTo(tx, 0) == 0;
  }

  /** A proof-of-stake block raises the money supply by at most the stake subsidy. */
  lemma StakeMintsAtMostSubsidy(view: View, block: Block, o: Oracle, prev: SupplyInfo, view': View, supply: SupplyInfo)
    requires Connected(view, block, o, prev, view', supply) && IsProofOfStake(block)
    ensures supply.nMoneySupply - prev.nMoneySupply <= o.stakeSubsidy(block)
    ensures supply.nMint == BlockTotals(view, block, o, |block.vtx|).nStakeReward
  {
    StakeTotals(view, block, o, |block.vtx|);
  }
}
