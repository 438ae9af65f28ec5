/** What connecting accepts, written out on the transactions of a block and the entries of the index. */
module BlockLaws {
  import opened Basics
  import opened ConnectBlocks
  import opened Supply
  import opened TxIndexing

  // ----- the inputs, one by one -----

  lemma {:induction false} PrevoutsAre(tx: Tx, i: nat, o: OutPoint)
    requires i <= |tx.vin|
    ensures o in PrevoutsFrom(tx, i) <==>
              exists j :: i <= j < |tx.vin| && !(tx.isAnonVersion && tx.vin[j].isAnon) && tx.vin[j].prevout == o
    decreases |tx.vin| - i
  {
    if i < |tx.vin| {
      PrevoutsAre(tx, i + 1, o);
    }
  }

  ghost predicate AllDiffer(ins: seq<OutPoint>) {
    forall i, j :: 0 <= i < j < |ins| ==> ins[i] != ins[j]
  }

  lemma OneMoreDiffers(o: OutPoint, ins: seq<OutPoint>)
    ensures AllDiffer([o] + ins) <==> o !in ins && AllDiffer(ins)
  {
    var all := [o] + ins;
    assert forall i :: 0 <= i < |ins| ==> ins[i] == all[i + 1];
    if AllDiffer(all) {
      assert all[0] == o;
    }
  }

  /** No two inputs that count, from i on, name the same output. */
  ghost predicate InputsDiffer(tx: Tx, i: nat) {
    forall j, k :: i <= j < k < |tx.vin| && !tx.SkipsInput(j) && !tx.SkipsInput(k) ==>
      tx.vin[j].prevout != tx.vin[k].prevout
  }

  lemma {:induction false} PrevoutsDiffer(tx: Tx, i: nat)
    requires i <= |tx.vin|
    ensures AllDiffer(PrevoutsFrom(tx, i)) <==> InputsDiffer(tx, i)
    decreases |tx.vin| - i
  {
    if i < |tx.vin| {
      PrevoutsDiffer(tx, i + 1);
      if tx.SkipsInput(i) {
        assert PrevoutsFrom(tx, i) == PrevoutsFrom(tx, i + 1);
        SkippedDiffers(tx, i);
      } else {
        assert PrevoutsFrom(tx, i) == [tx.vin[i].prevout] + PrevoutsFrom(tx, i + 1);
        OneMoreDiffers(tx.vin[i].prevout, PrevoutsFrom(tx, i + 1));
        PrevoutsAre(tx, i + 1, tx.vin[i].prevout);
        CountedDiffers(tx, i);
      }
    }
  }

  lemma SkippedDiffers(tx: Tx, i: nat)
    requires i < |tx.vin| && tx.SkipsInput(i)
    ensures InputsDiffer(tx, i) <==> InputsDiffer(tx, i + 1)
  {
  }

  lemma CountedDiffers(tx: Tx, i: nat)
    requires i < |tx.vin| && !tx.SkipsInput(i)
    ensures InputsDiffer(tx, i) <==>
              InputsDiffer(tx, i + 1) &&
              !exists j :: i < j < |tx.vin| && !tx.SkipsInput(j) && tx.vin[j].prevout == tx.vin[i].prevout
  {
  }

  ghost predicate AllSpendable(view: View, ins: seq<OutPoint>) {
    forall o :: o in ins ==> Spendable(view, o)
  }

  /** Spending succeeds exactly on different unspent outputs. */
  lemma {:induction false} SpendAllExactly(view: View, ins: seq<OutPoint>, pos: DiskTxPos)
    requires pos != Unspent
    ensures SpendAll(view, ins, pos).Some? <==> AllSpendable(view, ins) && AllDiffer(ins)
    decreases |ins|
  {
    if ins != [] {
      assert ins == [ins[0]] + ins[1..];
      OneMoreDiffers(ins[0], ins[1..]);
      if Spendable(view, ins[0]) {
        SpendAllExactly(Mark(view, ins[0], pos), ins[1..], pos);
        FirstIsMarked(view, ins, pos);
      } else {
        assert ins[0] in ins;
      }
    }
  }

  lemma FirstIsMarked(view: View, ins: seq<OutPoint>, pos: DiskTxPos)
    requires pos != Unspent && ins != [] && Spendable(view, ins[0])
    ensures AllSpendable(Mark(view, ins[0], pos), ins[1..]) <==> AllSpendable(view, ins) && ins[0] !in ins[1..]
  {
    var first, rest, after := ins[0], ins[1..], Mark(view, ins[0], pos);
    assert ins == [first] + rest;
    assert forall o :: Spendable(after, o) <==> Spendable(view, o) && o != first;
  }

  lemma {:induction false} SkippedOrCounted(view: View, tx: Tx, pos: DiskTxPos)
    requires pos != Unspent
    ensures SpendAll(view, Prevouts(tx), pos).Some? <==>
              && (forall i :: 0 <= i < |tx.vin| && !tx.SkipsInput(i) ==> Spendable(view, tx.vin[i].prevout))
              && InputsDiffer(tx, 0)
  {
    SpendAllExactly(view, Prevouts(tx), pos);
    PrevoutsDiffer(tx, 0);
    forall o ensures o in Prevouts(tx) <==>
                       exists j :: 0 <= j < |tx.vin| && !tx.SkipsInput(j) && tx.vin[j].prevout == o
    {
      PrevoutsAre(tx, 0, o);
    }
    hide PrevoutsFrom, Prevouts, SpendAll, Spendable;
    if AllSpendable(view, Prevouts(tx)) {
      forall i | 0 <= i < |tx.vin| && !tx.SkipsInput(i) ensures Spendable(view, tx.vin[i].prevout) {
        assert tx.vin[i].prevout in Prevouts(tx);
      }
    }
  }

  // ----- sums -----

  /** The value of the inputs is added up from the last one: an input that takes its value from
      anonymous outputs adds nothing, and any other adds the value of the output that it names. */
  lemma InputValuesAre(view: View, tx: Tx, i: nat)
    requires i <= |tx.vin|
    ensures Prevouts(tx) == PrevoutsFrom(tx, 0)
    ensures i == |tx.vin| ==> PrevValues(view, PrevoutsFrom(tx, i)) == 0
    ensures i < |tx.vin| && tx.isAnonVersion && tx.vin[i].isAnon ==>
              PrevValues(view, PrevoutsFrom(tx, i)) == PrevValues(view, PrevoutsFrom(tx, i + 1))
    ensures i < |tx.vin| && !(tx.isAnonVersion && tx.vin[i].isAnon) ==>
              var p := tx.vin[i].prevout;
              p.hash in view && view[p.hash].pos.At? && view[p.hash].pos.i < |view[p.hash].pos.block.vtx| &&
                p.n < |view[p.hash].pos.block.vtx[view[p.hash].pos.i].vout| ==>
                PrevValues(view, PrevoutsFrom(tx, i)) ==
                  view[p.hash].pos.block.vtx[view[p.hash].pos.i].vout[p.n].nValue +
                  PrevValues(view, PrevoutsFrom(tx, i + 1))
  {
    if i < |tx.vin| {
      if tx.SkipsInput(i) {
        assert PrevoutsFrom(tx, i) == PrevoutsFrom(tx, i + 1);
      } else {
        assert PrevoutsFrom(tx, i) == [tx.vin[i].prevout] + PrevoutsFrom(tx, i + 1);
        assert PrevoutsFrom(tx, i)[1..] == PrevoutsFrom(tx, i + 1);
      }
    }
  }

  /** The values of the outputs are added up from the first one; a coinbase transaction and one of
      ordinary version add nothing to the anonymous supply. */
  lemma OutputValuesAre(tx: Tx, k: nat)
    requires k < |tx.vout|
    ensures ValueOut(tx) == ValueOutTo(tx, |tx.vout|) && AnonOut(tx) == AnonOutTo(tx, |tx.vout|)
    ensures ValueOutTo(tx, 0) == AnonOutTo(tx, 0) == 0
    ensures ValueOutTo(tx, k + 1) - ValueOutTo(tx, k) == tx.vout[k].nValue
    ensures AnonOutTo(tx, k + 1) - AnonOutTo(tx, k) ==
            if tx.vout[k].isAnon && tx.isAnonVersion && !tx.IsCoinBase() then tx.vout[k].nValue else 0
  {
  }

  lemma {:induction false} RangesAre(tx: Tx, k: nat)
    requires k <= |tx.vout|
    ensures ValuesInRange(tx, k) <==>
              forall n :: 0 <= n < k ==>
                0 <= tx.vout[n].nValue <= 9223372036854775807 && 0 <= ValueOutTo(tx, n + 1) <= 9223372036854775807
  {
    if k > 0 {
      RangesAre(tx, k - 1);
    }
  }

  // ----- one transaction -----

  lemma MarkersAre(tx: Tx)
    ensures tx.IsCoinBase() <==>
              |tx.vin| == 1 && tx.vin[0].prevout.hash == 0 && tx.vin[0].prevout.n == 4294967295 && tx.vout != []
    ensures tx.IsCoinStake() <==>
              && tx.vin != [] && (tx.vin[0].prevout.hash != 0 || tx.vin[0].prevout.n != 4294967295)
              && 2 <= |tx.vout| && tx.vout[0].nValue == 0 && tx.vout[0].scriptEmpty
  {
  }

  ghost predicate InputAccepted(view: View, tx: Tx, i: nat, o: Oracle)
    requires i < |tx.vin|
  {
    && Spendable(view, tx.vin[i].prevout) && Fetchable(view, map[], tx.vin[i].prevout)
    && var prev := ReadTx(view[tx.vin[i].prevout.hash].pos).value;
       InputPasses(prev, tx, i, o) && o.verifySignature(prev, tx, i)
  }

  lemma InputExactly(view: View, tx: Tx, i: nat, o: Oracle)
    requires i < |tx.vin|
    ensures InputAccepted(view, tx, i, o) <==>
              var p := tx.vin[i].prevout;
              && p.hash in view && view[p.hash].pos.At? && view[p.hash].pos.i < |view[p.hash].pos.block.vtx|
              && p.n < |view[p.hash].vSpent| && view[p.hash].vSpent[p.n].Unspent?
              && var prev := view[p.hash].pos.block.vtx[view[p.hash].pos.i];
                 && p.n < |prev.vout| && 0 <= prev.vout[p.n].nValue <= 9223372036854775807
                 && tx.nTime >= prev.nTime && o.spendAllowed(tx, prev, i) && o.verifySignature(prev, tx, i)
  {
  }

  lemma InputsAreAccepted(view: View, tx: Tx, pos: DiskTxPos, o: Oracle)
    requires pos != Unspent
    ensures InputsAccepted(view, tx, o) && SpendAll(view, Prevouts(tx), pos).Some? <==>
              && (forall i :: 0 <= i < |tx.vin| && !tx.SkipsInput(i) ==> InputAccepted(view, tx, i, o))
              && InputsDiffer(tx, 0)
  {
    SkippedOrCounted(view, tx, pos);
    hide SpendAll, Prevouts, Spendable, Fetchable, InputPasses, InputsDiffer, ReadTx;
  }

  /** A transaction is accepted on top of an index exactly when it is a coinbase, or every input
      that does not take its value from anonymous outputs is accepted, no two of these name the same
      output, their values add up to a possible amount, the anonymous inputs of an anonymous
      transaction are valid, and, unless it is a coinstake, its outputs and their sums are possible
      amounts and what its inputs exceed its outputs by is at least the minimum fee, and a possible
      amount itself. */
  lemma AcceptedExactly(view: View, tx: Tx, pos: DiskTxPos, o: Oracle)
    requires pos != Unspent
    ensures TxAccepted(view, tx, pos, o) <==>
              tx.IsCoinBase() ||
              (&& (forall i :: 0 <= i < |tx.vin| && !(tx.isAnonVersion && tx.vin[i].isAnon) ==>
                     var p := tx.vin[i].prevout;
                     && p.hash in view && view[p.hash].pos.At? && view[p.hash].pos.i < |view[p.hash].pos.block.vtx|
                     && p.n < |view[p.hash].vSpent| && view[p.hash].vSpent[p.n].Unspent?
                     && var prev := view[p.hash].pos.block.vtx[view[p.hash].pos.i];
                        && p.n < |prev.vout| && 0 <= prev.vout[p.n].nValue <= 9223372036854775807
                        && tx.nTime >= prev.nTime && o.spendAllowed(tx, prev, i) && o.verifySignature(prev, tx, i))
               && (forall i, j :: 0 <= i < j < |tx.vin| && tx.vin[i].prevout == tx.vin[j].prevout ==>
                     tx.isAnonVersion && (tx.vin[i].isAnon || tx.vin[j].isAnon))
               && 0 <= PrevValues(view, Prevouts(tx)) <= 9223372036854775807
               && (tx.isAnonVersion ==> o.checkAnonInputs(tx).Some?)
               && (tx.IsCoinStake() ||
                   (&& (forall n :: 0 <= n < |tx.vout| ==>
                          0 <= tx.vout[n].nValue <= 9223372036854775807 &&
                          0 <= ValueOutTo(tx, n + 1) <= 9223372036854775807)
                    && var nValueIn := PrevValues(view, Prevouts(tx)) +
                                       (if tx.isAnonVersion then o.checkAnonInputs(tx).value else 0);
                       && ValueOut(tx) <= nValueIn && ValueOut(tx) + o.minFee(tx) <= nValueIn
                       && nValueIn <= ValueOut(tx) + 9223372036854775807)))
  {
    hide *;
    InputsExactly(view, tx, pos, o);
    PaysExactly(PrevValues(view, Prevouts(tx)), tx, o);
    AcceptedParts(view, tx, pos, o);
    DifferExactly(tx);
  }

  lemma AcceptedParts(view: View, tx: Tx, pos: DiskTxPos, o: Oracle)
    ensures TxAccepted(view, tx, pos, o) <==>
              tx.IsCoinBase() ||
              (&& InputsAccepted(view, tx, o) && SpendAll(view, Prevouts(tx), pos).Some?
               && 0 <= PrevValues(view, Prevouts(tx)) <= 9223372036854775807
               && PaysItsWay(PrevValues(view, Prevouts(tx)), tx, o))
  {
    hide SpendAll, PrevValues, PaysItsWay, InputsAccepted;
  }

  lemma DifferExactly(tx: Tx)
    ensures InputsDiffer(tx, 0) <==>
              forall i, j :: 0 <= i < j < |tx.vin| && tx.vin[i].prevout == tx.vin[j].prevout ==>
                tx.isAnonVersion && (tx.vin[i].isAnon || tx.vin[j].isAnon)
  {
  }

  lemma InputsExactly(view: View, tx: Tx, pos: DiskTxPos, o: Oracle)
    requires pos != Unspent
    ensures InputsAccepted(view, tx, o) && SpendAll(view, Prevouts(tx), pos).Some? <==>
              && (forall i :: 0 <= i < |tx.vin| && !(tx.isAnonVersion && tx.vin[i].isAnon) ==>
                    var p := tx.vin[i].prevout;
                    && p.hash in view && view[p.hash].pos.At? && view[p.hash].pos.i < |view[p.hash].pos.block.vtx|
                    && p.n < |view[p.hash].vSpent| && view[p.hash].vSpent[p.n].Unspent?
                    && var prev := view[p.hash].pos.block.vtx[view[p.hash].pos.i];
                       && p.n < |prev.vout| && 0 <= prev.vout[p.n].nValue <= 9223372036854775807
                       && tx.nTime >= prev.nTime && o.spendAllowed(tx, prev, i) && o.verifySignature(prev, tx, i))
              && InputsDiffer(tx, 0)
  {
    hide *;
    InputsAreAccepted(view, tx, pos, o);
    forall i | 0 <= i < |tx.vin|
      ensures tx.SkipsInput(i) <==> tx.isAnonVersion && tx.vin[i].isAnon
    {
      SkipsExactly(tx, i);
    }
    forall i | 0 <= i < |tx.vin|
      ensures InputAccepted(view, tx, i, o) <==>
                var p := tx.vin[i].prevout;
                && p.hash in view && view[p.hash].pos.At? && view[p.hash].pos.i < |view[p.hash].pos.block.vtx|
                && p.n < |view[p.hash].vSpent| && view[p.hash].vSpent[p.n].Unspent?
                && var prev := view[p.hash].pos.block.vtx[view[p.hash].pos.i];
                   && p.n < |prev.vout| && 0 <= prev.vout[p.n].nValue <= 9223372036854775807
                   && tx.nTime >= prev.nTime && o.spendAllowed(tx, prev, i) && o.verifySignature(prev, tx, i)
    {
      InputExactly(view, tx, i, o);
    }
  }

  lemma SkipsExactly(tx: Tx, i: nat)
    requires i < |tx.vin|
    ensures tx.SkipsInput(i) <==> tx.isAnonVersion && tx.vin[i].isAnon
  {
  }

  lemma PaysExactly(nValueIn: int, tx: Tx, o: Oracle)
    ensures PaysItsWay(nValueIn, tx, o) <==>
              && (tx.isAnonVersion ==> o.checkAnonInputs(tx).Some?)
              && (tx.IsCoinStake() ||
                  (&& (forall n :: 0 <= n < |tx.vout| ==>
                         0 <= tx.vout[n].nValue <= 9223372036854775807 &&
                         0 <= ValueOutTo(tx, n + 1) <= 9223372036854775807)
                   && var nIn := nValueIn + (if tx.isAnonVersion then o.checkAnonInputs(tx).value else 0);
                      && ValueOut(tx) <= nIn && ValueOut(tx) + o.minFee(tx) <= nIn
                      && nIn <= ValueOut(tx) + 9223372036854775807))
  {
    RangesAre(tx, |tx.vout|);
    hide ValuesInRange, ValueOut, ValueOutTo;
  }

  // ----- one block -----

  /** A block that connects pays its fees: what the inputs of a transaction that is neither a
      coinbase nor a coinstake bring, in the index of the transactions before it, exceeds its
      outputs by at least the minimum fee. */
  lemma BlockPaysFees(view: View, block: Block, o: Oracle, i: nat)
    requires Acceptable(view, block, o) && i < |block.vtx|
    requires !block.vtx[i].IsCoinBase() && !block.vtx[i].IsCoinStake()
    ensures ConnectTxs(view, block, i).Some?
    ensures block.vtx[i].isAnonVersion ==> o.checkAnonInputs(block.vtx[i]).Some?
    ensures var tx, before := block.vtx[i], ConnectTxs(view, block, i).value;
            var nValueIn := PrevValues(before, Prevouts(tx)) +
                            (if tx.isAnonVersion then o.checkAnonInputs(tx).value else 0);
            o.minFee(tx) <= nValueIn - ValueOut(tx) && 0 <= nValueIn - ValueOut(tx) <= 9223372036854775807
  {
    hide *;
    BlockExactly(view, block, o);
    AcceptedExactly(ConnectTxs(view, block, i).value, block.vtx[i], At(block, i), o);
  }

  /** A block is acceptable exactly when it begins with its only coinbase; a second transaction that
      is a coinstake is its only one, and goes with a coinbase of a single empty output; no two of
      its transactions have the same hash; none has a hash that the index knows with an output
      unspent; each is accepted on top of the index that those before it leave; their signature
      operations together are at most 20000; and it pays itself, from a stake, at most the subsidy
      and the fees, with the donation, and otherwise at most the reward for its fees. */
  lemma BlockExactly(view: View, block: Block, o: Oracle)
    ensures Acceptable(view, block, o) <==>
              && o.blockChecks(block) && |block.vtx| >= 1
              && (forall i :: 0 <= i < |block.vtx| ==> (block.vtx[i].IsCoinBase() <==> i == 0))
              && (|block.vtx| >= 2 && block.vtx[1].IsCoinStake() ==>
                    && (exists out :: block.vtx[0].vout == [out] && out.nValue == 0 && out.scriptEmpty)
                    && forall i :: 1 < i < |block.vtx| ==> !block.vtx[i].IsCoinStake())
              && (forall i, j | 0 <= i < |block.vtx| && 0 <= j < |block.vtx| ::
                    block.vtx[i].hash == block.vtx[j].hash ==> i == j)
              && (forall i :: 0 <= i < |block.vtx| && block.vtx[i].hash in view ==>
                    forall pos :: pos in view[block.vtx[i].hash].vSpent ==> !pos.Unspent?)
              && (forall i :: 0 <= i < |block.vtx| ==>
                    ConnectTxs(view, block, i).Some? &&
                    TxAccepted(ConnectTxs(view, block, i).value, block.vtx[i], At(block, i), o))
              && BlockSigOps(block, o, |block.vtx|) <= 20000
              && var t := BlockTotals(view, block, o, |block.vtx|);
                 if |block.vtx| >= 2 && block.vtx[1].IsCoinStake() then
                   o.stakeSubsidy(block) + t.nFees - t.nStakeReward >= 0 &&
                   o.donationPaid(block, o.stakeSubsidy(block) + t.nFees)
                 else o.proofOfWorkReward(block, t.nFees) >= ValueOut(block.vtx[0])
  {
    hide *;
    AcceptableParts(view, block, o);
    CheckExactly(block, o);
    StepsExactly(view, block, o);
    if block.vtx != [] {
      RewardExactly(block, BlockTotals(view, block, o, |block.vtx|), o);
    }
  }

  lemma AcceptableParts(view: View, block: Block, o: Oracle)
    ensures Acceptable(view, block, o) <==>
              && CheckBlock(block, o) && (forall i :: 0 <= i < |block.vtx| ==> StepAccepted(view, block, o, i))
              && BlockSigOps(block, o, |block.vtx|) <= 20000
              && RewardAllowed(block, BlockTotals(view, block, o, |block.vtx|), o)
  {
    hide CheckBlock, StepAccepted, BlockSigOps, RewardAllowed, BlockTotals;
  }

  lemma CheckExactly(block: Block, o: Oracle)
    ensures CheckBlock(block, o) <==>
              && o.blockChecks(block) && |block.vtx| >= 1
              && (forall i :: 0 <= i < |block.vtx| ==> (block.vtx[i].IsCoinBase() <==> i == 0))
              && (|block.vtx| >= 2 && block.vtx[1].IsCoinStake() ==>
                    && (exists out :: block.vtx[0].vout == [out] && out.nValue == 0 && out.scriptEmpty)
                    && forall i :: 1 < i < |block.vtx| ==> !block.vtx[i].IsCoinStake())
              && forall i, j | 0 <= i < |block.vtx| && 0 <= j < |block.vtx| ::
                   block.vtx[i].hash == block.vtx[j].hash ==> i == j
  {
    if block.vtx != [] && |block.vtx[0].vout| == 1 {
      assert block.vtx[0].vout == [block.vtx[0].vout[0]];
    }
  }

  lemma StepsExactly(view: View, block: Block, o: Oracle)
    ensures (forall i :: 0 <= i < |block.vtx| ==> StepAccepted(view, block, o, i)) <==>
              && (forall i :: 0 <= i < |block.vtx| && block.vtx[i].hash in view ==>
                    forall pos :: pos in view[block.vtx[i].hash].vSpent ==> !pos.Unspent?)
              && (forall i :: 0 <= i < |block.vtx| ==>
                    ConnectTxs(view, block, i).Some? &&
                    TxAccepted(ConnectTxs(view, block, i).value, block.vtx[i], At(block, i), o))
  {
    hide ConnectTxs, TxAccepted;
    forall i | 0 <= i < |block.vtx|
      ensures StepAccepted(view, block, o, i) <==>
                && (block.vtx[i].hash in view ==> forall pos :: pos in view[block.vtx[i].hash].vSpent ==> !pos.Unspent?)
                && ConnectTxs(view, block, i).Some?
                && TxAccepted(ConnectTxs(view, block, i).value, block.vtx[i], At(block, i), o)
    {
    }
    hide StepAccepted;
  }

  lemma RewardExactly(block: Block, t: Totals, o: Oracle)
    requires block.vtx != []
    ensures RewardAllowed(block, t, o) <==>
              if |block.vtx| >= 2 && block.vtx[1].IsCoinStake() then
                o.stakeSubsidy(block) + t.nFees - t.nStakeReward >= 0 &&
                o.donationPaid(block, o.stakeSubsidy(block) + t.nFees)
              else o.proofOfWorkReward(block, t.nFees) >= ValueOut(block.vtx[0])
  {
    hide ValueOut;
  }

  /** What one more transaction adds to the sums of a block.  A coinbase counts with its outputs
      only; a coinstake earns the stake reward by what its outputs exceed its inputs; any other
      transaction pays the difference as its fee. */
  lemma SumsAre(view: View, block: Block, o: Oracle, i: nat)
    requires i < |block.vtx| && ConnectTxs(view, block, i).Some?
    ensures var t, t', tx, before := BlockTotals(view, block, o, i), BlockTotals(view, block, o, i + 1), block.vtx[i],
                                     ConnectTxs(view, block, i).value;
            var nIn, nOut, nAnonIn := PrevValues(before, Prevouts(tx)), ValueOut(tx), AnonIn(tx, o);
            && nAnonIn == (if tx.isAnonVersion && o.checkAnonInputs(tx).Some? then o.checkAnonInputs(tx).value else 0)
            && t'.nValueOut - t.nValueOut == nOut
            && (tx.IsCoinBase() ==>
                  t'.nFees == t.nFees && t'.nValueIn == t.nValueIn && t'.nStakeReward == t.nStakeReward
                  && t'.nAnonIn == t.nAnonIn && t'.nAnonOut == t.nAnonOut)
            && (!tx.IsCoinBase() ==>
                  && t'.nValueIn - t.nValueIn == nIn + nAnonIn && t'.nAnonIn - t.nAnonIn == nAnonIn
                  && t'.nAnonOut - t.nAnonOut == AnonOut(tx))
            && (!tx.IsCoinBase() && !tx.IsCoinStake() ==>
                  t'.nFees - t.nFees == nIn + nAnonIn - nOut && t'.nStakeReward == t.nStakeReward)
            && (!tx.IsCoinBase() && tx.IsCoinStake() ==> t'.nFees == t.nFees && t'.nStakeReward == nOut - nIn - nAnonIn)
    ensures BlockTotals(view, block, o, 0) == Totals(0, 0, 0, 0, 0, 0)
    ensures BlockSigOps(block, o, 0) == 0
    ensures BlockSigOps(block, o, i + 1) - BlockSigOps(block, o, i) - o.legacySigOps(block.vtx[i]) ==
            if block.vtx[i].IsCoinBase() then 0 else o.p2shSigOps(block.vtx[i])
  {
    hide PrevValues, ConnectTxs, Prevouts, ValueOut, AnonOut;
  }

  /** The supplies recorded with a block that connects. */
  lemma SuppliesAre(view: View, block: Block, o: Oracle, prev: SupplyInfo, view': View, supply: SupplyInfo)
    requires Connected(view, block, o, prev, view', supply)
    ensures var t := BlockTotals(view, block, o, |block.vtx|);
            && supply.nMoneySupply - prev.nMoneySupply == t.nValueOut - t.nValueIn
            && supply.nAnonSupply - prev.nAnonSupply == t.nAnonOut - t.nAnonIn
            && supply.nMint - t.nFees == t.nValueOut - t.nValueIn
  {
    hide Acceptable, BlockTotals, ConnectTxs;
  }

  /** What connecting one transaction does to the index, entry by entry: its own entry is new, with
      every output unspent; and of the entries known before, the outputs that its inputs name are
      marked as spent by it. */
  lemma EntriesAre(view: View, tx: Tx, pos: DiskTxPos, h: nat, n: nat)
    requires pos != Unspent && ConnectTx(view, tx, pos).Some?
    ensures var view' := ConnectTx(view, tx, pos).value;
            && (h in view' <==> h in view || h == tx.hash)
            && view'[tx.hash].pos == pos && |view'[tx.hash].vSpent| == |tx.vout|
            && (n < |tx.vout| ==> view'[tx.hash].vSpent[n].Unspent?)
            && (h in view && h != tx.hash ==>
                  && view'[h].pos == view[h].pos && |view'[h].vSpent| == |view[h].vSpent|
                  && (n < |view[h].vSpent| ==>
                        view'[h].vSpent[n] ==
                          if !tx.IsCoinBase() && exists i | 0 <= i < |tx.vin| ::
                               !(tx.isAnonVersion && tx.vin[i].isAnon) && tx.vin[i].prevout == OutPoint(h, n)
                          then pos else view[h].vSpent[n]))
  {
    if !tx.IsCoinBase() {
      SpendAllMarks(view, Prevouts(tx), pos);
    }
    PrevoutsAre(tx, 0, OutPoint(h, n));
    hide SpendAll, PrevoutsFrom;
  }
}
