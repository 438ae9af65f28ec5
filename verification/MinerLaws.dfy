/** What the rounds of a block template mean, written out on the transactions of the pool, and that
    a template leaves nothing out without a reason. */
module MinerLaws {
  import opened Basics
  import opened BlockLaws
  import opened ConnectBlocks
  import opened Miner
  import opened MinerPool
  import opened Supply
  import opened TxIndexing
  import opened UndoBlock

  // ----- a transaction of the pool -----

  /** A transaction can be scheduled unless it is a coinbase or a coinstake, is not final, or is an
      anonymous one that waits for nothing and whose anonymous inputs are not valid. */
  lemma RegisteredExactly(n: Node, p: Policy, h: nat)
    ensures !Registered(n, p, h) <==>
              || h !in n.mempool || n.mempool[h].IsCoinBase() || n.mempool[h].IsCoinStake() || !p.isFinal(n.mempool[h])
              || (n.mempool[h].isAnonVersion && n.o.checkAnonInputs(n.mempool[h]).None? &&
                  forall q :: q !in Parents(n, n.mempool[h]))
  {
    hide Parents;
    if h in n.mempool && forall q :: q !in Parents(n, n.mempool[h]) {
      assert Parents(n, n.mempool[h]) == {};
    }
  }

  /** The parents of a transaction are those that its inputs name and that the database does not
      have with the output named; an input that takes its value from anonymous outputs names none. */
  lemma {:induction false} ParentsExactly(n: Node, tx: Tx, k: nat, q: nat)
    requires k <= |tx.vin|
    ensures Parents(n, tx) == ParentsTo(n, tx, |tx.vin|)
    ensures q in ParentsTo(n, tx, k) <==>
              exists i :: 0 <= i < k && !(tx.isAnonVersion && tx.vin[i].isAnon) && tx.vin[i].prevout.hash == q &&
                !(q in n.db && n.db[q].pos.At? && n.db[q].pos.i < |n.db[q].pos.block.vtx| &&
                  tx.vin[i].prevout.n < |n.db[q].pos.block.vtx[n.db[q].pos.i].vout|)
    decreases k
  {
    if k > 0 {
      ParentsExactly(n, tx, k - 1, q);
    }
  }

  /** The fee of a transaction is what its inputs bring, with the anonymous ones, less its outputs;
      the inputs are added up from the last one, each by the value of the output that it names on
      disk or in the pool. */
  lemma FeeIs(n: Node, tx: Tx, i: nat)
    requires i <= |tx.vin|
    ensures TotalInFrom(n, tx, 0) - FeeOf(n, tx) + (if tx.isAnonVersion && n.o.checkAnonInputs(tx).Some?
                                                    then n.o.checkAnonInputs(tx).value else 0) == ValueOut(tx)
    ensures i == |tx.vin| ==> TotalInFrom(n, tx, i) == 0
    ensures i < |tx.vin| && tx.isAnonVersion && tx.vin[i].isAnon ==>
              TotalInFrom(n, tx, i) == TotalInFrom(n, tx, i + 1)
    ensures i < |tx.vin| && !(tx.isAnonVersion && tx.vin[i].isAnon) ==>
              var o := tx.vin[i].prevout;
              && (o.hash in n.db && n.db[o.hash].pos.At? && n.db[o.hash].pos.i < |n.db[o.hash].pos.block.vtx| &&
                  o.n < |n.db[o.hash].pos.block.vtx[n.db[o.hash].pos.i].vout| ==>
                    TotalInFrom(n, tx, i) - TotalInFrom(n, tx, i + 1) ==
                    n.db[o.hash].pos.block.vtx[n.db[o.hash].pos.i].vout[o.n].nValue)
              && (o.hash !in n.db && o.hash in n.mempool && o.n < |n.mempool[o.hash].vout| ==>
                    TotalInFrom(n, tx, i) - TotalInFrom(n, tx, i + 1) == n.mempool[o.hash].vout[o.n].nValue)
  {
    hide ValueOut;
  }

  /** The view of no transactions is the database, and every further one is connected to it, as
      stored nowhere yet. */
  lemma PoolViewIs(n: Node, txs: seq<nat>, h: nat)
    requires PoolView(n, txs).Some? && h in n.mempool
    ensures PoolView(n, []) == Some(n.db)
    ensures PoolView(n, txs + [h]) == ConnectTx(PoolView(n, txs).value, n.mempool[h], InMempool)
  {
    ChainStep(n, txs, h);
    hide ConnectTx;
  }

  /** A transaction of the pool may be connected on top of a view exactly when every input names an
      output of the view that is unspent and may be spent, no two the same one, the amounts are
      possible, its anonymous inputs are valid, and it pays its fee. */
  lemma PoolAcceptedExactly(n: Node, view: View, tx: Tx)
    requires !tx.IsCoinStake()
    ensures PoolAccepted(n, view, tx) <==>
              && (forall i :: 0 <= i < |tx.vin| && !(tx.isAnonVersion && tx.vin[i].isAnon) ==>
                    var o := tx.vin[i].prevout;
                    && o.hash in view && o.n < |view[o.hash].vSpent| && view[o.hash].vSpent[o.n].Unspent?
                    && TxOf(n, o.hash).Some? && var prev := TxOf(n, o.hash).value;
                       && o.n < |prev.vout| && 0 <= prev.vout[o.n].nValue <= 9223372036854775807
                       && tx.nTime >= prev.nTime && n.o.spendAllowed(tx, prev, i) && n.o.verifySignature(prev, tx, i))
              && (forall i, j :: 0 <= i < j < |tx.vin| && tx.vin[i].prevout == tx.vin[j].prevout ==>
                    tx.isAnonVersion && (tx.vin[i].isAnon || tx.vin[j].isAnon))
              && 0 <= TotalInFrom(n, tx, 0) <= 9223372036854775807
              && (tx.isAnonVersion ==> n.o.checkAnonInputs(tx).Some?)
              && (forall k :: 0 <= k < |tx.vout| ==>
                    0 <= tx.vout[k].nValue <= 9223372036854775807 && 0 <= ValueOutTo(tx, k + 1) <= 9223372036854775807)
              && n.o.minFee(tx) <= FeeOf(n, tx) && 0 <= FeeOf(n, tx) <= 9223372036854775807
  {
    hide *;
    PoolAcceptedParts(n, view, tx);
    SkippedOrCounted(view, tx, InMempool);
    DifferExactly(tx);
    PaysExactly(TotalInFrom(n, tx, 0), tx, n.o);
    FeeParts(n, tx);
    forall i | 0 <= i < |tx.vin| ensures tx.SkipsInput(i) <==> tx.isAnonVersion && tx.vin[i].isAnon {
      SkipsExactly(tx, i);
    }
    forall i | 0 <= i < |tx.vin|
      ensures PoolInput(n, view, tx, i) && Spendable(view, tx.vin[i].prevout) <==>
                var o := tx.vin[i].prevout;
                && o.hash in view && o.n < |view[o.hash].vSpent| && view[o.hash].vSpent[o.n].Unspent?
                && TxOf(n, o.hash).Some? && var prev := TxOf(n, o.hash).value;
                   && o.n < |prev.vout| && 0 <= prev.vout[o.n].nValue <= 9223372036854775807
                   && tx.nTime >= prev.nTime && n.o.spendAllowed(tx, prev, i) && n.o.verifySignature(prev, tx, i)
    {
      PoolInputExactly(n, view, tx, i);
    }
  }

  lemma PoolAcceptedParts(n: Node, view: View, tx: Tx)
    ensures PoolAccepted(n, view, tx) <==>
              && (forall i :: 0 <= i < |tx.vin| && !tx.SkipsInput(i) ==> PoolInput(n, view, tx, i))
              && 0 <= TotalInFrom(n, tx, 0) <= 9223372036854775807
              && SpendAll(view, Prevouts(tx), InMempool).Some? && PaysItsWay(TotalInFrom(n, tx, 0), tx, n.o)
  {
    hide PoolInput, TotalInFrom, SpendAll, PaysItsWay;
  }

  lemma PoolInputExactly(n: Node, view: View, tx: Tx, i: nat)
    requires i < |tx.vin|
    ensures PoolInput(n, view, tx, i) && Spendable(view, tx.vin[i].prevout) <==>
              var o := tx.vin[i].prevout;
              && o.hash in view && o.n < |view[o.hash].vSpent| && view[o.hash].vSpent[o.n].Unspent?
              && TxOf(n, o.hash).Some? && var prev := TxOf(n, o.hash).value;
                 && o.n < |prev.vout| && 0 <= prev.vout[o.n].nValue <= 9223372036854775807
                 && tx.nTime >= prev.nTime && n.o.spendAllowed(tx, prev, i) && n.o.verifySignature(prev, tx, i)
  {
    hide TxOf;
  }

  lemma FeeParts(n: Node, tx: Tx)
    ensures FeeOf(n, tx) == TotalInFrom(n, tx, 0) - ValueOut(tx) +
                            (if tx.isAnonVersion && n.o.checkAnonInputs(tx).Some? then n.o.checkAnonInputs(tx).value
                             else 0)
  {
    hide TotalInFrom, ValueOut;
  }

  // ----- one round -----

  /** The rounds, written out.  They start with an empty block, and ordered by fee exactly when no
      room is kept for high priorities.  Every round is that of a transaction that can be scheduled,
      has had no round before, and has all its parents in the block; of all these none has a higher
      fee rate, or the same and a higher priority, when the queue is ordered by fee, and otherwise
      the other way round.  It goes into the block exactly when it is valid there, neither size nor
      signature operations reach their limits, it is not from the future, pays the fee, and is not
      one of low fee rate that would take a block ordered by fee past its minimum size.  The queue
      is ordered by fee from the first round on whose transaction, while within the limits, reaches
      past the size kept for high priorities or has no high priority. */
  lemma RoundMeans(n: Node, p: Policy, rounds: Rounds, r: nat)
    requires RoundsOk(n, p, rounds) && r < |rounds.order|
    ensures |rounds.states| == |rounds.order| + 1
    ensures rounds.states[0].vtx == [] && (rounds.states[0].byFee <==> p.nBlockPrioritySize <= 0)
    ensures var s, h := rounds.states[r], rounds.order[r];
            && Registered(n, p, h) && h in n.mempool && (forall j :: 0 <= j < r ==> rounds.order[j] != h)
            && (forall q :: q in Parents(n, n.mempool[h]) ==> q in s.vtx) && PoolView(n, s.vtx).Some?
    ensures var s, h := rounds.states[r], rounds.order[r];
            forall g :: Registered(n, p, g) && g in n.mempool && g !in rounds.order[..r] &&
                        (forall q :: q in Parents(n, n.mempool[g]) ==> q in s.vtx) ==>
              var a, b := EntryOf(n, p, g), EntryOf(n, p, h);
              if s.byFee then a.dFeePerKb <= b.dFeePerKb && (a.dFeePerKb == b.dFeePerKb ==> a.dPriority <= b.dPriority)
              else a.dPriority <= b.dPriority && (a.dPriority == b.dPriority ==> a.dFeePerKb <= b.dFeePerKb)
    ensures var s, t, h := rounds.states[r], rounds.states[r + 1], rounds.order[r];
            var tx, e, nSize := n.mempool[h], EntryOf(n, p, h), 1000 + SumSizes(n, p, s.vtx) + p.size(n.mempool[h]);
            && (t.vtx == s.vtx || t.vtx == s.vtx + [h])
            && (t.vtx == s.vtx + [h] <==>
                  && PoolAccepted(n, PoolView(n, s.vtx).value, tx) && nSize < p.nBlockMaxSize
                  && 100 + SumSigOps(n, s.vtx) + n.o.legacySigOps(tx) + n.o.p2shSigOps(tx) < 20000
                  && tx.nTime <= p.adjustedTime && !(p.fProofOfStake && tx.nTime > p.coinBaseTime)
                  && p.minFee(tx, nSize - p.size(tx)) <= FeeOf(n, tx)
                  && (!s.byFee || p.nMinTxFee <= e.dFeePerKb || nSize < p.nBlockMinSize))
            && (!t.byFee <==>
                  !s.byFee &&
                  (|| nSize >= p.nBlockMaxSize || 100 + SumSigOps(n, s.vtx) + n.o.legacySigOps(tx) >= 20000
                   || tx.nTime > p.adjustedTime || (p.fProofOfStake && tx.nTime > p.coinBaseTime)
                   || (nSize < p.nBlockPrioritySize && p.highPriority <= e.dPriority)))
  {
    hide *;
    RoundsParts(n, p, rounds, r);
    var s, t, h := rounds.states[r], rounds.states[r + 1], rounds.order[r];
    GreatestMeans(n, p, s, rounds.order[..r], h);
    DecisionMeans(n, p, s, Included(rounds.order[..r]), h, t);
    assert forall j :: 0 <= j < r ==> rounds.order[..r][j] == rounds.order[j];
  }

  lemma RoundsParts(n: Node, p: Policy, rounds: Rounds, r: nat)
    requires RoundsOk(n, p, rounds) && r < |rounds.order|
    ensures |rounds.states| == |rounds.order| + 1
    ensures rounds.states[0].vtx == [] && (rounds.states[0].byFee <==> p.nBlockPrioritySize <= 0)
    ensures Round(n, p, rounds.states[r], Included(rounds.order[..r]), rounds.order[r], rounds.states[r + 1])
    ensures Greatest(n, p, rounds.states[r], Included(rounds.order[..r]), rounds.order[r])
  {
    assert RoundAt(n, p, rounds, r);
    hide Greatest, Takes, TurnsToFees;
  }

  lemma GreatestMeans(n: Node, p: Policy, s: State, before: seq<nat>, h: nat)
    requires Greatest(n, p, s, Included(before), h)
    ensures Registered(n, p, h) && h in n.mempool && h !in before
    ensures forall q :: q in Parents(n, n.mempool[h]) ==> q in s.vtx
    ensures forall g :: Registered(n, p, g) && g in n.mempool && g !in before &&
                        (forall q :: q in Parents(n, n.mempool[g]) ==> q in s.vtx) ==>
              var a, b := EntryOf(n, p, g), EntryOf(n, p, h);
              if s.byFee then a.dFeePerKb <= b.dFeePerKb && (a.dFeePerKb == b.dFeePerKb ==> a.dPriority <= b.dPriority)
              else a.dPriority <= b.dPriority && (a.dPriority == b.dPriority ==> a.dFeePerKb <= b.dFeePerKb)
  {
    hide EntryOf, Parents;
    forall g | Registered(n, p, g) && g in n.mempool && g !in before &&
               forall q :: q in Parents(n, n.mempool[g]) ==> q in s.vtx
      ensures !Less(EntryOf(n, p, h), EntryOf(n, p, g), s.byFee)
    {
      assert Competes(n, p, s, Included(before), g);
    }
  }

  lemma DecisionMeans(n: Node, p: Policy, s: State, done: set<nat>, h: nat, t: State)
    requires Round(n, p, s, done, h, t) && h in n.mempool && Registered(n, p, h)
    ensures PoolView(n, s.vtx).Some?
    ensures var tx, e, nSize := n.mempool[h], EntryOf(n, p, h), 1000 + SumSizes(n, p, s.vtx) + p.size(n.mempool[h]);
            && (t.vtx == s.vtx || t.vtx == s.vtx + [h])
            && (t.vtx == s.vtx + [h] <==>
                  && PoolAccepted(n, PoolView(n, s.vtx).value, tx) && nSize < p.nBlockMaxSize
                  && 100 + SumSigOps(n, s.vtx) + n.o.legacySigOps(tx) + n.o.p2shSigOps(tx) < 20000
                  && tx.nTime <= p.adjustedTime && !(p.fProofOfStake && tx.nTime > p.coinBaseTime)
                  && p.minFee(tx, nSize - p.size(tx)) <= FeeOf(n, tx)
                  && (!s.byFee || p.nMinTxFee <= e.dFeePerKb || nSize < p.nBlockMinSize))
            && (!t.byFee <==>
                  !s.byFee &&
                  (|| nSize >= p.nBlockMaxSize || 100 + SumSigOps(n, s.vtx) + n.o.legacySigOps(tx) >= 20000
                   || tx.nTime > p.adjustedTime || (p.fProofOfStake && tx.nTime > p.coinBaseTime)
                   || (nSize < p.nBlockPrioritySize && p.highPriority <= e.dPriority)))
  {
    hide Greatest, PoolAccepted, SumSizes, SumSigOps, FeeOf, Parents, PriorityOf, RateOf;
    assert s.vtx != s.vtx + [h];
  }

  /** The rank of a transaction, and the sums of the block. */
  lemma RanksAre(n: Node, p: Policy, h: nat, txs: seq<nat>)
    requires h in n.mempool
    ensures var tx, e := n.mempool[h], EntryOf(n, p, h);
            && e.hash == h
            && (tx.isAnonVersion && n.o.checkAnonInputs(tx).None? ==> e.dPriority == 0.0 && e.dFeePerKb == 0.0)
            && (!tx.isAnonVersion || n.o.checkAnonInputs(tx).Some? ==>
                  e.dPriority == p.priority(tx) && e.dFeePerKb == p.feePerKb(tx, FeeOf(n, tx)))
    ensures SumSizes(n, p, []) == SumSigOps(n, []) == 0 && SumFees(n, []) == 0
    ensures SumSizes(n, p, txs + [h]) - SumSizes(n, p, txs) == p.size(n.mempool[h])
    ensures SumFees(n, txs + [h]) - SumFees(n, txs) == FeeOf(n, n.mempool[h])
    ensures SumSigOps(n, txs + [h]) - SumSigOps(n, txs) - n.o.legacySigOps(n.mempool[h]) ==
            if n.mempool[h].IsCoinBase() then 0 else n.o.p2shSigOps(n.mempool[h])
  {
    ChainStep(n, txs, h);
    hide FeeOf;
  }

  // ----- nothing is left out -----

  /** An output that is known before a listed transaction, and unspent after it, is unspent before it. */
  lemma UnspentOneEarlier(n: Node, txs: seq<nat>, k: nat, o: OutPoint)
    requires PoolOk(n) && PoolChain(n, txs) && k < |txs| && (o.hash in n.db || o.hash in txs[..k])
    ensures PoolView(n, txs[..k]).Some? && PoolView(n, txs[..k + 1]).Some?
    ensures Spendable(PoolView(n, txs[..k + 1]).value, o) ==> Spendable(PoolView(n, txs[..k]).value, o)
  {
    hide PoolChain, PoolInputs, PoolView, ConnectTx, Faithful, PaysItsWay, Prevouts, Tx.IsCoinBase, PoolAccepted;
    PrefixChain(n, txs, k);
    PrefixChain(n, txs, k + 1);
    PoolStep(n, txs, k);
    ChainFaithful(n, txs[..k]);
    ChainFaithful(n, txs[..k + 1]);
    ChainPooled(n, txs);
    var v, tx := PoolView(n, txs[..k]).value, n.mempool[txs[k]];
    assert txs[k] !in txs[..k];
    assert tx.hash == txs[k] && tx.hash !in v;
    EntriesAre(v, tx, InMempool, o.hash, o.n);
  }

  lemma {:induction false} UnspentEarlier(n: Node, txs: seq<nat>, i: nat, k: nat, o: OutPoint)
    requires PoolOk(n) && PoolChain(n, txs) && i <= k <= |txs| && (o.hash in n.db || o.hash in txs[..i])
    requires PoolView(n, txs[..k]).Some? && Spendable(PoolView(n, txs[..k]).value, o)
    ensures PoolView(n, txs[..i]).Some? && Spendable(PoolView(n, txs[..i]).value, o)
    decreases k
  {
    hide PoolOk, PoolChain, PoolView, Spendable;
    if i < k {
      if o.hash !in n.db {
        KnownLater(txs, i, k - 1, o.hash);
      }
      UnspentOneEarlier(n, txs, k - 1, o);
      UnspentEarlier(n, txs, i, k - 1, o);
    }
  }

  lemma KnownLater(txs: seq<nat>, i: nat, k: nat, h: nat)
    requires i <= k <= |txs| && h in txs[..i]
    ensures h in txs[..k]
  {
    assert txs[..k][..i] == txs[..i];
  }

  /** A transaction that may be connected after the listed ones might have been connected as soon as
      its parents were. */
  lemma AcceptedEarlier(n: Node, txs: seq<nat>, i: nat, tx: Tx)
    requires PoolOk(n) && PoolChain(n, txs) && i <= |txs| && PoolView(n, txs).Some?
    requires forall q :: q in Parents(n, tx) ==> q in txs[..i]
    requires PoolAccepted(n, PoolView(n, txs).value, tx)
    ensures PoolView(n, txs[..i]).Some? && PoolAccepted(n, PoolView(n, txs[..i]).value, tx)
  {
    hide *;
    PrefixChain(n, txs, i);
    ChainFaithful(n, txs[..i]);
    assert txs[..|txs|] == txs;
    var v, w := PoolView(n, txs[..i]).value, PoolView(n, txs).value;
    PoolAcceptedParts(n, v, tx);
    PoolAcceptedParts(n, w, tx);
    SkippedOrCounted(v, tx, InMempool);
    SkippedOrCounted(w, tx, InMempool);
    forall j | 0 <= j < |tx.vin| && !tx.SkipsInput(j)
      ensures Spendable(v, tx.vin[j].prevout) && PoolInput(n, v, tx, j)
    {
      ParentOrDisk(n, tx, j);
      UnspentEarlier(n, txs, i, |txs|, tx.vin[j].prevout);
      SameInput(n, v, w, tx, j);
    }
  }

  lemma ParentOrDisk(n: Node, tx: Tx, j: nat)
    requires j < |tx.vin| && !tx.SkipsInput(j)
    ensures tx.vin[j].prevout.hash in n.db || tx.vin[j].prevout.hash in Parents(n, tx)
  {
    ParentsExactly(n, tx, |tx.vin|, tx.vin[j].prevout.hash);
    hide ParentsTo, Parents;
  }

  lemma SameInput(n: Node, v: View, w: View, tx: Tx, j: nat)
    requires j < |tx.vin| && PoolInput(n, w, tx, j) && Spendable(v, tx.vin[j].prevout)
    ensures PoolInput(n, v, tx, j)
  {
    hide TxOf, InputPasses;
  }

  /** Blocks only grow from round to round. */
  lemma {:induction false} BlocksGrow(n: Node, p: Policy, rounds: Rounds, r: nat, k: nat)
    requires RoundsOk(n, p, rounds) && r <= k <= |rounds.order|
    ensures |rounds.states| == |rounds.order| + 1 && rounds.states[r].vtx <= rounds.states[k].vtx
    decreases k
  {
    hide RoundAt;
    if r < k {
      BlocksGrow(n, p, rounds, r, k - 1);
      BlockGrows(n, p, rounds, k - 1);
    }
  }

  lemma BlockGrows(n: Node, p: Policy, rounds: Rounds, r: nat)
    requires RoundsOk(n, p, rounds) && r < |rounds.order|
    ensures |rounds.states| == |rounds.order| + 1 && rounds.states[r].vtx <= rounds.states[r + 1].vtx
  {
    assert RoundAt(n, p, rounds, r);
    hide Greatest, Takes, TurnsToFees, RoundAt;
  }

  /** A transaction that had its round and is not in the block was refused in its round, for its
      size, its signature operations, its time or its fee, or because it could not be connected
      there; and in that last case it cannot be connected to the finished block either. */
  lemma RefusedInItsRound(n: Node, p: Policy, rounds: Rounds, h: nat) returns (r: nat)
    requires PoolOk(n) && RoundsOk(n, p, rounds) && PoolChain(n, rounds.states[|rounds.order|].vtx)
    requires h in rounds.order && h !in rounds.states[|rounds.order|].vtx
    ensures r < |rounds.order| && rounds.order[r] == h && h in n.mempool && PoolView(n, rounds.states[r].vtx).Some?
    ensures rounds.states[r + 1].vtx == rounds.states[r].vtx <= rounds.states[|rounds.order|].vtx
    ensures PoolView(n, rounds.states[|rounds.order|].vtx).Some?
    ensures var s, tx, txs := rounds.states[r], n.mempool[h], rounds.states[|rounds.order|].vtx;
            var nSize := 1000 + SumSizes(n, p, s.vtx) + p.size(tx);
            || (!PoolAccepted(n, PoolView(n, s.vtx).value, tx) && !PoolAccepted(n, PoolView(n, txs).value, tx))
            || nSize >= p.nBlockMaxSize
            || 100 + SumSigOps(n, s.vtx) + n.o.legacySigOps(tx) + n.o.p2shSigOps(tx) >= 20000
            || tx.nTime > p.adjustedTime || (p.fProofOfStake && tx.nTime > p.coinBaseTime)
            || FeeOf(n, tx) < p.minFee(tx, nSize - p.size(tx))
            || (s.byFee && EntryOf(n, p, h).dFeePerKb < p.nMinTxFee && nSize >= p.nBlockMinSize)
  {
    hide *;
    r :| 0 <= r < |rounds.order| && rounds.order[r] == h;
    var last := |rounds.order|;
    RoundMeans(n, p, rounds, r);
    BlocksGrow(n, p, rounds, r, last);
    BlocksGrow(n, p, rounds, r + 1, last);
    var s, t, txs, tx := rounds.states[r], rounds.states[r + 1], rounds.states[last].vtx, n.mempool[h];
    assert t.vtx == s.vtx + [h] ==> h in t.vtx;
    ChainFaithful(n, txs);
    assert txs[..|s.vtx|] == s.vtx;
    if PoolAccepted(n, PoolView(n, txs).value, tx) {
      AcceptedEarlier(n, txs, |s.vtx|, tx);
    }
  }

  // ----- limits out of reach -----

  lemma {:induction false} TakenOut(n: Node, p: Policy, txs: seq<nat>, i: nat)
    requires i < |txs| && txs[i] in n.mempool
    ensures var rest := txs[..i] + txs[i + 1..];
            && SumSizes(n, p, txs) == SumSizes(n, p, rest) + p.size(n.mempool[txs[i]])
            && SumSigOps(n, txs) == SumSigOps(n, rest) + TxSigOps(n.mempool[txs[i]], n.o)
    decreases |txs|
  {
    hide TxSigOps;
    var last, rest := |txs| - 1, txs[..i] + txs[i + 1..];
    if i < last {
      TakenOut(n, p, txs[..last], i);
      assert rest[|rest| - 1] == txs[last];
      assert rest[..|rest| - 1] == txs[..last][..i] + txs[..last][i + 1..];
    } else {
      assert rest == txs[..last];
    }
  }

  ghost predicate NoneTwice(txs: seq<nat>) {
    forall i, j :: 0 <= i < j < |txs| ==> txs[i] != txs[j]
  }

  /** A block of some of the transactions is no larger than one of all of them. */
  lemma {:induction false} SomeOfAll(n: Node, p: Policy, txs: seq<nat>, keys: seq<nat>)
    requires NoneTwice(txs) && forall j :: 0 <= j < |txs| ==> txs[j] in keys && txs[j] in n.mempool
    ensures SumSizes(n, p, txs) <= SumSizes(n, p, keys) && SumSigOps(n, txs) <= SumSigOps(n, keys)
    decreases |keys|
  {
    hide TxSigOps;
    if keys != [] {
      var fewer, k := keys[..|keys| - 1], keys[|keys| - 1];
      assert keys == fewer + [k];
      if k in txs {
        var i :| 0 <= i < |txs| && txs[i] == k;
        TakenOut(n, p, txs, i);
        Without(txs, i);
        SomeOfAll(n, p, txs[..i] + txs[i + 1..], fewer);
      } else {
        SomeOfAll(n, p, txs, fewer);
      }
    }
  }

  lemma Without(txs: seq<nat>, i: nat)
    requires i < |txs| && NoneTwice(txs)
    ensures var rest := txs[..i] + txs[i + 1..];
            NoneTwice(rest) && forall h :: h in rest <==> h in txs && h != txs[i]
  {
    var rest := txs[..i] + txs[i + 1..];
    assert forall j :: 0 <= j < |rest| ==> rest[j] == txs[if j < i then j else j + 1];
    forall h | h in txs && h != txs[i] ensures h in rest {
      var j :| 0 <= j < |txs| && txs[j] == h;
      assert rest[if j < i then j else j - 1] == h;
    }
  }

  /** The whole pool is within every limit of a block. */
  ghost predicate OutOfReach(n: Node, p: Policy, keys: seq<nat>) {
    && 1000 + SumSizes(n, p, keys) < p.nBlockMaxSize && 100 + SumSigOps(n, keys) < 20000
    && forall h :: h in n.mempool ==>
         && n.mempool[h].nTime <= p.adjustedTime && (p.fProofOfStake ==> n.mempool[h].nTime <= p.coinBaseTime)
         && (p.nMinTxFee <= EntryOf(n, p, h).dFeePerKb || 1000 + SumSizes(n, p, keys) < p.nBlockMinSize)
         && forall nSize: nat :: p.minFee(n.mempool[h], nSize) <= FeeOf(n, n.mempool[h])
  }

  /** What a later block holds beyond an earlier one had its round in between. */
  lemma {:induction false} AddedBetween(n: Node, p: Policy, rounds: Rounds, r: nat, k: nat, h: nat)
    requires RoundsOk(n, p, rounds) && r <= k <= |rounds.order| == |rounds.states| - 1
    requires h in rounds.states[k].vtx && h !in rounds.states[r].vtx
    ensures exists j :: r <= j < k && rounds.order[j] == h
    decreases k
  {
    hide *;
    if r < k {
      RoundMeans(n, p, rounds, k - 1);
      if h in rounds.states[k - 1].vtx {
        AddedBetween(n, p, rounds, r, k - 1, h);
      }
    }
  }

  /** A transaction has one round, so it is in the finished block exactly when it was taken in that round. */
  lemma TakenInItsRound(n: Node, p: Policy, rounds: Rounds, r: nat)
    requires RoundsOk(n, p, rounds) && r < |rounds.order| == |rounds.states| - 1
    ensures var s, t, h := rounds.states[r], rounds.states[r + 1], rounds.order[r];
            h !in s.vtx && (h in rounds.states[|rounds.order|].vtx <==> t.vtx == s.vtx + [h])
  {
    hide *;
    var s, t, h, last := rounds.states[r], rounds.states[r + 1], rounds.order[r], |rounds.order|;
    RoundMeans(n, p, rounds, r);
    if h in s.vtx {
      AddedBetween(n, p, rounds, 0, r, h);
      assert false;
    }
    BlocksGrow(n, p, rounds, r + 1, last);
    if t.vtx == s.vtx + [h] {
      assert rounds.states[last].vtx[|s.vtx|] == t.vtx[|s.vtx|] == h;
    } else if h in rounds.states[last].vtx {
      AddedBetween(n, p, rounds, r + 1, last, h);
      var j :| r + 1 <= j < last && rounds.order[j] == h;
      RoundMeans(n, p, rounds, j);
      assert false;
    }
  }

  lemma WithinLimits(n: Node, p: Policy, keys: seq<nat>, s: State, h: nat)
    requires Enumerates(keys, n) && PoolChain(n, s.vtx) && h in n.mempool && h !in s.vtx && !n.mempool[h].IsCoinBase()
    ensures SumSizes(n, p, s.vtx) + p.size(n.mempool[h]) <= SumSizes(n, p, keys)
    ensures SumSigOps(n, s.vtx) + n.o.legacySigOps(n.mempool[h]) + n.o.p2shSigOps(n.mempool[h]) <= SumSigOps(n, keys)
  {
    ChainPooled(n, s.vtx);
    RanksAre(n, p, h, s.vtx);
    hide PoolChain, SumSizes, SumSigOps;
    SomeOfAll(n, p, s.vtx + [h], keys);
  }

  /** With the limits out of reach, a transaction goes into the block exactly when it may be
      connected in its round. */
  lemma TakenExactly(n: Node, p: Policy, keys: seq<nat>, rounds: Rounds, r: nat)
    requires PoolOk(n) && Enumerates(keys, n) && OutOfReach(n, p, keys) && RoundsOk(n, p, rounds)
    requires r < |rounds.order| == |rounds.states| - 1 && PoolChain(n, rounds.states[|rounds.order|].vtx)
    ensures rounds.order[r] in n.mempool && PoolView(n, rounds.states[r].vtx).Some?
    ensures rounds.order[r] in rounds.states[|rounds.order|].vtx <==>
              PoolAccepted(n, PoolView(n, rounds.states[r].vtx).value, n.mempool[rounds.order[r]])
  {
    hide *;
    var s, h, last := rounds.states[r], rounds.order[r], |rounds.order|;
    RoundMeans(n, p, rounds, r);
    TakenInItsRound(n, p, rounds, r);
    BlocksGrow(n, p, rounds, r, last);
    PrefixChain(n, rounds.states[last].vtx, |s.vtx|);
    assert rounds.states[last].vtx[..|s.vtx|] == s.vtx;
    NoCoinBase(n, p, h);
    WithinLimits(n, p, keys, s, h);
    LimitsOf(n, p, keys, h, 1000 + SumSizes(n, p, s.vtx));
  }

  lemma NoCoinBase(n: Node, p: Policy, h: nat)
    requires Registered(n, p, h)
    ensures h in n.mempool && !n.mempool[h].IsCoinBase()
  {
  }

  lemma LimitsOf(n: Node, p: Policy, keys: seq<nat>, h: nat, nSize: nat)
    requires OutOfReach(n, p, keys) && h in n.mempool
    ensures 1000 + SumSizes(n, p, keys) < p.nBlockMaxSize && 100 + SumSigOps(n, keys) < 20000
    ensures n.mempool[h].nTime <= p.adjustedTime && (p.fProofOfStake ==> n.mempool[h].nTime <= p.coinBaseTime)
    ensures p.nMinTxFee <= EntryOf(n, p, h).dFeePerKb || 1000 + SumSizes(n, p, keys) < p.nBlockMinSize
    ensures p.minFee(n.mempool[h], nSize) <= FeeOf(n, n.mempool[h])
  {
    hide SumSizes, SumSigOps, EntryOf, FeeOf;
  }

  /** With the limits out of reach, the block holds every transaction that can be scheduled, has its
      parents in the block, and could still be connected to it. */
  lemma TemplateIsFull(n: Node, p: Policy, keys: seq<nat>, rounds: Rounds, vtx: seq<nat>, h: nat)
    requires PoolOk(n) && Enumerates(keys, n) && OutOfReach(n, p, keys) && RoundsOk(n, p, rounds)
    requires vtx == rounds.states[|rounds.order|].vtx && PoolChain(n, vtx)
    requires forall g :: Registered(n, p, g) ==>
               (g in Included(rounds.order) <==> Parents(n, n.mempool[g]) <= Included(vtx))
    requires Registered(n, p, h) && forall q :: q in Parents(n, n.mempool[h]) ==> q in vtx
    ensures PoolView(n, vtx).Some? && (PoolAccepted(n, PoolView(n, vtx).value, n.mempool[h]) ==> h in vtx)
  {
    hide *;
    NoCoinBase(n, p, h);
    HadItsRound(n, h, rounds.order, vtx);
    ChainFaithful(n, vtx);
    if h !in vtx {
      var r := RefusedInItsRound(n, p, rounds, h);
      RoundMeans(n, p, rounds, r);
      TakenExactly(n, p, keys, rounds, r);
      var s := rounds.states[r];
      assert vtx[..|s.vtx|] == s.vtx;
      if PoolAccepted(n, PoolView(n, vtx).value, n.mempool[h]) {
        AcceptedEarlier(n, vtx, |s.vtx|, n.mempool[h]);
      }
    }
  }

  lemma HadItsRound(n: Node, h: nat, order: seq<nat>, vtx: seq<nat>)
    requires h in n.mempool && (h in Included(order) <==> Parents(n, n.mempool[h]) <= Included(vtx))
    requires forall q :: q in Parents(n, n.mempool[h]) ==> q in vtx
    ensures h in order
  {
    hide Parents;
  }
}
