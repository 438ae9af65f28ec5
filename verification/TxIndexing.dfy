/** Transactions and the transaction index: for every connected transaction, where it is
    stored and by what each of its outputs has been spent.  This module says what connecting
    and disconnecting a transaction, and then a block, do to the index. */
module TxIndexing {
  import opened Basics

  const NULL_N := 0xFFFF_FFFF

  datatype OutPoint = OutPoint(hash: nat, n: nat) {
    predicate IsNull() {
      hash == 0 && n == NULL_N
    }
  }

  /** isAnon: the input's script has the shape of an anonymous input. */
  datatype TxIn = TxIn(prevout: OutPoint, isAnon: bool)

  /** isAnon: the output's script has the shape of an anonymous output. */
  datatype TxOut = TxOut(nValue: int, isAnon: bool, scriptEmpty: bool) {
    predicate IsEmpty() {
      nValue == 0 && scriptEmpty
    }
  }

  /** isAnonVersion: the version number is that of anonymous transactions. */
  datatype Tx = Tx(hash: nat, isAnonVersion: bool, nTime: int, vin: seq<TxIn>, vout: seq<TxOut>) {
    predicate IsCoinBase() {
      |vin| == 1 && vin[0].prevout.IsNull() && |vout| >= 1
    }

    predicate IsCoinStake() {
      |vin| > 0 && !vin[0].prevout.IsNull() && |vout| >= 2 && vout[0].IsEmpty()
    }

    /** Input i takes its value from anonymous outputs and names no previous output. */
    predicate SkipsInput(i: nat)
      requires i < |vin|
    {
      isAnonVersion && vin[i].isAnon
    }

    /** Output n belongs to the anonymous supply. */
    predicate IsAnonOutput(n: nat)
      requires n < |vout|
    {
      isAnonVersion && !IsCoinBase() && vout[n].isAnon
    }
  }

  /** hashPrev, work and everything else in a header are outside this module. */
  datatype Block = Block(hash: nat, vtx: seq<Tx>)

  /** A place on disk; what is stored at a place never changes, so the place names the block. */
  datatype DiskTxPos = Unspent | InMempool | At(block: Block, i: nat)

  function ReadTx(pos: DiskTxPos): Option<Tx> {
    if pos.At? && pos.i < |pos.block.vtx| then Some(pos.block.vtx[pos.i]) else None
  }

  datatype TxIndex = TxIndex(pos: DiskTxPos, vSpent: seq<DiskTxPos>)

  function NewTxIndex(pos: DiskTxPos, nOutputs: nat): TxIndex {
    TxIndex(pos, seq(nOutputs, _ => Unspent))
  }

  type View = map<nat, TxIndex>

  // ----- one output -----

  predicate InRange(view: View, o: OutPoint) {
    o.hash in view && o.n < |view[o.hash].vSpent|
  }

  predicate Spendable(view: View, o: OutPoint) {
    InRange(view, o) && view[o.hash].vSpent[o.n] == Unspent
  }

  function Mark(view: View, o: OutPoint, pos: DiskTxPos): View
    requires InRange(view, o)
  {
    view[o.hash := view[o.hash].(vSpent := view[o.hash].vSpent[o.n := pos])]
  }

  // ----- one transaction -----

  /** The previous outputs a transaction spends, in order. */
  function Prevouts(tx: Tx): seq<OutPoint> {
    PrevoutsFrom(tx, 0)
  }

  function PrevoutsFrom(tx: Tx, i: nat): seq<OutPoint>
    requires i <= |tx.vin|
    decreases |tx.vin| - i
  {
    if i == |tx.vin| then []
    else (if tx.SkipsInput(i) then [] else [tx.vin[i].prevout]) + PrevoutsFrom(tx, i + 1)
  }

  /** The previous outputs DisconnectInputs gives back: it skips by the input's shape alone. */
  function Givebacks(tx: Tx): seq<OutPoint> {
    GivebacksFrom(tx, 0)
  }

  function GivebacksFrom(tx: Tx, i: nat): seq<OutPoint>
    requires i <= |tx.vin|
    decreases |tx.vin| - i
  {
    if i == |tx.vin| then []
    else (if tx.vin[i].isAnon then [] else [tx.vin[i].prevout]) + GivebacksFrom(tx, i + 1)
  }

  function SpendAll(view: View, ins: seq<OutPoint>, pos: DiskTxPos): Option<View>
    decreases |ins|
  {
    if ins == [] then Some(view)
    else if !Spendable(view, ins[0]) then None
    else SpendAll(Mark(view, ins[0], pos), ins[1..], pos)
  }

  /** The index after a transaction stored at pos: its inputs spent, its outputs new. */
  function ConnectTx(view: View, tx: Tx, pos: DiskTxPos): Option<View> {
    var spent := if tx.IsCoinBase() then Some(view) else SpendAll(view, Prevouts(tx), pos);
    if spent.None? then None else Some(spent.value[tx.hash := NewTxIndex(pos, |tx.vout|)])
  }

  function GiveBackAll(view: View, outs: seq<OutPoint>): Option<View>
    decreases |outs|
  {
    if outs == [] then Some(view)
    else if outs[0].hash !in view then GiveBackAll(view, outs[1..])
    else if outs[0].n >= |view[outs[0].hash].vSpent| then None
    else GiveBackAll(Mark(view, outs[0], Unspent), outs[1..])
  }

  function DisconnectTx(view: View, tx: Tx): Option<View> {
    var given := if tx.IsCoinBase() then Some(view) else GiveBackAll(view, Givebacks(tx));
    if given.None? then None else Some(given.value - {tx.hash})
  }

  // ----- one block -----

  /** The index after the first i transactions of a block. */
  function ConnectTxs(view: View, block: Block, i: nat): Option<View>
    requires i <= |block.vtx|
  {
    if i == 0 then Some(view)
    else
      var before := ConnectTxs(view, block, i - 1);
      if before.None? then None else ConnectTx(before.value, block.vtx[i - 1], At(block, i - 1))
  }

  /** The index after the first i transactions of a block are taken back, last one first. */
  function DisconnectTxs(view: View, block: Block, i: nat): Option<View>
    requires i <= |block.vtx|
    decreases i
  {
    if i == 0 then Some(view)
    else
      var after := DisconnectTx(view, block.vtx[i - 1]);
      if after.None? then None else DisconnectTxs(after.value, block, i - 1)
  }

  ghost predicate DistinctTxids(block: Block) {
    forall i, j :: 0 <= i < j < |block.vtx| ==> block.vtx[i].hash != block.vtx[j].hash
  }

  /** Every transaction of the block is new to the index. */
  ghost predicate AllNew(view: View, block: Block) {
    forall i :: 0 <= i < |block.vtx| ==> block.vtx[i].hash !in view
  }

  /** Input j is one that ConnectInputs spends and DisconnectInputs skips. */
  predicate Straddles(tx: Tx, j: int) {
    0 <= j < |tx.vin| && !tx.IsCoinBase() && !tx.isAnonVersion && tx.vin[j].isAnon
  }

  /** Inputs of anonymous shape in ordinary transactions spend only outputs that are not in
      the index before the block. */
  ghost predicate AnonShapesStayInside(view: View, block: Block) {
    forall i, j :: 0 <= i < |block.vtx| && Straddles(block.vtx[i], j) ==> block.vtx[i].vin[j].prevout.hash !in view
  }

  /** The condition, to be checked before a block is connected, under which disconnecting it
      again restores the index. */
  ghost predicate Undoable(view: View, block: Block) {
    AllNew(view, block) && AnonShapesStayInside(view, block)
  }

  // ----- what spending and giving back do, output by output -----

  /** after differs from before exactly in the listed outputs, which read pos. */
  ghost predicate Marked(before: View, after: View, outs: seq<OutPoint>, pos: DiskTxPos) {
    && (forall h :: h in after <==> h in before)
    && forall h :: h in after ==>
         && after[h].pos == before[h].pos && |after[h].vSpent| == |before[h].vSpent|
         && forall n :: 0 <= n < |after[h].vSpent| ==>
              after[h].vSpent[n] == if OutPoint(h, n) in outs then pos else before[h].vSpent[n]
  }

  lemma MarkedFirst(before: View, middle: View, after: View, outs: seq<OutPoint>, pos: DiskTxPos)
    requires outs != [] && InRange(before, outs[0]) && middle == Mark(before, outs[0], pos)
    requires Marked(middle, after, outs[1..], pos)
    ensures Marked(before, after, outs, pos)
  {
    forall h, n | h in after && 0 <= n < |after[h].vSpent|
      ensures after[h].vSpent[n] == if OutPoint(h, n) in outs then pos else before[h].vSpent[n]
    {
      assert OutPoint(h, n) in outs <==> OutPoint(h, n) == outs[0] || OutPoint(h, n) in outs[1..];
    }
  }

  /** Spending succeeds on distinct unspent outputs only, and marks exactly these. */
  lemma {:induction false} SpendAllMarks(view: View, ins: seq<OutPoint>, pos: DiskTxPos)
    requires pos != Unspent && SpendAll(view, ins, pos).Some?
    ensures Marked(view, SpendAll(view, ins, pos).value, ins, pos)
    ensures forall o :: o in ins ==> Spendable(view, o)
    ensures forall i, j :: 0 <= i < j < |ins| ==> ins[i] != ins[j]
    decreases |ins|
  {
    if ins != [] {
      var middle := Mark(view, ins[0], pos);
      SpendAllMarks(middle, ins[1..], pos);
      MarkedFirst(view, middle, SpendAll(view, ins, pos).value, ins, pos);
      SpendableBefore(view, ins, pos);
      assert !Spendable(middle, ins[0]);
      forall i, j | 0 <= i < j < |ins| ensures ins[i] != ins[j] {
        assert ins[j] == ins[1..][j - 1];
        if i > 0 {
          assert ins[i] == ins[1..][i - 1];
        }
      }
    }
  }

  lemma SpendableBefore(view: View, ins: seq<OutPoint>, pos: DiskTxPos)
    requires pos != Unspent && ins != [] && Spendable(view, ins[0])
    requires forall o :: o in ins[1..] ==> Spendable(Mark(view, ins[0], pos), o)
    ensures forall o :: o in ins ==> Spendable(view, o)
  {
    forall o | o in ins ensures Spendable(view, o) {
      if o != ins[0] {
        assert o in ins[1..];
      }
    }
  }

  /** Giving back known outputs always succeeds and marks exactly these unspent. */
  lemma {:induction false} GiveBackAllMarks(view: View, outs: seq<OutPoint>)
    requires forall o :: o in outs ==> InRange(view, o)
    ensures GiveBackAll(view, outs).Some? && Marked(view, GiveBackAll(view, outs).value, outs, Unspent)
    decreases |outs|
  {
    if outs != [] {
      assert outs[0] in outs;
      var middle := Mark(view, outs[0], Unspent);
      forall o | o in outs[1..] ensures InRange(middle, o) {
        assert o in outs;
      }
      GiveBackAllMarks(middle, outs[1..]);
      MarkedFirst(view, middle, GiveBackAll(view, outs).value, outs, Unspent);
    }
  }

  /** Whatever is given back was spent: the two lists differ in the straddling inputs only. */
  lemma {:induction false} GivebacksAreSpent(tx: Tx, i: nat, o: OutPoint)
    requires i <= |tx.vin|
    ensures o in GivebacksFrom(tx, i) ==> o in PrevoutsFrom(tx, i)
    ensures o in GivebacksFrom(tx, i) ==> exists j :: i <= j < |tx.vin| && !tx.vin[j].isAnon && tx.vin[j].prevout == o
    ensures o in PrevoutsFrom(tx, i) && o !in GivebacksFrom(tx, i) ==>
              exists j :: i <= j < |tx.vin| && !tx.isAnonVersion && tx.vin[j].isAnon && tx.vin[j].prevout == o
    decreases |tx.vin| - i
  {
    if i < |tx.vin| {
      GivebacksAreSpent(tx, i + 1, o);
    }
  }

  /** An output that no straddling input names is given back exactly when it was spent. */
  lemma SpentIsGivenBack(tx: Tx, o: OutPoint)
    requires !tx.IsCoinBase() && forall j :: Straddles(tx, j) ==> tx.vin[j].prevout != o
    ensures o in Prevouts(tx) <==> o in Givebacks(tx)
  {
    GivebacksAreSpent(tx, 0, o);
    assert forall j :: 0 <= j < |tx.vin| && !tx.isAnonVersion && tx.vin[j].isAnon ==> Straddles(tx, j);
  }

  /** An ordinary transaction spends the previous output of every input. */
  lemma {:induction false} OrdinarySpendsAll(tx: Tx, i: nat)
    requires i <= |tx.vin| && !tx.isAnonVersion
    ensures |PrevoutsFrom(tx, i)| == |tx.vin| - i
    ensures forall j :: i <= j < |tx.vin| ==> PrevoutsFrom(tx, i)[j - i] == tx.vin[j].prevout
    decreases |tx.vin| - i
  {
    if i < |tx.vin| {
      OrdinarySpendsAll(tx, i + 1);
      assert PrevoutsFrom(tx, i) == [tx.vin[i].prevout] + PrevoutsFrom(tx, i + 1);
    }
  }
}
