/** Money supply: the sum of all unspent transparent outputs in the transaction index, and
    how connecting a transaction changes it. */
module Supply {
  import opened Basics
  import opened TxIndexing

  // ----- a sum over a finite map -----

  /** What one output contributes: its value, while it is unspent and transparent. */
  function OutputValue(e: TxIndex, tx: Tx, n: nat): int
    requires n < |e.vSpent|
  {
    if n < |tx.vout| && e.vSpent[n] == Unspent && !tx.IsAnonOutput(n) then tx.vout[n].nValue else 0
  }

  function OutputsValue(e: TxIndex, tx: Tx, k: nat): int
    requires k <= |e.vSpent|
  {
    if k == 0 then 0 else OutputsValue(e, tx, k - 1) + OutputValue(e, tx, k - 1)
  }

  /** The unspent transparent value of one connected transaction. */
  function EntryValue(e: TxIndex): int {
    if ReadTx(e.pos).None? then 0 else OutputsValue(e, ReadTx(e.pos).value, |e.vSpent|)
  }

  ghost function SumOver(view: View, keys: set<nat>): int
    requires keys <= view.Keys
    decreases |keys|
  {
    if keys == {} then 0
    else
      var h := AnyOf(keys);
      EntryValue(view[h]) + SumOver(view, keys - {h})
  }

  /** The unspent transparent value of the whole index. */
  ghost function Total(view: View): int {
    SumOver(view, view.Keys)
  }

  /** The order in which the entries are added up does not matter. */
  lemma {:induction false} SumOverTakes(view: View, keys: set<nat>, h: nat)
    requires keys <= view.Keys && h in keys
    ensures SumOver(view, keys) == EntryValue(view[h]) + SumOver(view, keys - {h})
    decreases |keys|
  {
    var g := AnyOf(keys);
    if g != h {
      SumOverTakes(view, keys - {g}, h);
      SumOverTakes(view, keys - {h}, g);
      assert keys - {g} - {h} == keys - {h} - {g};
    }
  }

  lemma {:induction false} SumOverSame(v: View, w: View, keys: set<nat>)
    requires keys <= v.Keys && keys <= w.Keys && forall h :: h in keys ==> v[h] == w[h]
    ensures SumOver(v, keys) == SumOver(w, keys)
    decreases |keys|
  {
    if keys != {} {
      SumOverSame(v, w, keys - {AnyOf(keys)});
    }
  }

  /** Replacing or adding one entry. */
  lemma TotalOfUpdate(view: View, h: nat, e: TxIndex)
    ensures Total(view[h := e]) == Total(view) - (if h in view then EntryValue(view[h]) else 0) + EntryValue(e)
  {
    var w := view[h := e];
    SumOverTakes(w, w.Keys, h);
    assert w.Keys - {h} == view.Keys - {h};
    SumOverSame(w, view, view.Keys - {h});
    if h in view {
      SumOverTakes(view, view.Keys, h);
    } else {
      assert view.Keys - {h} == view.Keys;
    }
  }

  // ----- one output spent, one transaction added -----

  lemma {:induction false} OutputsValueOfMark(e: TxIndex, tx: Tx, n: nat, pos: DiskTxPos, k: nat)
    requires n < |e.vSpent| && k <= |e.vSpent| && pos != Unspent
    ensures OutputsValue(e.(vSpent := e.vSpent[n := pos]), tx, k) ==
            OutputsValue(e, tx, k) - if n < k then OutputValue(e, tx, n) else 0
    decreases k
  {
    if k > 0 {
      OutputsValueOfMark(e, tx, n, pos, k - 1);
    }
  }

  /** The transparent value that spending o removes from the index. */
  function SpentValue(view: View, o: OutPoint): int
    requires InRange(view, o)
  {
    var e := view[o.hash];
    if ReadTx(e.pos).None? then 0 else OutputValue(e, ReadTx(e.pos).value, o.n)
  }

  lemma TotalOfMark(view: View, o: OutPoint, pos: DiskTxPos)
    requires InRange(view, o) && pos != Unspent
    ensures Total(Mark(view, o, pos)) == Total(view) - SpentValue(view, o)
  {
    var e := view[o.hash];
    TotalOfUpdate(view, o.hash, e.(vSpent := e.vSpent[o.n := pos]));
    if ReadTx(e.pos).Some? {
      OutputsValueOfMark(e, ReadTx(e.pos).value, o.n, pos, |e.vSpent|);
    }
  }

  /** The value an input brings, read from the transaction it names. */
  function PrevValue(view: View, o: OutPoint): int {
    if o.hash in view && ReadTx(view[o.hash].pos).Some? && o.n < |ReadTx(view[o.hash].pos).value.vout|
    then ReadTx(view[o.hash].pos).value.vout[o.n].nValue else 0
  }

  function PrevValues(view: View, ins: seq<OutPoint>): int
    decreases |ins|
  {
    if ins == [] then 0 else PrevValue(view, ins[0]) + PrevValues(view, ins[1..])
  }

  /** The input names a transparent output. */
  predicate NamesTransparent(view: View, o: OutPoint) {
    && o.hash in view && ReadTx(view[o.hash].pos).Some? && o.n < |ReadTx(view[o.hash].pos).value.vout|
    && !ReadTx(view[o.hash].pos).value.IsAnonOutput(o.n)
  }

  lemma {:induction false} PrevValuesOfMark(view: View, o: OutPoint, pos: DiskTxPos, ins: seq<OutPoint>)
    requires InRange(view, o)
    ensures PrevValues(Mark(view, o, pos), ins) == PrevValues(view, ins)
    decreases |ins|
  {
    if ins != [] {
      PrevValuesOfMark(view, o, pos, ins[1..]);
    }
  }

  /** Spending transparent outputs removes exactly their value. */
  lemma {:induction false} TotalOfSpendAll(view: View, ins: seq<OutPoint>, pos: DiskTxPos)
    requires pos != Unspent && SpendAll(view, ins, pos).Some? && forall o :: o in ins ==> NamesTransparent(view, o)
    ensures Total(SpendAll(view, ins, pos).value) == Total(view) - PrevValues(view, ins)
    decreases |ins|
  {
    if ins != [] {
      var middle := Mark(view, ins[0], pos);
      assert ins[0] in ins;
      TotalOfMark(view, ins[0], pos);
      forall o | o in ins[1..] ensures NamesTransparent(middle, o) {
        assert o in ins;
      }
      TotalOfSpendAll(middle, ins[1..], pos);
      PrevValuesOfMark(view, ins[0], pos, ins[1..]);
    }
  }

  function ValueOut(tx: Tx): int {
    ValueOutTo(tx, |tx.vout|)
  }

  function ValueOutTo(tx: Tx, k: nat): int
    requires k <= |tx.vout|
  {
    if k == 0 then 0 else ValueOutTo(tx, k - 1) + tx.vout[k - 1].nValue
  }

  /** The part of the outputs' value that goes to the anonymous supply. */
  function AnonOut(tx: Tx): int {
    AnonOutTo(tx, |tx.vout|)
  }

  function AnonOutTo(tx: Tx, k: nat): int
    requires k <= |tx.vout|
  {
    if k == 0 then 0 else AnonOutTo(tx, k - 1) + if tx.IsAnonOutput(k - 1) then tx.vout[k - 1].nValue else 0
  }

  lemma {:induction false} NewEntryValue(tx: Tx, pos: DiskTxPos, k: nat)
    requires k <= |tx.vout|
    ensures OutputsValue(NewTxIndex(pos, |tx.vout|), tx, k) == ValueOutTo(tx, k) - AnonOutTo(tx, k)
    decreases k
  {
    if k > 0 {
      NewEntryValue(tx, pos, k - 1);
    }
  }

  lemma {:induction false} FullySpentIsWorthless(e: TxIndex, tx: Tx, k: nat)
    requires k <= |e.vSpent| && Unspent !in e.vSpent
    ensures OutputsValue(e, tx, k) == 0
    decreases k
  {
    if k > 0 {
      FullySpentIsWorthless(e, tx, k - 1);
    }
  }

  /** Nothing is lost by writing this transaction's entry: it is new, or its old entry is
      completely spent. */
  predicate MayOverwrite(view: View, hash: nat) {
    hash in view ==> Unspent !in view[hash].vSpent
  }

  /** Conservation for one transaction: the index loses the transparent value of the inputs
      and gains that of the outputs. */
  lemma TotalOfConnectTx(view: View, tx: Tx, pos: DiskTxPos)
    requires pos != Unspent && ReadTx(pos) == Some(tx) && ConnectTx(view, tx, pos).Some? && MayOverwrite(view, tx.hash)
    requires !tx.IsCoinBase() ==> forall o :: o in Prevouts(tx) ==> NamesTransparent(view, o)
    ensures Total(ConnectTx(view, tx, pos).value) ==
              Total(view) - (if tx.IsCoinBase() then 0 else PrevValues(view, Prevouts(tx))) + ValueOut(tx) - AnonOut(tx)
  {
    var spent := view;
    if !tx.IsCoinBase() {
      TotalOfSpendAll(view, Prevouts(tx), pos);
      SpendAllMarks(view, Prevouts(tx), pos);
      spent := SpendAll(view, Prevouts(tx), pos).value;
    }
    TotalOfUpdate(spent, tx.hash, NewTxIndex(pos, |tx.vout|));
    NewEntryValue(tx, pos, |tx.vout|);
    if tx.hash in spent {
      StillFullySpent(view, spent, tx, pos);
    }
  }

  lemma StillFullySpent(view: View, spent: View, tx: Tx, pos: DiskTxPos)
    requires pos != Unspent && tx.hash in spent && MayOverwrite(view, tx.hash)
    requires spent == view || Marked(view, spent, Prevouts(tx), pos)
    ensures EntryValue(spent[tx.hash]) == 0
  {
    var e := spent[tx.hash];
    forall n | 0 <= n < |e.vSpent| ensures e.vSpent[n] != Unspent {
      assert view[tx.hash].vSpent[n] in view[tx.hash].vSpent;
    }
    if ReadTx(e.pos).Some? {
      FullySpentIsWorthless(e, ReadTx(e.pos).value, |e.vSpent|);
    }
  }
}
