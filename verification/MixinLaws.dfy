/** What the draws of a ring mean, written out on the entries of the containers. */
module MixinLaws {
  import opened MixinPool
  import opened Mixins

  /** One key leaves one entry and joins the ring: that at the drawn place among the entry's keys. */
  lemma TookMeans(r: Ring, id: ContainerId, k: nat, draw: nat, r': Ring)
    requires Took(r, id, k, draw, r')
    ensures r.cs.Get(id) == (if id == RECENT then r.cs.recent else r.cs.old_)
    ensures r.Picks(id) == if id == RECENT then r.pickedRecent else r.pickedOld
    ensures var c, c' := r.cs.Get(id), r'.cs.Get(id);
            && k < |c| == |c'| && |c[k].vOutPubKeys| >= 1
            && r'.keys == r.keys + [c[k].vOutPubKeys[draw % |c[k].vOutPubKeys|].pubKey]
            && c'[k].txHash == c[k].txHash && |c'[k].vOutPubKeys| + 1 == |c[k].vOutPubKeys|
            && (forall j :: 0 <= j < |c'[k].vOutPubKeys| ==>
                  c'[k].vOutPubKeys[j] == c[k].vOutPubKeys[if j < draw % |c[k].vOutPubKeys| then j else j + 1])
            && (forall i :: 0 <= i < |c| && i != k ==> c'[i] == c[i])
    ensures id == OLD ==> r'.cs.recent == r.cs.recent && r'.pickedRecent == r.pickedRecent
    ensures id == RECENT ==> r'.cs.old_ == r.cs.old_ && r'.pickedOld == r.pickedOld
    ensures forall x :: x in r'.Picks(id) <==> x in r.Picks(id) || x == k
  {
    var c := r.cs.Get(id);
    var a := Below(draw, |c[k].vOutPubKeys|);
    assert a == draw % |c[k].vOutPubKeys|;
    var other := if id == OLD then RECENT else OLD;
    assert r'.Picks(other) == r.Picks(other);
  }

  /** A member from a transaction that earlier rings used: if a number below 33 of 100 is drawn, and
      one of these has an entry that this ring took no key from, it is the first such one after
      shuffling, and they stay in that order. */
  lemma AgainMeans(r: Ring, vUsedTx: seq<UsedTx>, nUsedTx: nat, d: Draws, r': Ring, vUsedTx': seq<UsedTx>,
                   v: seq<UsedTx>)
    returns (i: nat, id: ContainerId, k: nat)
    requires Member(r, vUsedTx, nUsedTx, d, r', vUsedTx')
    requires nUsedTx <= |vUsedTx| && v == ShuffledBy(vUsedTx, nUsedTx, d.swap) && d.mode % 100 < 33
    requires exists x: nat, j: nat ::
               x < nUsedTx && j < |r.cs.Get(v[x].0)| && r.cs.Get(v[x].0)[j].txHash == v[x].1 && j !in r.Picks(v[x].0)
    ensures vUsedTx' == v && i < nUsedTx <= |v| && k < |r.cs.Get(id)| && k !in r.Picks(id)
    ensures v[i] == (id, r.cs.Get(id)[k].txHash) && Took(r, id, k, d.anon, r')
    ensures forall x: nat, j: nat :: x < i && j < |r.cs.Get(v[x].0)| && r.cs.Get(v[x].0)[j].txHash == v[x].1 ==>
              j in r.Picks(v[x].0)
  {
    hide *;
    SomeUsableMeans(r, v, nUsedTx);
    AgainUnfolds(r, vUsedTx, nUsedTx, d, r', vUsedTx', v);
    i :| FirstUsed(r, v, nUsedTx, i, d, r');
    k := FirstUsedMeans(r, v, nUsedTx, i, d, r');
    id := v[i].0;
  }

  lemma AgainUnfolds(r: Ring, vUsedTx: seq<UsedTx>, nUsedTx: nat, d: Draws, r': Ring, vUsedTx': seq<UsedTx>,
                     v: seq<UsedTx>)
    requires Member(r, vUsedTx, nUsedTx, d, r', vUsedTx')
    requires nUsedTx <= |vUsedTx| && v == ShuffledBy(vUsedTx, nUsedTx, d.swap) && d.mode % 100 < 33
    requires nUsedTx > 0 && SomeUsable(r, v, nUsedTx)
    ensures vUsedTx' == v && exists i: nat :: FirstUsed(r, v, nUsedTx, i, d, r')
  {
    hide ShuffledBy, SomeUsable, FirstUsed, DrawnEntry;
  }

  /** Otherwise, it is from the drawn one of the entries not picked from, among the recent ones
      exactly when some of these are left and the number drawn is at least 66 or no old ones are
      left; and its transaction becomes a used one. */
  lemma DrawnMeans(r: Ring, vUsedTx: seq<UsedTx>, nUsedTx: nat, d: Draws, r': Ring, vUsedTx': seq<UsedTx>,
                   v: seq<UsedTx>)
    returns (id: ContainerId, k: nat)
    requires Member(r, vUsedTx, nUsedTx, d, r', vUsedTx')
    requires nUsedTx <= |vUsedTx|
    requires v == if d.mode % 100 < 33 && nUsedTx > 0 then ShuffledBy(vUsedTx, nUsedTx, d.swap) else vUsedTx
    requires d.mode % 100 < 33 ==> forall x: nat, j: nat ::
               x < nUsedTx && j < |r.cs.Get(v[x].0)| && r.cs.Get(v[x].0)[j].txHash == v[x].1 ==> j in r.Picks(v[x].0)
    ensures id == RECENT <==>
              |r.cs.recent| > |r.pickedRecent| && (66 <= d.mode % 100 || |r.cs.old_| == |r.pickedOld|)
    ensures k < |r.cs.Get(id)| && k !in r.Picks(id) && |r.Picks(id)| < |r.cs.Get(id)| && Took(r, id, k, d.anon, r')
    ensures var m := k - d.tx % (|r.cs.Get(id)| - |r.Picks(id)|);
            && 0 <= m <= |r.Picks(id)| && (forall i :: 0 <= i < m ==> r.Picks(id)[i] < k)
            && forall i :: m <= i < |r.Picks(id)| ==> k < r.Picks(id)[i]
    ensures vUsedTx' == if (id, r.cs.Get(id)[k].txHash) in v then v else v + [(id, r.cs.Get(id)[k].txHash)]
  {
    hide *;
    if nUsedTx > 0 && d.mode % 100 < 33 {
      SomeUsableMeans(r, v, nUsedTx);
    }
    DrawnUnfolds(r, vUsedTx, nUsedTx, d, r', vUsedTx', v);
    id := Chosen(r, d.mode % 100);
    k := DrawnEntryMeans(r, v, d.mode % 100, d, r', vUsedTx');
  }

  lemma DrawnUnfolds(r: Ring, vUsedTx: seq<UsedTx>, nUsedTx: nat, d: Draws, r': Ring, vUsedTx': seq<UsedTx>,
                     v: seq<UsedTx>)
    requires Member(r, vUsedTx, nUsedTx, d, r', vUsedTx')
    requires nUsedTx <= |vUsedTx|
    requires v == if d.mode % 100 < 33 && nUsedTx > 0 then ShuffledBy(vUsedTx, nUsedTx, d.swap) else vUsedTx
    requires d.mode % 100 < 33 && nUsedTx > 0 ==> !SomeUsable(r, v, nUsedTx)
    ensures DrawnEntry(r, v, d.mode % 100, d, r', vUsedTx')
  {
    hide ShuffledBy, SomeUsable, FirstUsed, DrawnEntry;
  }

  lemma SomeUsableMeans(r: Ring, v: seq<UsedTx>, nUsedTx: nat)
    requires nUsedTx <= |v|
    ensures SomeUsable(r, v, nUsedTx) <==> exists i: nat, j: nat ::
              i < nUsedTx && j < |r.cs.Get(v[i].0)| && r.cs.Get(v[i].0)[j].txHash == v[i].1 && j !in r.Picks(v[i].0)
  {
    if i: nat, j: nat :| i < nUsedTx && j < |r.cs.Get(v[i].0)| && r.cs.Get(v[i].0)[j].txHash == v[i].1 &&
                         j !in r.Picks(v[i].0) {
      assert Usable(r, v[i]);
    }
  }

  lemma FirstUsedMeans(r: Ring, v: seq<UsedTx>, nUsedTx: nat, i: nat, d: Draws, r': Ring) returns (k: nat)
    requires FirstUsed(r, v, nUsedTx, i, d, r')
    ensures i < nUsedTx <= |v| && k < |r.cs.Get(v[i].0)| && k !in r.Picks(v[i].0)
    ensures Took(r, v[i].0, k, d.anon, r') && v[i] == (v[i].0, r.cs.Get(v[i].0)[k].txHash)
    ensures forall x: nat, j: nat :: x < i && j < |r.cs.Get(v[x].0)| && r.cs.Get(v[x].0)[j].txHash == v[x].1 ==>
              j in r.Picks(v[x].0)
  {
    hide Took;
    k :| FirstUsable(r, v, nUsedTx, i, k) && Took(r, v[i].0, k, d.anon, r');
    forall x: nat, j: nat | x < i && j < |r.cs.Get(v[x].0)| && r.cs.Get(v[x].0)[j].txHash == v[x].1
      ensures j in r.Picks(v[x].0)
    {
      assert !Usable(r, v[x]);
    }
  }

  lemma DrawnEntryMeans(r: Ring, v: seq<UsedTx>, mode: nat, d: Draws, r': Ring, vUsedTx': seq<UsedTx>) returns (k: nat)
    requires DrawnEntry(r, v, mode, d, r', vUsedTx')
    ensures Chosen(r, mode) == RECENT <==>
              |r.cs.recent| > |r.pickedRecent| && (66 <= mode || |r.cs.old_| == |r.pickedOld|)
    ensures var id := Chosen(r, mode);
            && k < |r.cs.Get(id)| && k !in r.Picks(id) && |r.Picks(id)| < |r.cs.Get(id)|
            && Took(r, id, k, d.anon, r')
            && (var m := k - d.tx % (|r.cs.Get(id)| - |r.Picks(id)|);
                && 0 <= m <= |r.Picks(id)| && (forall i :: 0 <= i < m ==> r.Picks(id)[i] < k)
                && forall i :: m <= i < |r.Picks(id)| ==> k < r.Picks(id)[i])
            && vUsedTx' == if (id, r.cs.Get(id)[k].txHash) in v then v else v + [(id, r.cs.Get(id)[k].txHash)]
  {
    hide Took;
    var id := Chosen(r, mode);
    k :| IsFree(r, id, d.tx, k) && Took(r, id, k, d.anon, r') &&
         vUsedTx' == if (id, r.cs.Get(id)[k].txHash) in v then v else v + [(id, r.cs.Get(id)[k].txHash)];
    assert Below(d.tx, |r.cs.Get(id)| - |r.Picks(id)|) == d.tx % (|r.cs.Get(id)| - |r.Picks(id)|);
  }

  /** A ring starts with nothing picked, and grows by one member after the other; whatever earlier
      rings used may be used again, and nothing that this one is the first to use. */
  lemma TurnsMean(cs: Containers, vUsedTx: seq<UsedTx>, draws: nat -> Draws, turns: seq<Turn>, n: nat, i: nat)
    requires TurnsOk(cs, vUsedTx, draws, turns, n) && i < n
    ensures |turns| - 1 == n && turns[0].ring.cs == cs && turns[0].vUsedTx == vUsedTx
    ensures turns[0].ring.pickedOld == turns[0].ring.pickedRecent == turns[0].ring.keys == []
    ensures Member(turns[i].ring, turns[i].vUsedTx, |vUsedTx|, draws(i), turns[i + 1].ring, turns[i + 1].vUsedTx)
  {
    hide Member;
  }
}
