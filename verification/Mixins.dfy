/** Picking ring members: no key is used twice, no ring gets two keys of one transaction. */
module Mixins {
  import opened MixinPool

  type UsedTx = (ContainerId, nat)

  /** What is drawn for one member of a ring: whether and where to look, how to shuffle, which
      entry, and which key. */
  datatype Draws = Draws(mode: nat, swap: nat -> nat, tx: nat, anon: nat)

  /** A draw below n. */
  function Below(draw: nat, n: nat): (r: nat)
    requires n > 0
    ensures r < n && (draw < n ==> r == draw)
  {
    draw % n
  }

  // ----- what picking does to a container -----

  /** An entry before and after: one key gone if it was picked from. */
  ghost predicate EntryAfter(e0: TxMixins, e: TxMixins, picked: bool) {
    && e.txHash == e0.txHash
    && if picked then exists a: nat :: a < |e0.vOutPubKeys| && e.vOutPubKeys == Without(e0.vOutPubKeys, a)
       else e.vOutPubKeys == e0.vOutPubKeys
  }

  /** c is c0 with one key taken from each of the picked entries, and from no other. */
  ghost predicate LostOne(c0: Container, c: Container, picks: seq<nat>) {
    && |c| == |c0| && Positions(picks, |c|)
    && forall k :: 0 <= k < |c| ==> EntryAfter(c0[k], c[k], k in picks)
  }

  lemma {:induction false} LostNone(c: Container)
    ensures LostOne(c, c, [])
  {
  }

  /** An entry that was not picked from yet still has all its keys. */
  lemma {:induction false} NotPickedYet(c0: Container, c: Container, picks: seq<nat>, k: nat)
    requires LostOne(c0, c, picks) && k < |c| && k !in picks && NoEmptyTx(c0)
    ensures c[k] == c0[k] && c[k].vOutPubKeys != []
  {
    assert EntryAfter(c0[k], c[k], false);
  }

  lemma {:induction false} LostOneMore(c0: Container, c: Container, picks: seq<nat>, k: nat, a: nat, picks': seq<nat>)
    requires LostOne(c0, c, picks) && k < |c| && k !in picks && a < |c[k].vOutPubKeys| && c[k] == c0[k]
    requires Positions(picks', |c|) && forall x :: x in picks' <==> x in picks || x == k
    ensures LostOne(c0, c[k := c[k].(vOutPubKeys := Without(c[k].vOutPubKeys, a))], picks')
  {
    var c' := c[k := c[k].(vOutPubKeys := Without(c[k].vOutPubKeys, a))];
    forall i | 0 <= i < |c'| ensures EntryAfter(c0[i], c'[i], i in picks') {
      assert EntryAfter(c0[i], c[i], i in picks);
    }
  }

  lemma {:induction false} PoolLostOne(c: Container, k: nat, a: nat)
    requires k < |c| && a < |c[k].vOutPubKeys|
    ensures Pool(c) == Pool(c[k := c[k].(vOutPubKeys := Without(c[k].vOutPubKeys, a))]) +
            multiset{c[k].vOutPubKeys[a].pubKey}
  {
    var e := c[k].(vOutPubKeys := Without(c[k].vOutPubKeys, a));
    PoolOfUpdate(c, k, e);
    KeysOfWithout(c[k].vOutPubKeys, a);
    Cancelled(Pool(c), Pool(c[k := e]), KeysOf(e.vOutPubKeys), multiset{c[k].vOutPubKeys[a].pubKey});
  }

  lemma {:induction false} Cancelled(p: multiset<nat>, q: multiset<nat>, e: multiset<nat>, x: multiset<nat>)
    requires q + (e + x) == p + e
    ensures p == q + x
  {
    forall y: nat ensures p[y] == (q + x)[y] {
      assert (q + (e + x))[y] == (p + e)[y];
    }
  }

  ghost predicate SameHashes(c: Container, c': Container) {
    |c'| == |c| && forall k :: 0 <= k < |c| ==> c'[k].txHash == c[k].txHash
  }

  /** Takes the drawn key out of an entry that was not picked from yet. */
  method TakeAnon(ghost c0: Container, c: Container, picks: seq<nat>, k: nat, draw: nat)
    returns (c': Container, picks': seq<nat>, pubKey: nat)
    requires LostOne(c0, c, picks) && NoEmptyTx(c0) && k < |c| && k !in picks
    ensures LostOne(c0, c', picks') && |picks'| == |picks| + 1
    ensures Pool(c) == Pool(c') + multiset{pubKey}
    ensures SameHashes(c, c') && forall x :: x in picks' <==> x in picks || x == k
    ensures KeyTaken(c, k, draw, c', pubKey)
  {
    NotPickedYet(c0, c, picks, k);
    picks' := InsertPosition(picks, k, |c|);
    var iPickAnon := Below(draw, |c[k].vOutPubKeys|);
    LostOneMore(c0, c, picks, k, iPickAnon, picks');
    PoolLostOne(c, k, iPickAnon);
    pubKey := c[k].vOutPubKeys[iPickAnon].pubKey;
    c' := c[k := c[k].(vOutPubKeys := Without(c[k].vOutPubKeys, iPickAnon))];
  }

  /** The key at the drawn place of entry k is gone. */
  ghost predicate KeyTaken(c: Container, k: nat, draw: nat, c': Container, pubKey: nat) {
    && k < |c| && c[k].vOutPubKeys != []
    && var a := Below(draw, |c[k].vOutPubKeys|);
       && pubKey == c[k].vOutPubKeys[a].pubKey
       && c' == c[k := TxMixins(c[k].txHash, c[k].vOutPubKeys[..a] + c[k].vOutPubKeys[a + 1..])]
  }

  // ----- used transactions -----

  ghost predicate Unique(s: seq<UsedTx>) {
    forall x :: multiset(s)[x] <= 1
  }

  function Swapped(v: seq<UsedTx>, i: nat, j: nat): (r: seq<UsedTx>)
    requires i < |v| && j < |v|
    ensures |r| == |v| && multiset(r) == multiset(v) && r[i] == v[j] && r[j] == v[i]
    ensures forall k :: 0 <= k < |v| && k != i && k != j ==> r[k] == v[k]
  {
    v[i := v[j]][j := v[i]]
  }

  /** The first n elements shuffled: from the last one on, each changes places with a drawn one up to it. */
  function ShuffledBy(v: seq<UsedTx>, n: nat, swap: nat -> nat): (r: seq<UsedTx>)
    requires n <= |v|
    ensures |r| == |v|
    decreases n
  {
    if n <= 1 then v else ShuffledBy(Swapped(v, n - 1, Below(swap(n - 1), n)), n - 1, swap)
  }

  lemma {:induction false} ShuffleKeeps(v: seq<UsedTx>, n: nat, swap: nat -> nat)
    requires n <= |v|
    ensures var r := ShuffledBy(v, n, swap);
            |r| == |v| && multiset(r) == multiset(v) && forall k :: n <= k < |v| ==> r[k] == v[k]
    decreases n
  {
    if n > 1 {
      ShuffleKeeps(Swapped(v, n - 1, Below(swap(n - 1), n)), n - 1, swap);
      hide Swapped;
    }
  }

  method Shuffle(v: seq<UsedTx>, n: nat, swap: nat -> nat) returns (r: seq<UsedTx>)
    requires n <= |v|
    ensures r == ShuffledBy(v, n, swap) && |r| == |v| && multiset(r) == multiset(v)
  {
    hide Swapped, Below;
    r := v;
    var i := n;
    while i > 1
      invariant 0 <= i <= n && |r| == |v| && ShuffledBy(r, i, swap) == ShuffledBy(v, n, swap)
    {
      i := i - 1;
      r := Swapped(r, i, Below(swap(i), i + 1));
    }
    ShuffleKeeps(v, n, swap);
  }

  /** Of the shuffled ones, the last is the one that was drawn for its place. */
  lemma LastIsDrawn(v: seq<UsedTx>, n: nat, swap: nat -> nat)
    requires 1 < n <= |v|
    ensures |ShuffledBy(v, n, swap)| == |v| && ShuffledBy(v, n, swap)[n - 1] == v[swap(n - 1) % n]
  {
    ShuffleKeeps(Swapped(v, n - 1, Below(swap(n - 1), n)), n - 1, swap);
    hide Swapped;
  }

  /** Only draws for places below n matter. */
  lemma {:induction false} SameDraws(v: seq<UsedTx>, n: nat, swap: nat -> nat, swap': nat -> nat)
    requires n <= |v| && forall i :: 0 <= i < n ==> swap(i) == swap'(i)
    ensures ShuffledBy(v, n, swap) == ShuffledBy(v, n, swap')
    decreases n
  {
    if n > 1 {
      SameDraws(Swapped(v, n - 1, Below(swap(n - 1), n)), n - 1, swap, swap');
    }
  }

  /** The orders that v can be brought into by moving its first n elements only. */
  ghost predicate Reorders(v: seq<UsedTx>, n: nat, w: seq<UsedTx>) {
    n <= |v| == |w| && multiset(w) == multiset(v) && forall k :: n <= k < |v| ==> w[k] == v[k]
  }

  /** Every order of the first n elements can be drawn, and no other. */
  lemma {:induction false} AnyOrder(v: seq<UsedTx>, n: nat, w: seq<UsedTx>) returns (swap: nat -> nat)
    requires Reorders(v, n, w)
    ensures ShuffledBy(v, n, swap) == w
    decreases n
  {
    hide *;
    if n <= 1 {
      swap := i => 0;
      SameWhenOne(v, n, w, swap);
    } else {
      var j := SameElement(v, n, w);
      ReordersRest(v, n, w, j);
      var below := AnyOrder(Swapped(v, n - 1, j), n - 1, w);
      swap := WithDraw(below, n - 1, j);
      OneMoreDraw(v, n, w, below, j);
    }
  }

  function WithDraw(swap: nat -> nat, n: nat, j: nat): nat -> nat {
    i => if i == n then j else swap(i)
  }

  lemma OneMoreDraw(v: seq<UsedTx>, n: nat, w: seq<UsedTx>, below: nat -> nat, j: nat)
    requires 1 < n <= |v| && j < n && ShuffledBy(Swapped(v, n - 1, j), n - 1, below) == w
    ensures ShuffledBy(v, n, WithDraw(below, n - 1, j)) == w
  {
    hide *;
    var swap := WithDraw(below, n - 1, j);
    DrawsAre(below, n - 1, j);
    ShuffleUnfolds(v, n, swap, j);
    SameDraws(Swapped(v, n - 1, j), n - 1, swap, below);
  }

  lemma DrawsAre(swap: nat -> nat, n: nat, j: nat)
    ensures WithDraw(swap, n, j)(n) == j && forall i: nat :: i != n ==> WithDraw(swap, n, j)(i) == swap(i)
  {
  }

  lemma ShuffleUnfolds(v: seq<UsedTx>, n: nat, swap: nat -> nat, j: nat)
    requires 1 < n <= |v| && swap(n - 1) == j < n
    ensures ShuffledBy(v, n, swap) == ShuffledBy(Swapped(v, n - 1, j), n - 1, swap)
  {
    hide Swapped;
  }

  lemma ReordersRest(v: seq<UsedTx>, n: nat, w: seq<UsedTx>, j: nat)
    requires 1 < n && Reorders(v, n, w) && j < n && v[j] == w[n - 1]
    ensures Reorders(Swapped(v, n - 1, j), n - 1, w)
  {
    hide Swapped;
  }

  lemma SameElement(v: seq<UsedTx>, n: nat, w: seq<UsedTx>) returns (j: nat)
    requires 1 <= n && Reorders(v, n, w)
    ensures j < n <= |v| == |w| && v[j] == w[n - 1]
  {
    assert w[n..] == v[n..];
    assert v == v[..n] + v[n..] && w == w[..n] + w[n..];
    SameHead(v[..n], w[..n], v[n..]);
    assert w[..n][n - 1] in multiset(w[..n]);
    assert w[n - 1] in v[..n];
    j :| 0 <= j < n && v[..n][j] == w[n - 1];
  }

  lemma SameHead(a: seq<UsedTx>, b: seq<UsedTx>, tail: seq<UsedTx>)
    requires multiset(a + tail) == multiset(b + tail)
    ensures multiset(a) == multiset(b)
  {
    forall x ensures multiset(a)[x] == multiset(b)[x] {
      assert multiset(a + tail)[x] == multiset(a)[x] + multiset(tail)[x];
      assert multiset(b + tail)[x] == multiset(b)[x] + multiset(tail)[x];
    }
  }

  lemma SameWhenOne(v: seq<UsedTx>, n: nat, w: seq<UsedTx>, swap: nat -> nat)
    requires n <= 1 && Reorders(v, n, w)
    ensures ShuffledBy(v, n, swap) == w
  {
    if n == 1 {
      var j := SameElement(v, n, w);
    }
  }

  lemma {:induction false} SameMembers(v: seq<UsedTx>, w: seq<UsedTx>)
    requires multiset(w) == multiset(v)
    ensures forall x :: x in v <==> x in w
  {
    forall x ensures x in v <==> x in w {
      assert x in v <==> x in multiset(v);
    }
  }

  method Remember(vUsedTx: seq<UsedTx>, x: UsedTx) returns (r: seq<UsedTx>)
    requires Unique(vUsedTx)
    ensures Unique(r) && x in r && vUsedTx <= r && forall y :: y in r ==> y in vUsedTx || y == x
    ensures r == vUsedTx || (x !in vUsedTx && r == vUsedTx + [x])
  {
    r := vUsedTx;
    if x !in vUsedTx {
      assert multiset(vUsedTx)[x] == 0;
      r := vUsedTx + [x];
      forall y ensures multiset(r)[y] <= 1 {
        assert multiset(vUsedTx)[y] <= 1;
      }
    }
  }

  /** Where a transaction is in a container. */
  method FindTx(c: Container, txHash: nat) returns (found: bool, k: nat)
    ensures found <==> exists i :: 0 <= i < |c| && c[i].txHash == txHash
    ensures found ==> k < |c| && c[k].txHash == txHash
  {
    k := 0;
    while k < |c|
      invariant 0 <= k <= |c| && forall i :: 0 <= i < k ==> c[i].txHash != txHash
    {
      if c[k].txHash == txHash {
        return true, k;
      }
      k := k + 1;
    }
    found := false;
  }

  // ----- one ring -----

  /** The containers during a pick, and the positions picked from in each. */
  datatype Ring = Ring(cs: Containers, pickedOld: seq<nat>, pickedRecent: seq<nat>, keys: seq<nat>) {
    function Picks(id: ContainerId): seq<nat> {
      if id == RECENT then pickedRecent else pickedOld
    }

    function With(id: ContainerId, c: Container, picks: seq<nat>, pubKey: nat): Ring {
      if id == RECENT then Ring(cs.Set(id, c), pickedOld, picks, keys + [pubKey])
      else Ring(cs.Set(id, c), picks, pickedRecent, keys + [pubKey])
    }

    function Count(): nat {
      |pickedOld| + |pickedRecent|
    }
  }

  function PoolOf(cs: Containers): multiset<nat> {
    Pool(cs.old_) + Pool(cs.recent)
  }

  /** Every key of the ring was taken from a different entry, and nothing else was lost. */
  ghost predicate RingOk(cs0: Containers, r: Ring) {
    && LostOne(cs0.old_, r.cs.old_, r.pickedOld) && LostOne(cs0.recent, r.cs.recent, r.pickedRecent)
    && |r.keys| == r.Count()
    && PoolOf(cs0) == PoolOf(r.cs) + multiset(r.keys)
  }

  /** Every transaction the ring took a key from is among the used ones. */
  ghost predicate Remembered(r: Ring, vUsedTx: seq<UsedTx>) {
    forall id, k: nat :: k in r.Picks(id) && k < |r.cs.Get(id)| ==> (id, r.cs.Get(id)[k].txHash) in vUsedTx
  }

  lemma {:induction false} RememberedMore(r: Ring, vUsedTx: seq<UsedTx>, id: ContainerId, k: nat, c: Container,
                                          picks: seq<nat>, pubKey: nat)
    requires Remembered(r, vUsedTx) && k < |r.cs.Get(id)| && (id, r.cs.Get(id)[k].txHash) in vUsedTx
    requires SameHashes(r.cs.Get(id), c) && forall x :: x in picks <==> x in r.Picks(id) || x == k
    ensures Remembered(r.With(id, c, picks, pubKey), vUsedTx)
  {
    var r' := r.With(id, c, picks, pubKey);
    forall d, j: nat | j in r'.Picks(d) && j < |r'.cs.Get(d)| ensures (d, r'.cs.Get(d)[j].txHash) in vUsedTx {
      if d == id {
        assert r'.Picks(d) == picks && r'.cs.Get(d) == c;
      } else {
        assert r'.Picks(d) == r.Picks(d) && r'.cs.Get(d) == r.cs.Get(d);
      }
    }
  }

  lemma {:induction false} StillRemembered(r: Ring, v: seq<UsedTx>, w: seq<UsedTx>)
    requires Remembered(r, v) && forall x :: x in v ==> x in w
    ensures Remembered(r, w)
  {
  }

  /** The transaction still has an entry that the ring took no key from. */
  predicate Usable(r: Ring, x: UsedTx) {
    exists k: nat :: k < |r.cs.Get(x.0)| && r.cs.Get(x.0)[k].txHash == x.1 && k !in r.Picks(x.0)
  }

  /** Hashes stay unique while keys are taken. */
  lemma {:induction false} HashAt(cs0: Containers, r: Ring, id: ContainerId, i: nat, j: nat)
    requires ContainersOk(cs0) && RingOk(cs0, r) && i < |r.cs.Get(id)| && j < |r.cs.Get(id)| &&
             r.cs.Get(id)[i].txHash == r.cs.Get(id)[j].txHash
    ensures i == j
  {
    var c0, c := cs0.Get(id), r.cs.Get(id);
    assert EntryAfter(c0[i], c[i], i in r.Picks(id)) && EntryAfter(c0[j], c[j], j in r.Picks(id));
    assert UniqueTx(c0);
  }

  lemma {:induction false} NotUsable(cs0: Containers, r: Ring, x: UsedTx, known: bool, k: nat)
    requires ContainersOk(cs0) && RingOk(cs0, r)
    requires known <==> exists i :: 0 <= i < |r.cs.Get(x.0)| && r.cs.Get(x.0)[i].txHash == x.1
    requires known ==> k < |r.cs.Get(x.0)| && r.cs.Get(x.0)[k].txHash == x.1
    ensures Usable(r, x) <==> known && k !in r.Picks(x.0)
  {
    hide RingOk, ContainersOk;
    forall j: nat | j < |r.cs.Get(x.0)| && r.cs.Get(x.0)[j].txHash == x.1 ensures known && j == k {
      HashAt(cs0, r, x.0, j, k);
    }
  }

  lemma {:induction false} RingStarts(cs: Containers)
    ensures RingOk(cs, Ring(cs, [], [], []))
  {
    LostNone(cs.old_);
    LostNone(cs.recent);
    var none: seq<nat> := [];
    assert multiset(none) == multiset{};
  }

  lemma {:induction false} RingGrows(cs0: Containers, r: Ring, id: ContainerId, c: Container, picks: seq<nat>,
                                     pubKey: nat)
    requires RingOk(cs0, r) && LostOne(cs0.Get(id), c, picks) && |picks| == |r.Picks(id)| + 1
    requires Pool(r.cs.Get(id)) == Pool(c) + multiset{pubKey}
    ensures RingOk(cs0, r.With(id, c, picks, pubKey))
  {
    hide LostOne, Pool;
    assert multiset(r.keys + [pubKey]) == multiset(r.keys) + multiset{pubKey};
  }

  /** The ring with one key more, the one at the drawn place of entry k of a container. */
  ghost predicate Took(r: Ring, id: ContainerId, k: nat, draw: nat, r': Ring) {
    && |r'.keys| == |r.keys| + 1 && r'.keys == r.keys + [r'.keys[|r.keys|]]
    && KeyTaken(r.cs.Get(id), k, draw, r'.cs.Get(id), r'.keys[|r.keys|])
    && r'.cs == r.cs.Set(id, r'.cs.Get(id))
    && (forall x :: x in r'.Picks(id) <==> x in r.Picks(id) || x == k)
    && forall d :: d != id ==> r'.Picks(d) == r.Picks(d)
  }

  lemma TookWith(r: Ring, id: ContainerId, k: nat, draw: nat, c: Container, picks: seq<nat>, pubKey: nat)
    requires KeyTaken(r.cs.Get(id), k, draw, c, pubKey)
    requires forall x :: x in picks <==> x in r.Picks(id) || x == k
    ensures Took(r, id, k, draw, r.With(id, c, picks, pubKey))
  {
    hide KeyTaken;
  }

  /** k is the position, among those not picked yet, that was drawn: as many free ones are below it. */
  ghost predicate IsFree(r: Ring, id: ContainerId, draw: nat, k: nat) {
    var n, picked := |r.cs.Get(id)|, |r.Picks(id)|;
    && picked < n && k < n && k !in r.Picks(id)
    && k >= Below(draw, n - picked) && Splits(r.Picks(id), k - Below(draw, n - picked), k)
  }

  /** Picks from the drawn entry of one container, whose transaction is remembered. */
  method PickRandom(ghost cs0: Containers, r: Ring, id: ContainerId, vUsedTx: seq<UsedTx>, d: Draws)
    returns (r': Ring, vUsedTx': seq<UsedTx>, ghost k: nat)
    requires RingOk(cs0, r) && NoEmptyTx(cs0.Get(id)) && |r.Picks(id)| < |r.cs.Get(id)| && Unique(vUsedTx) &&
             Remembered(r, vUsedTx)
    ensures RingOk(cs0, r') && r'.Count() == r.Count() + 1 && |r'.Picks(id)| == |r.Picks(id)| + 1 && r.keys <= r'.keys
    ensures Unique(vUsedTx') && vUsedTx <= vUsedTx' && Remembered(r', vUsedTx')
    ensures IsFree(r, id, d.tx, k) && k < |r.cs.Get(id)| && Took(r, id, k, d.anon, r')
    ensures var x := (id, r.cs.Get(id)[k].txHash);
            vUsedTx' == if x in vUsedTx then vUsedTx else vUsedTx + [x]
  {
    hide *;
    var c := r.cs.Get(id);
    RingPositions(cs0, r, id);
    var nAvailableTx := |c| - |r.Picks(id)|;
    var iPickTx := Below(d.tx, nAvailableTx);
    ghost var skipped;
    iPickTx, skipped := SkipPicked(r.Picks(id), iPickTx, |c|);
    k := iPickTx;
    FreeIs(r, id, d.tx, k, skipped);
    var c', picks', pubKey := TakeAnon(cs0.Get(id), c, r.Picks(id), iPickTx, d.anon);
    TookWith(r, id, k, d.anon, c', picks', pubKey);
    WithMore(r, id, c', picks', pubKey);
    RingGrows(cs0, r, id, c', picks', pubKey);
    r' := r.With(id, c', picks', pubKey);
    vUsedTx' := Remember(vUsedTx, (id, c[iPickTx].txHash));
    StillRemembered(r, vUsedTx, vUsedTx');
    RememberedMore(r, vUsedTx', id, iPickTx, c', picks', pubKey);
  }

  lemma RingPositions(cs0: Containers, r: Ring, id: ContainerId)
    requires RingOk(cs0, r)
    ensures LostOne(cs0.Get(id), r.cs.Get(id), r.Picks(id)) && Positions(r.Picks(id), |r.cs.Get(id)|)
  {
    hide EntryAfter, Positions, PoolOf;
  }

  lemma FreeIs(r: Ring, id: ContainerId, draw: nat, k: nat, m: nat)
    requires |r.Picks(id)| < |r.cs.Get(id)| && k < |r.cs.Get(id)| && k !in r.Picks(id)
    requires k == Below(draw, |r.cs.Get(id)| - |r.Picks(id)|) + m && Splits(r.Picks(id), m, k)
    ensures IsFree(r, id, draw, k)
  {
    hide Splits, Below;
  }

  /** The first of the used transactions that still has an entry the ring took no key from, and that entry. */
  ghost predicate FirstUsable(r: Ring, vUsedTx: seq<UsedTx>, nUsedTx: nat, first: nat, k: nat) {
    && first < nUsedTx <= |vUsedTx| && (forall j :: 0 <= j < first ==> !Usable(r, vUsedTx[j]))
    && k < |r.cs.Get(vUsedTx[first].0)| && r.cs.Get(vUsedTx[first].0)[k].txHash == vUsedTx[first].1
    && k !in r.Picks(vUsedTx[first].0)
  }

  lemma FirstIs(r: Ring, vUsedTx: seq<UsedTx>, nUsedTx: nat, first: nat, k: nat)
    requires first < nUsedTx <= |vUsedTx| && forall j :: 0 <= j < first ==> !Usable(r, vUsedTx[j])
    requires k < |r.cs.Get(vUsedTx[first].0)| && r.cs.Get(vUsedTx[first].0)[k].txHash == vUsedTx[first].1
    requires k !in r.Picks(vUsedTx[first].0)
    ensures FirstUsable(r, vUsedTx, nUsedTx, first, k) && Usable(r, vUsedTx[first])
  {
  }

  lemma RingParts(cs0: Containers, r: Ring, id: ContainerId)
    requires RingOk(cs0, r) && ContainersOk(cs0)
    ensures LostOne(cs0.Get(id), r.cs.Get(id), r.Picks(id)) && NoEmptyTx(cs0.Get(id))
  {
    hide LostOne, NoEmptyTx, UniqueTx;
  }

  lemma WithMore(r: Ring, id: ContainerId, c: Container, picks: seq<nat>, pubKey: nat)
    requires |picks| == |r.Picks(id)| + 1
    ensures var r' := r.With(id, c, picks, pubKey);
            r'.Count() == r.Count() + 1 && |r'.Picks(id)| == |r.Picks(id)| + 1 && r.keys <= r'.keys
  {
  }

  /** Picks from a transaction that earlier rings used, exactly when one is left for this ring. */
  method PickUsed(ghost cs0: Containers, r: Ring, vUsedTx: seq<UsedTx>, nUsedTx: nat, d: Draws)
    returns (found: bool, r': Ring, ghost first: nat, ghost k: nat)
    requires RingOk(cs0, r) && ContainersOk(cs0) && nUsedTx <= |vUsedTx| && Remembered(r, vUsedTx)
    ensures found <==> exists i :: 0 <= i < nUsedTx && Usable(r, vUsedTx[i])
    ensures found ==> RingOk(cs0, r') && r'.Count() == r.Count() + 1 && r.keys <= r'.keys && Remembered(r', vUsedTx)
    ensures found ==> first < nUsedTx && Usable(r, vUsedTx[first]) &&
                      FirstUsable(r, vUsedTx, nUsedTx, first, k) && Took(r, vUsedTx[first].0, k, d.anon, r')
    ensures !found ==> r' == r
  {
    hide *;
    first, k := 0, 0;
    for i := 0 to nUsedTx
      invariant forall j :: 0 <= j < i ==> !Usable(r, vUsedTx[j])
    {
      var (id, txHash) := vUsedTx[i];
      var c := r.cs.Get(id);
      var known, iPickTx := FindTx(c, txHash);
      NotUsable(cs0, r, vUsedTx[i], known, iPickTx);
      if known && iPickTx !in r.Picks(id) {
        RingParts(cs0, r, id);
        first, k := i, iPickTx;
        FirstIs(r, vUsedTx, nUsedTx, first, k);
        var c', picks', pubKey := TakeAnon(cs0.Get(id), c, r.Picks(id), iPickTx, d.anon);
        TookWith(r, id, k, d.anon, c', picks', pubKey);
        WithMore(r, id, c', picks', pubKey);
        RingGrows(cs0, r, id, c', picks', pubKey);
        RememberedMore(r, vUsedTx, id, iPickTx, c', picks', pubKey);
        return true, r.With(id, c', picks', pubKey), first, k;
      }
    }
    found, r' := false, r;
  }

  // ----- removing what is used up -----

  lemma {:induction false} Segment(c: Container, p: nat, cut: nat)
    requires p < cut <= |c| && forall k :: p < k < cut ==> c[k].vOutPubKeys != []
    ensures NonEmpty(c[p..]) == (if c[p].vOutPubKeys == [] then [] else [c[p]]) + c[p + 1..cut] + NonEmpty(c[cut..])
  {
    hide NonEmpty;
    var b, d := c[p + 1..cut], c[cut..];
    assert c[p..] == [c[p]] + (b + d);
    NonEmptyOfConcat([c[p]], b + d);
    NonEmptyOfConcat(b, d);
    NothingToDrop(b);
    NonEmptyOfOne(c[p]);
    Associative(NonEmpty([c[p]]), b, NonEmpty(d));
  }

  lemma {:induction false} NonEmptyOfOne(e: TxMixins)
    ensures NonEmpty([e]) == if e.vOutPubKeys == [] then [] else [e]
  {
    assert [e][..0] == [];
  }

  lemma {:induction false} Associative(a: Container, b: Container, d: Container)
    ensures a + (b + d) == a + b + d
  {
  }

  lemma {:induction false} Beginning(c: Container, cut: nat)
    requires cut <= |c| && forall k :: 0 <= k < cut ==> c[k].vOutPubKeys != []
    ensures NonEmpty(c) == c[..cut] + NonEmpty(c[cut..])
  {
    assert c == c[..cut] + c[cut..];
    NonEmptyOfConcat(c[..cut], c[cut..]);
    NothingToDrop(c[..cut]);
  }

  /** Only entries that were picked from can be empty. */
  ghost predicate EmptyOnlyAt(c: Container, picks: seq<nat>) {
    Positions(picks, |c|) && forall k :: 0 <= k < |c| && k !in picks ==> c[k].vOutPubKeys != []
  }

  function Cut(c: Container, picks: seq<nat>, k: nat): nat
    requires k <= |picks|
  {
    if k < |picks| then picks[k] else |c|
  }

  lemma {:induction false} BetweenPicks(c: Container, picks: seq<nat>, k: nat)
    requires EmptyOnlyAt(c, picks) && k <= |picks|
    ensures Cut(c, picks, k) <= |c|
    ensures k > 0 ==> picks[k - 1] < Cut(c, picks, k)
    ensures forall x :: (if k > 0 then picks[k - 1] else -1) < x < Cut(c, picks, k) ==> c[x].vOutPubKeys != []
  {
    forall x | (if k > 0 then picks[k - 1] else -1) < x < Cut(c, picks, k) ensures c[x].vOutPubKeys != [] {
      forall i | 0 <= i < |picks| ensures picks[i] != x {
        assert i < k - 1 ==> picks[i] < picks[k - 1];
        assert i > k ==> picks[k] < picks[i];
      }
    }
  }

  lemma {:induction false} ErasedBelow(c: Container, p: nat, cut: nat, tail: Container)
    requires p < cut <= |c|
    ensures var cur := c[..cut] + tail;
            cur[p] == c[p] && cur[..p] + cur[p + 1..] == c[..p] + (c[p + 1..cut] + tail) &&
              cur == c[..p] + ([c[p]] + c[p + 1..cut] + tail)
  {
  }

  /** From position p on only entries with keys are left; below, all are as they were. */
  ghost predicate CleanFrom(c: Container, cur: Container, p: nat) {
    p <= |c| && cur == c[..p] + NonEmpty(c[p..])
  }

  lemma {:induction false} CleanLower(c: Container, cur: Container, p: nat, cut: nat)
    requires p < cut <= |c| && CleanFrom(c, cur, cut) && forall k :: p < k < cut ==> c[k].vOutPubKeys != []
    ensures p < |cur| && CleanFrom(c, if cur[p].vOutPubKeys == [] then cur[..p] + cur[p + 1..] else cur, p)
  {
    Segment(c, p, cut);
    var tail := NonEmpty(c[cut..]);
    hide NonEmpty;
    ErasedBelow(c, p, cut, tail);
    assert [] + c[p + 1..cut] + tail == c[p + 1..cut] + tail;
  }

  lemma {:induction false} CleanAtEnd(c: Container)
    ensures CleanFrom(c, c, |c|)
  {
    assert c[|c|..] == [] && c == c[..|c|] + [];
  }

  lemma {:induction false} CleanStep(c: Container, picks: seq<nat>, k: nat, cur: Container)
    requires EmptyOnlyAt(c, picks) && 0 < k <= |picks| && CleanFrom(c, cur, Cut(c, picks, k))
    ensures var p := picks[k - 1];
            p < |cur| && CleanFrom(c, if cur[p].vOutPubKeys == [] then cur[..p] + cur[p + 1..]
                                   else cur, Cut(c, picks, k - 1))
  {
    BetweenPicks(c, picks, k);
    hide CleanFrom, EmptyOnlyAt;
    CleanLower(c, cur, picks[k - 1], Cut(c, picks, k));
  }

  /** Erases the picked entries that have become empty, last one first. */
  method RemoveEmptyTx(c: Container, picks: seq<nat>) returns (c': Container)
    requires EmptyOnlyAt(c, picks)
    ensures c' == NonEmpty(c)
  {
    c' := c;
    var k := |picks|;
    CleanAtEnd(c);
    while k > 0
      invariant 0 <= k <= |picks| && CleanFrom(c, c', Cut(c, picks, k))
    {
      hide EmptyOnlyAt, NonEmpty, CleanFrom, Cut;
      CleanStep(c, picks, k, c');
      k := k - 1;
      if c'[picks[k]].vOutPubKeys == [] {
        c' := c'[..picks[k]] + c'[picks[k] + 1..];
      }
    }
    BetweenPicks(c, picks, 0);
    Beginning(c, Cut(c, picks, 0));
  }

  lemma {:induction false} LostOneEmpties(c0: Container, c: Container, picks: seq<nat>)
    requires LostOne(c0, c, picks) && ContainerOk(c0)
    ensures EmptyOnlyAt(c, picks) && UniqueTx(c)
  {
    forall k | 0 <= k < |c| && k !in picks ensures c[k].vOutPubKeys != [] {
      NotPickedYet(c0, c, picks, k);
    }
    forall i, j | 0 <= i < j < |c| ensures c[i].txHash != c[j].txHash {
      assert EntryAfter(c0[i], c[i], i in picks) && EntryAfter(c0[j], c[j], j in picks);
    }
  }

  // ----- the mixins -----

  ghost predicate ContainersOk(cs: Containers) {
    ContainerOk(cs.old_) && ContainerOk(cs.recent)
  }

  /** The outcome of a successful pick of n keys: the ring r took each key from a different
      transaction entry, what is left is what it did not use up, and every key that was there
      is now either left or picked. */
  ghost predicate Picked(cs0: Containers, cs: Containers, r: Ring, n: nat, vPicked: seq<nat>) {
    && RingOk(cs0, r) && r.Count() == n && r.keys == vPicked
    && cs == Containers(NonEmpty(r.cs.old_), NonEmpty(r.cs.recent))
    && PoolOf(cs0) == PoolOf(cs) + multiset(vPicked)
  }

  lemma {:induction false} RingEnds(cs0: Containers, r: Ring)
    requires ContainersOk(cs0) && RingOk(cs0, r)
    ensures ContainersOk(Containers(NonEmpty(r.cs.old_), NonEmpty(r.cs.recent)))
    ensures Picked(cs0, Containers(NonEmpty(r.cs.old_), NonEmpty(r.cs.recent)), r, r.Count(), r.keys)
    ensures EmptyOnlyAt(r.cs.old_, r.pickedOld) && EmptyOnlyAt(r.cs.recent, r.pickedRecent)
  {
    LostOneEmpties(cs0.old_, r.cs.old_, r.pickedOld);
    LostOneEmpties(cs0.recent, r.cs.recent, r.pickedRecent);
    NonEmptyEntries(r.cs.old_);
    NonEmptyEntries(r.cs.recent);
    NonEmptyKeepsPool(r.cs.old_);
    NonEmptyKeepsPool(r.cs.recent);
    hide NonEmpty, Pool, LostOne, EmptyOnlyAt;
  }

  lemma {:induction false} RingSizes(cs0: Containers, r: Ring)
    requires RingOk(cs0, r)
    ensures |r.cs.old_| == |cs0.old_| && |r.cs.recent| == |cs0.recent|
    ensures |r.pickedOld| <= |cs0.old_| && |r.pickedRecent| <= |cs0.recent|
  {
    PositionsFit(r.pickedOld, |r.cs.old_|);
    PositionsFit(r.pickedRecent, |r.cs.recent|);
  }

  /** How many entries of a container the ring took no key from. */
  function Available(r: Ring, id: ContainerId): int {
    |r.cs.Get(id)| - |r.Picks(id)|
  }

  /** The container that a member is picked from at random. */
  function Chosen(r: Ring, mode: nat): ContainerId {
    if Available(r, RECENT) > 0 && (mode >= 66 || Available(r, OLD) == 0) then RECENT else OLD
  }

  ghost predicate SomeUsable(r: Ring, vUsedTx: seq<UsedTx>, nUsedTx: nat) {
    exists i :: 0 <= i < nUsedTx && i < |vUsedTx| && Usable(r, vUsedTx[i])
  }

  /** A key was taken from the first usable one of the used transactions. */
  ghost predicate FirstUsed(r: Ring, vUsedTx: seq<UsedTx>, nUsedTx: nat, first: nat, d: Draws, r': Ring) {
    first < |vUsedTx| &&
    exists k: nat :: FirstUsable(r, vUsedTx, nUsedTx, first, k) && Took(r, vUsedTx[first].0, k, d.anon, r')
  }

  /** A key from the first used transaction that is left, after shuffling these, if a third of the
      draws says so; otherwise, or when none is left, one from a drawn entry. */
  ghost predicate Member(r: Ring, vUsedTx: seq<UsedTx>, nUsedTx: nat, d: Draws, r': Ring, vUsedTx': seq<UsedTx>) {
    && nUsedTx <= |vUsedTx|
    && var mode, shuffled := Below(d.mode, 100), ShuffledBy(vUsedTx, nUsedTx, d.swap);
       if mode < 33 && nUsedTx > 0 then
         if SomeUsable(r, shuffled, nUsedTx) then
           vUsedTx' == shuffled && exists i: nat :: FirstUsed(r, shuffled, nUsedTx, i, d, r')
         else DrawnEntry(r, shuffled, mode, d, r', vUsedTx')
       else DrawnEntry(r, vUsedTx, mode, d, r', vUsedTx')
  }

  /** A key was taken from a drawn entry, whose transaction is among the used ones from then on. */
  ghost predicate DrawnEntry(r: Ring, vUsedTx: seq<UsedTx>, mode: nat, d: Draws, r': Ring, vUsedTx': seq<UsedTx>) {
    var id := Chosen(r, mode);
    exists k: nat :: IsFree(r, id, d.tx, k) && Took(r, id, k, d.anon, r') &&
      vUsedTx' == if (id, r.cs.Get(id)[k].txHash) in vUsedTx then vUsedTx
        else vUsedTx + [(id, r.cs.Get(id)[k].txHash)]
  }

  lemma MemberAgain(r: Ring, vUsedTx: seq<UsedTx>, nUsedTx: nat, d: Draws, first: nat, k: nat, r': Ring)
    requires nUsedTx <= |vUsedTx| && Below(d.mode, 100) < 33 && nUsedTx > 0
    requires var v := ShuffledBy(vUsedTx, nUsedTx, d.swap);
             && |v| == |vUsedTx| && first < nUsedTx && Usable(r, v[first]) && FirstUsable(r, v, nUsedTx, first, k)
             && Took(r, v[first].0, k, d.anon, r')
    ensures Member(r, vUsedTx, nUsedTx, d, r', ShuffledBy(vUsedTx, nUsedTx, d.swap))
  {
    hide Usable, FirstUsable, Took, ShuffledBy, Below;
    var v := ShuffledBy(vUsedTx, nUsedTx, d.swap);
    assert FirstUsed(r, v, nUsedTx, first, d, r') && SomeUsable(r, v, nUsedTx);
    hide FirstUsed, SomeUsable;
  }

  lemma MemberDrawn(r: Ring, vUsedTx: seq<UsedTx>, nUsedTx: nat, d: Draws, v: seq<UsedTx>, k: nat, r': Ring,
                    vUsedTx': seq<UsedTx>)
    requires nUsedTx <= |vUsedTx|
    requires var again := Below(d.mode, 100) < 33 && nUsedTx > 0;
             && v == (if again then ShuffledBy(vUsedTx, nUsedTx, d.swap) else vUsedTx) && |v| == |vUsedTx|
             && (again ==> forall i :: 0 <= i < nUsedTx ==> !Usable(r, v[i]))
    requires var id := Chosen(r, Below(d.mode, 100));
             && IsFree(r, id, d.tx, k) && k < |r.cs.Get(id)| && Took(r, id, k, d.anon, r')
             && var x := (id, r.cs.Get(id)[k].txHash); vUsedTx' == if x in v then v else v + [x]
    ensures Member(r, vUsedTx, nUsedTx, d, r', vUsedTx')
  {
    hide Usable, FirstUsable, Took, ShuffledBy, Below, IsFree, Chosen;
  }

  lemma ChosenAvailable(cs0: Containers, r: Ring, mode: nat)
    requires ContainersOk(cs0) && RingOk(cs0, r) && r.Count() < |cs0.old_| + |cs0.recent|
    ensures var id := Chosen(r, mode); NoEmptyTx(cs0.Get(id)) && |r.Picks(id)| < |r.cs.Get(id)|
    ensures Chosen(r, mode) == if |r.cs.recent| - |r.pickedRecent| > 0 &&
                                  (mode >= 66 || |r.cs.old_| - |r.pickedOld| == 0) then RECENT else OLD
  {
    RingSizes(cs0, r);
    hide RingOk, NoEmptyTx, UniqueTx;
  }

  /** One more member of the ring. */
  method PickOne(ghost cs0: Containers, r: Ring, vUsedTx: seq<UsedTx>, nUsedTx: nat, d: Draws)
    returns (r': Ring, vUsedTx': seq<UsedTx>)
    requires ContainersOk(cs0) && RingOk(cs0, r) && r.Count() < |cs0.old_| + |cs0.recent|
    requires Unique(vUsedTx) && nUsedTx <= |vUsedTx| && Remembered(r, vUsedTx)
    ensures RingOk(cs0, r') && r'.Count() == r.Count() + 1 && r.keys <= r'.keys
    ensures Unique(vUsedTx') && |vUsedTx| <= |vUsedTx'| && (forall x :: x in vUsedTx ==> x in vUsedTx') &&
            Remembered(r', vUsedTx')
    ensures Member(r, vUsedTx, nUsedTx, d, r', vUsedTx')
  {
    hide *;
    vUsedTx' := vUsedTx;
    ghost var k;
    var mode := Below(d.mode, 100);
    if mode < 33 && nUsedTx > 0 {
      vUsedTx' := Shuffle(vUsedTx, nUsedTx, d.swap);
      SameMembers(vUsedTx, vUsedTx');
      SameUnique(vUsedTx, vUsedTx');
      StillRemembered(r, vUsedTx, vUsedTx');
      var found;
      ghost var first;
      found, r', first, k := PickUsed(cs0, r, vUsedTx', nUsedTx, d);
      if found {
        MemberAgain(r, vUsedTx, nUsedTx, d, first, k, r');
        return;
      }
    }
    ghost var v := vUsedTx';
    ChosenAvailable(cs0, r, mode);
    var nAvailableOldTx := |r.cs.old_| - |r.pickedOld|;
    var nAvailableRecentTx := |r.cs.recent| - |r.pickedRecent|;
    var containerId := if nAvailableRecentTx > 0 && (mode >= 66 || nAvailableOldTx == 0) then RECENT else OLD;
    r', vUsedTx', k := PickRandom(cs0, r, containerId, vUsedTx', d);
    MemberDrawn(r, vUsedTx, nUsedTx, d, v, k, r', vUsedTx');
  }

  lemma SameUnique(v: seq<UsedTx>, w: seq<UsedTx>)
    requires Unique(v) && multiset(w) == multiset(v)
    ensures Unique(w)
  {
  }

  ghost predicate AllOk(m: map<int, Containers>) {
    forall v :: v in m ==> ContainersOk(m[v])
  }

  /** The containers of a value; asking for an unknown value yields empty ones. */
  function AtOf(m: map<int, Containers>, nValue: int): Containers {
    if nValue in m then m[nValue] else EMPTY
  }

  lemma {:induction false} AtOk(m: map<int, Containers>, nValue: int)
    requires AllOk(m)
    ensures ContainersOk(AtOf(m, nValue))
  {
  }

  lemma {:induction false} SetOk(m: map<int, Containers>, nValue: int, cs: Containers)
    requires AllOk(m) && ContainersOk(cs)
    ensures AllOk(m[nValue := cs]) && AtOf(m[nValue := cs], nValue) == cs
    ensures forall v :: v != nValue ==> AtOf(m[nValue := cs], v) == AtOf(m, v)
  {
  }

  lemma {:induction false} SetOne(cs: Containers, id: ContainerId, c: Container, pubKey: nat)
    requires ContainersOk(cs) && ContainerOk(c) && Pool(c) == Pool(cs.Get(id)) + multiset{pubKey}
    ensures ContainersOk(cs.Set(id, c)) && PoolOf(cs.Set(id, c)) == PoolOf(cs) + multiset{pubKey}
  {
    hide Pool, ContainerOk;
  }

  lemma {:induction false} KeysOfAppend(s: seq<OutKey>, k: OutKey)
    ensures KeysOf(s + [k]) == KeysOf(s) + multiset{k.pubKey}
  {
    assert (s + [k])[..|s + [k]| - 1] == s;
  }

  lemma {:induction false} KeyAddedPool(c: Container, k: nat, e: TxMixins, key: OutKey)
    requires k < |c| && e.vOutPubKeys == c[k].vOutPubKeys + [key]
    ensures Pool(c[k := e]) == Pool(c) + multiset{key.pubKey}
  {
    hide Pool, KeysOf;
    PoolOfUpdate(c, k, e);
    KeysOfAppend(c[k].vOutPubKeys, key);
    Moved(Pool(c[k := e]), KeysOf(c[k].vOutPubKeys), Pool(c), multiset{key.pubKey});
  }

  lemma {:induction false} KeyAddedOk(c: Container, k: nat, e: TxMixins)
    requires ContainerOk(c) && k < |c| && e.txHash == c[k].txHash && e.vOutPubKeys != []
    ensures ContainerOk(c[k := e])
  {
    var c' := c[k := e];
    forall i, j | 0 <= i < j < |c'| ensures c'[i].txHash != c'[j].txHash {
      assert c[i].txHash != c[j].txHash;
    }
  }

  lemma {:induction false} Moved(q: multiset<nat>, b: multiset<nat>, p: multiset<nat>, x: multiset<nat>)
    requires q + b == p + (b + x)
    ensures q == p + x
  {
    forall y: nat ensures q[y] == (p + x)[y] {
      assert (q + b)[y] == (p + (b + x))[y];
    }
  }

  lemma {:induction false} EntryAdded(c: Container, e: TxMixins, pubKey: nat, n: nat)
    requires ContainerOk(c) && e.vOutPubKeys == [OutKey(n, pubKey)] && forall i :: 0 <= i < |c| ==>
             c[i].txHash != e.txHash
    ensures ContainerOk(c + [e]) && Pool(c + [e]) == Pool(c) + multiset{pubKey}
  {
    PoolOfAppend(c, e);
    assert e.vOutPubKeys[..0] == [];
  }

  /** The keys filed under a transaction, oldest first. */
  ghost function KeysAt(c: Container, txHash: nat): seq<OutKey> {
    if c == [] then []
    else if c[|c| - 1].txHash == txHash then c[|c| - 1].vOutPubKeys
    else KeysAt(c[..|c| - 1], txHash)
  }

  lemma {:induction false} KeysAtEntry(c: Container, k: nat)
    requires UniqueTx(c) && k < |c|
    ensures KeysAt(c, c[k].txHash) == c[k].vOutPubKeys
    decreases |c|
  {
    if k < |c| - 1 {
      assert c[k].txHash != c[|c| - 1].txHash;
      KeysAtEntry(c[..|c| - 1], k);
    }
  }

  lemma {:induction false} NoKeysAt(c: Container, txHash: nat)
    requires forall i :: 0 <= i < |c| ==> c[i].txHash != txHash
    ensures KeysAt(c, txHash) == []
    decreases |c|
  {
    if c != [] {
      NoKeysAt(c[..|c| - 1], txHash);
    }
  }

  lemma {:induction false} KeysAtOther(c: Container, k: nat, e: TxMixins, h: nat)
    requires k < |c| && e.txHash == c[k].txHash != h
    ensures KeysAt(c[k := e], h) == KeysAt(c, h)
    decreases |c|
  {
    if k < |c| - 1 {
      assert c[k := e][..|c| - 1] == c[..|c| - 1][k := e];
      KeysAtOther(c[..|c| - 1], k, e, h);
    } else {
      assert c[k := e][..k] == c[..k];
    }
  }

  /** Exactly one key more, at the end of its transaction's keys. */
  ghost predicate KeyFiled(c: Container, c': Container, txHash: nat, key: OutKey) {
    && KeysAt(c', txHash) == KeysAt(c, txHash) + [key]
    && forall h :: h != txHash ==> KeysAt(c', h) == KeysAt(c, h)
  }

  lemma {:induction false} FiledInEntry(c: Container, k: nat, e: TxMixins, key: OutKey)
    requires UniqueTx(c) && k < |c| && e == c[k].(vOutPubKeys := c[k].vOutPubKeys + [key])
    ensures KeyFiled(c, c[k := e], e.txHash, key)
  {
    var c' := c[k := e];
    forall i, j | 0 <= i < j < |c'| ensures c'[i].txHash != c'[j].txHash {
      assert c[i].txHash != c[j].txHash;
    }
    KeysAtEntry(c, k);
    KeysAtEntry(c', k);
    forall h | h != e.txHash ensures KeysAt(c', h) == KeysAt(c, h) {
      KeysAtOther(c, k, e, h);
    }
  }

  lemma {:induction false} FiledInNew(c: Container, e: TxMixins, key: OutKey)
    requires e.vOutPubKeys == [key] && (forall i :: 0 <= i < |c| ==> c[i].txHash != e.txHash)
    ensures KeyFiled(c, c + [e], e.txHash, key)
  {
    NoKeysAt(c, e.txHash);
    assert (c + [e])[..|c|] == c;
  }

  /** Adds a key to its transaction's entry, or to a new one. */
  method AddTo(c: Container, pubKey: nat, txHash: nat, n: nat) returns (c': Container)
    requires ContainerOk(c)
    ensures ContainerOk(c') && Pool(c') == Pool(c) + multiset{pubKey}
    ensures KeyFiled(c, c', txHash, OutKey(n, pubKey))
  {
    assert UniqueTx(c);
    hide Pool, ContainerOk, KeyFiled, UniqueTx;
    var known, k := FindTx(c, txHash);
    if known {
      var e := c[k].(vOutPubKeys := c[k].vOutPubKeys + [OutKey(n, pubKey)]);
      KeyAddedPool(c, k, e, OutKey(n, pubKey));
      KeyAddedOk(c, k, e);
      FiledInEntry(c, k, e, OutKey(n, pubKey));
      c' := c[k := e];
    } else {
      var e := TxMixins(txHash, [OutKey(n, pubKey)]);
      EntryAdded(c, e, pubKey, n);
      FiledInNew(c, e, OutKey(n, pubKey));
      c' := c + [e];
    }
  }

  /** Between two members: the ring so far, and the used transactions. */
  datatype Turn = Turn(ring: Ring, vUsedTx: seq<UsedTx>)

  /** The ring grows member by member, by what is drawn for each; only transactions used by earlier
      rings are used again. */
  ghost predicate TurnsOk(cs: Containers, vUsedTx: seq<UsedTx>, draws: nat -> Draws, turns: seq<Turn>, n: nat) {
    && |turns| == n + 1 && turns[0] == Turn(Ring(cs, [], [], []), vUsedTx)
    && forall i :: 0 <= i < n ==>
         Member(turns[i].ring, turns[i].vUsedTx, |vUsedTx|, draws(i), turns[i + 1].ring, turns[i + 1].vUsedTx)
  }

  lemma TurnsGrow(cs: Containers, vUsedTx: seq<UsedTx>, draws: nat -> Draws, turns: seq<Turn>, n: nat, t: Turn)
    requires TurnsOk(cs, vUsedTx, draws, turns, n)
    requires |turns| == n + 1 && Member(turns[n].ring, turns[n].vUsedTx, |vUsedTx|, draws(n), t.ring, t.vUsedTx)
    ensures TurnsOk(cs, vUsedTx, draws, turns + [t], n + 1)
  {
    hide Member;
  }

  lemma NoneRemembered(cs: Containers, vUsedTx: seq<UsedTx>)
    ensures Remembered(Ring(cs, [], [], []), vUsedTx) && Ring(cs, [], [], []).Count() == 0
  {
  }

  lemma TurnsStart(cs: Containers, vUsedTx: seq<UsedTx>, draws: nat -> Draws)
    ensures TurnsOk(cs, vUsedTx, draws, [Turn(Ring(cs, [], [], []), vUsedTx)], 0)
  {
  }

  /** Picks a whole ring from the containers of one value. */
  method PickRing(cs: Containers, nMixins: nat, vUsedTx: seq<UsedTx>, draws: nat -> Draws)
    returns (ok: bool, cs': Containers, vUsedTx': seq<UsedTx>, vPicked: seq<nat>, ghost ring: Ring,
             ghost turns: seq<Turn>)
    requires ContainersOk(cs) && Unique(vUsedTx)
    ensures ContainersOk(cs') && Unique(vUsedTx')
    ensures ok <==> |cs.old_| + |cs.recent| >= nMixins
    ensures ok ==> Picked(cs, cs', ring, nMixins, vPicked)
    ensures ok ==> Remembered(ring, vUsedTx') && forall x :: x in vUsedTx ==> x in vUsedTx'
    ensures ok ==>
            |turns| == nMixins + 1 && TurnsOk(cs, vUsedTx, draws, turns, nMixins) &&
              turns[nMixins] == Turn(ring, vUsedTx')
    ensures !ok ==> vPicked == [] && cs' == cs && vUsedTx' == vUsedTx
  {
    hide *;
    var r := Ring(cs, [], [], []);
    cs', vUsedTx', vPicked, ring, turns := cs, vUsedTx, [], r, [Turn(r, vUsedTx)];
    if |cs.old_| + |cs.recent| < nMixins {
      return false, cs, vUsedTx, [], r, turns;
    }
    RingStarts(cs);
    NoneRemembered(cs, vUsedTx);
    TurnsStart(cs, vUsedTx, draws);
    var nUsedTx := |vUsedTx|;
    for i := 0 to nMixins
      invariant RingOk(cs, r) && r.Count() == i && Unique(vUsedTx') && nUsedTx <= |vUsedTx'|
      invariant Remembered(r, vUsedTx') && forall x :: x in vUsedTx ==> x in vUsedTx'
      invariant |turns| == i + 1 && TurnsOk(cs, vUsedTx, draws, turns, i) && turns[i] == Turn(r, vUsedTx')
    {
      r, vUsedTx' := PickOne(cs, r, vUsedTx', nUsedTx, draws(i));
      TurnsGrow(cs, vUsedTx, draws, turns, i, Turn(r, vUsedTx'));
      turns := turns + [Turn(r, vUsedTx')];
    }
    RingEnds(cs, r);
    var recent := RemoveEmptyTx(r.cs.recent, r.pickedRecent);
    var old_ := RemoveEmptyTx(r.cs.old_, r.pickedOld);
    ok, cs', ring, vPicked := true, Containers(old_, recent), r, r.keys;
  }

  class CMixins {
    var vUsedTx: seq<UsedTx>
    var mapMixins: map<int, Containers>

    ghost predicate Valid()
      reads this
    {
      Unique(vUsedTx) && AllOk(mapMixins)
    }

    constructor ()
      ensures Valid() && mapMixins == map[]
    {
      vUsedTx, mapMixins := [], map[];
    }

    /** Adds an output, to the recent ones for the first 2700 blocks. */
    method AddAnonOutput(pubKey: nat, nValue: int, txHash: nat, n: nat, nBlockHeight: int, blockHeight: int)
      requires Valid()
      modifies this`mapMixins
      ensures Valid() && PoolOf(AtOf(mapMixins, nValue)) == PoolOf(AtOf(old(mapMixins), nValue)) + multiset{pubKey}
      ensures var id, cs := if blockHeight - nBlockHeight < 2700 then RECENT else OLD, AtOf(mapMixins, nValue);
              && cs == AtOf(old(mapMixins), nValue).Set(id, cs.Get(id))
              && KeyFiled(AtOf(old(mapMixins), nValue).Get(id), cs.Get(id), txHash, OutKey(n, pubKey))
      ensures forall v :: v != nValue ==> AtOf(mapMixins, v) == AtOf(old(mapMixins), v)
    {
      var cs := AtOf(mapMixins, nValue);
      AtOk(mapMixins, nValue);
      var id := if blockHeight - nBlockHeight < 2700 then RECENT else OLD;
      assert ContainerOk(cs.Get(id));
      var c := AddTo(cs.Get(id), pubKey, txHash, n);
      SetOne(cs, id, c, pubKey);
      SetOk(mapMixins, nValue, cs.Set(id, c));
      hide ContainersOk, AllOk, AtOf, PoolOf, KeyFiled;
      mapMixins := mapMixins[nValue := cs.Set(id, c)];
    }

    /** Picks nMixins keys of one value.  It succeeds exactly when there are that many
        transaction entries, and otherwise picks nothing. */
    method Pick(nValue: int, nMixins: nat, draws: nat -> Draws)
      returns (ok: bool, vPickedAnons: seq<nat>, ghost ring: Ring, ghost turns: seq<Turn>)
      requires Valid()
      modifies this
      ensures Valid()
      ensures ok <==> |AtOf(old(mapMixins), nValue).old_| + |AtOf(old(mapMixins), nValue).recent| >= nMixins
      ensures ok ==> Picked(AtOf(old(mapMixins), nValue), AtOf(mapMixins, nValue), ring, nMixins, vPickedAnons)
      ensures ok ==> Remembered(ring, vUsedTx) && forall x :: x in old(vUsedTx) ==> x in vUsedTx
      ensures ok ==> |turns| == nMixins + 1 &&
                     TurnsOk(AtOf(old(mapMixins), nValue), old(vUsedTx), draws, turns, nMixins) &&
                       turns[nMixins] == Turn(ring, vUsedTx)
      ensures !ok ==>
              vPickedAnons == [] && AtOf(mapMixins, nValue) == AtOf(old(mapMixins), nValue) && vUsedTx == old(vUsedTx)
      ensures forall v :: v != nValue ==> AtOf(mapMixins, v) == AtOf(old(mapMixins), v)
    {
      hide ContainersOk, AllOk, AtOf, Unique, Picked, Remembered, TurnsOk;
      var cs := AtOf(mapMixins, nValue);
      AtOk(mapMixins, nValue);
      var used;
      ok, cs, used, vPickedAnons, ring, turns := PickRing(cs, nMixins, vUsedTx, draws);
      SetOk(mapMixins, nValue, cs);
      vUsedTx, mapMixins := used, mapMixins[nValue := cs];
    }
  }

  // ----- any run -----

  datatype Op =
    | AddKey(pubKey: nat, nValue: int, txHash: nat, n: nat, nBlockHeight: int, blockHeight: int)
    | PickKeys(nValue: int, nMixins: nat, draws: nat -> Draws)

  /** The keys of a value that the operations add. */
  function AllAdded(ops: seq<Op>, v: int): multiset<nat> {
    if ops == [] then multiset{}
    else
      var op := ops[|ops| - 1];
      AllAdded(ops[..|ops| - 1], v) + if op.AddKey? && op.nValue == v then multiset{op.pubKey} else multiset{}
  }

  /** The keys of a value that the operations yield. */
  function AllPicked(ops: seq<Op>, picks: seq<seq<nat>>, v: int): multiset<nat>
    requires |picks| == |ops|
  {
    if ops == [] then multiset{}
    else
      var op := ops[|ops| - 1];
      AllPicked(ops[..|ops| - 1], picks[..|ops| - 1], v) +
      if op.PickKeys? && op.nValue == v then multiset(picks[|ops| - 1]) else multiset{}
  }

  /** Every key that was added is still there or has been picked, as often as it was added. */
  ghost predicate Accounted(ops: seq<Op>, picks: seq<seq<nat>>, m: map<int, Containers>) {
    |picks| == |ops| && forall v :: AllAdded(ops, v) == PoolOf(AtOf(m, v)) + AllPicked(ops, picks, v)
  }

  /** One operation touches one value: a key joins its pool, or keys leave it. */
  ghost predicate OpStep(op: Op, m: map<int, Containers>, keys: seq<nat>, m': map<int, Containers>) {
    && (forall v :: v != op.nValue ==> AtOf(m', v) == AtOf(m, v))
    && RingOrNothing(op, keys)
    && if op.AddKey? then PoolOf(AtOf(m', op.nValue)) == PoolOf(AtOf(m, op.nValue)) + multiset{op.pubKey}
       else PoolOf(AtOf(m, op.nValue)) == PoolOf(AtOf(m', op.nValue)) + multiset(keys)
  }

  lemma {:induction false} AccountedStep(ops: seq<Op>, picks: seq<seq<nat>>, m: map<int, Containers>, op: Op,
                                         keys: seq<nat>, m': map<int, Containers>)
    requires Accounted(ops, picks, m) && OpStep(op, m, keys, m')
    ensures Accounted(ops + [op], picks + [keys], m')
  {
    hide AtOf, PoolOf;
    assert (ops + [op])[..|ops|] == ops && (picks + [keys])[..|ops|] == picks;
    forall v ensures AllAdded(ops + [op], v) == PoolOf(AtOf(m', v)) + AllPicked(ops + [op], picks + [keys], v) {
      assert AllAdded(ops, v) == PoolOf(AtOf(m, v)) + AllPicked(ops, picks, v);
    }
  }

  /** What a step of a run yields: nothing, or a whole ring of keys. */
  predicate RingOrNothing(op: Op, keys: seq<nat>) {
    keys == [] || (op.PickKeys? && |keys| == op.nMixins)
  }

  method Step(c: CMixins, op: Op) returns (keys: seq<nat>)
    requires c.Valid()
    modifies c
    ensures c.Valid() && OpStep(op, old(c.mapMixins), keys, c.mapMixins)
  {
    hide AllOk, Unique, AtOf, PoolOf, KeyFiled, Picked, Remembered;
    keys := [];
    match op {
      case AddKey(pubKey, nValue, txHash, n, nBlockHeight, blockHeight) =>
        c.AddAnonOutput(pubKey, nValue, txHash, n, nBlockHeight, blockHeight);
      case PickKeys(nValue, nMixins, draws) =>
        var ok;
        ghost var ring, turns;
        ok, keys, ring, turns := c.Pick(nValue, nMixins, draws);
        PickAccounts(AtOf(old(c.mapMixins), nValue), AtOf(c.mapMixins, nValue), ring, nMixins, ok, keys);
    }
  }

  /** Any run of additions and picks, from the beginning: over the whole run no key is picked more
      often than it was added, and none is lost. */
  method Run(ops: seq<Op>) returns (c: CMixins, picks: seq<seq<nat>>)
    ensures fresh(c) && c.Valid() && Accounted(ops, picks, c.mapMixins)
    ensures forall i :: 0 <= i < |ops| ==> RingOrNothing(ops[i], picks[i])
  {
    c := new CMixins();
    picks := [];
    NothingAccounted();
    for i := 0 to |ops|
      invariant fresh(c) && c.Valid() && Accounted(ops[..i], picks, c.mapMixins)
      invariant forall j :: 0 <= j < i ==> RingOrNothing(ops[j], picks[j])
    {
      hide Accounted, OpStep, RingOrNothing;
      assert ops[..i + 1] == ops[..i] + [ops[i]];
      ghost var m := c.mapMixins;
      var keys := Step(c, ops[i]);
      StepYields(ops[i], m, keys, c.mapMixins);
      AccountedStep(ops[..i], picks, m, ops[i], keys, c.mapMixins);
      picks := picks + [keys];
    }
    assert ops[..|ops|] == ops;
  }

  lemma {:induction false} StepYields(op: Op, m: map<int, Containers>, keys: seq<nat>, m': map<int, Containers>)
    requires OpStep(op, m, keys, m')
    ensures RingOrNothing(op, keys)
  {
  }

  lemma {:induction false} NothingAccounted()
    ensures Accounted([], [], map[])
  {
  }

  lemma {:induction false} PickAccounts(cs0: Containers, cs: Containers, ring: Ring, n: nat, ok: bool, keys: seq<nat>)
    requires if ok then Picked(cs0, cs, ring, n, keys) else keys == [] && cs == cs0
    ensures PoolOf(cs0) == PoolOf(cs) + multiset(keys) && (ok ==> |keys| == n)
  {
    hide PoolOf;
  }
}
