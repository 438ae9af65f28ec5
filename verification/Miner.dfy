/** Filling a block template from the memory pool: a priority queue of transactions that are
    ready, and a list of those that wait for others. */
module Miner {
  import opened Basics
  import opened ConnectBlocks
  import opened MinerPool
  import opened Supply
  import opened TxIndexing

  /** Policy, clock and measurements. */
  datatype Policy = Policy(
    isFinal: Tx -> bool,
    size: Tx -> nat,
    priority: Tx -> real,
    feePerKb: (Tx, int) -> real,
    minFee: (Tx, nat) -> int,        // for a block of the given size
    adjustedTime: int,
    coinBaseTime: int,
    fProofOfStake: bool,
    nBlockMaxSize: nat,
    nBlockMinSize: nat,
    nBlockPrioritySize: int,
    nMinTxFee: real,
    highPriority: real)

  datatype TxPriority = TxPriority(dPriority: real, dFeePerKb: real, nFee: int, hash: nat)

  /** A transaction that waits for other pooled ones. */
  datatype COrphan = COrphan(hash: nat, setDependsOn: set<nat>, dPriority: real, dFeePerKb: real)

  /** The order of the queue. */
  predicate Less(a: TxPriority, b: TxPriority, byFee: bool) {
    if byFee then a.dFeePerKb < b.dFeePerKb || (a.dFeePerKb == b.dFeePerKb && a.dPriority < b.dPriority)
    else a.dPriority < b.dPriority || (a.dPriority == b.dPriority && a.dFeePerKb < b.dFeePerKb)
  }

  // ----- the invariant of the schedule -----

  /** Transactions that can be scheduled at all. */
  predicate Registered(n: Node, p: Policy, h: nat) {
    && h in n.mempool && !n.mempool[h].IsCoinBase() && !n.mempool[h].IsCoinStake() && p.isFinal(n.mempool[h])
    && (n.mempool[h].isAnonVersion ==> n.o.checkAnonInputs(n.mempool[h]).Some? || Parents(n, n.mempool[h]) != {})
  }

  /** The priority and the fee rate by which a transaction competes.  One that waits although
      its anonymous inputs could not be checked has none. */
  ghost predicate Scored(n: Node, p: Policy, tx: Tx, dPriority: real, dFeePerKb: real) {
    if tx.isAnonVersion && n.o.checkAnonInputs(tx).None? then dPriority == 0.0 && dFeePerKb == 0.0
    else dPriority == p.priority(tx) && dFeePerKb == p.feePerKb(tx, FeeOf(n, tx))
  }

  /** A queued transaction is ready: everything it waits for is included.  A recorded fee that
      is not zero is what the transaction pays. */
  ghost predicate Ready(n: Node, p: Policy, e: TxPriority, included: set<nat>, done: set<nat>) {
    && Registered(n, p, e.hash) && e.hash !in done && Parents(n, n.mempool[e.hash]) <= included
    && (e.nFee == 0 || e.nFee == FeeOf(n, n.mempool[e.hash]))
    && Scored(n, p, n.mempool[e.hash], e.dPriority, e.dFeePerKb)
  }

  ghost predicate QueueOk(n: Node, p: Policy, vec: seq<TxPriority>, included: set<nat>, done: set<nat>) {
    && (forall i :: 0 <= i < |vec| ==> Ready(n, p, vec[i], included, done))
    && forall i, j :: 0 <= i < j < |vec| ==> vec[i].hash != vec[j].hash
  }

  /** A waiting transaction waits for exactly its parents that are not included yet. */
  ghost predicate Waits(n: Node, p: Policy, e: COrphan, included: set<nat>) {
    && Registered(n, p, e.hash) && Parents(n, n.mempool[e.hash]) != {}
    && e.setDependsOn == Parents(n, n.mempool[e.hash]) - included
    && Scored(n, p, n.mempool[e.hash], e.dPriority, e.dFeePerKb)
  }

  ghost predicate DistinctOrphans(vOrphan: seq<COrphan>) {
    forall i, j :: 0 <= i < j < |vOrphan| ==> vOrphan[i].hash != vOrphan[j].hash
  }

  ghost predicate OrphansOk(n: Node, p: Policy, vOrphan: seq<COrphan>, included: set<nat>) {
    && (forall j :: 0 <= j < |vOrphan| ==> Waits(n, p, vOrphan[j], included))
    && DistinctOrphans(vOrphan)
  }

  function Dependers(m: map<nat, seq<nat>>, h: nat): seq<nat> {
    if h in m then m[h] else []
  }

  /** mapDependers lists under every transaction the orphans that spend from it. */
  ghost predicate DependersOk(n: Node, vOrphan: seq<COrphan>, m: map<nat, seq<nat>>) {
    forall h: nat, j: nat :: j in Dependers(m, h) <==> SpendsFrom(n, vOrphan, j, h)
  }

  predicate SpendsFrom(n: Node, vOrphan: seq<COrphan>, j: nat, h: nat) {
    j < |vOrphan| && vOrphan[j].hash in n.mempool && h in Parents(n, n.mempool[vOrphan[j].hash])
  }

  predicate InQueue(vec: seq<TxPriority>, h: nat) {
    exists i :: 0 <= i < |vec| && vec[i].hash == h
  }

  predicate Waiting(vOrphan: seq<COrphan>, h: nat) {
    exists j :: 0 <= j < |vOrphan| && vOrphan[j].hash == h && vOrphan[j].setDependsOn != {}
  }

  /** Nothing is forgotten. */
  ghost predicate Covered(n: Node, p: Policy, vec: seq<TxPriority>, vOrphan: seq<COrphan>, done: set<nat>) {
    forall h :: Registered(n, p, h) ==> h in done || InQueue(vec, h) || Waiting(vOrphan, h)
  }

  /** Everything taken from the queue was ready. */
  ghost predicate DoneOk(n: Node, p: Policy, included: set<nat>, done: set<nat>) {
    && included <= done
    && forall h :: h in done ==> Registered(n, p, h) && Parents(n, n.mempool[h]) <= included
  }

  /** The schedule, apart from the block being built. */
  ghost predicate Scheduled(n: Node, p: Policy, vec: seq<TxPriority>, vOrphan: seq<COrphan>, m: map<nat, seq<nat>>,
                            included: set<nat>, done: set<nat>) {
    && QueueOk(n, p, vec, included, done) && OrphansOk(n, p, vOrphan, included)
    && DependersOk(n, vOrphan, m) && Covered(n, p, vec, vOrphan, done) && DoneOk(n, p, included, done)
  }

  /** How many transactions still wait. */
  function CountWaiting(vOrphan: seq<COrphan>): nat {
    if vOrphan == [] then 0
    else CountWaiting(vOrphan[..|vOrphan| - 1]) + if vOrphan[|vOrphan| - 1].setDependsOn != {} then 1 else 0
  }

  // ----- taking the best transaction from the queue -----

  /** A heap, by what it is for: the front is a greatest element. */
  method PopMax(vec: seq<TxPriority>, byFee: bool) returns (best: TxPriority, rest: seq<TxPriority>, ghost at: nat)
    requires vec != []
    ensures at < |vec| && best == vec[at] && rest == vec[..at] + vec[at + 1..]
    ensures forall i :: 0 <= i < |vec| ==> !Less(best, vec[i], byFee)
  {
    var k := 0;
    for i := 1 to |vec|
      invariant 0 <= k < |vec| && forall j :: 0 <= j < i ==> !Less(vec[k], vec[j], byFee)
    {
      if Less(vec[k], vec[i], byFee) {
        k := i;
      }
    }
    best, rest, at := vec[k], vec[..k] + vec[k + 1..], k;
  }

  lemma PoppedQueue(n: Node, p: Policy, vec: seq<TxPriority>, at: nat, included: set<nat>, done: set<nat>)
    requires at < |vec| && QueueOk(n, p, vec, included, done)
    ensures QueueOk(n, p, vec[..at] + vec[at + 1..], included, done + {vec[at].hash}) &&
            Ready(n, p, vec[at], included, done)
  {
    var rest, done' := vec[..at] + vec[at + 1..], done + {vec[at].hash};
    forall i | 0 <= i < |rest| ensures Ready(n, p, rest[i], included, done') {
      var j := if i < at then i else i + 1;
      assert rest[i] == vec[j];
      StillReady(n, p, vec[j], included, included, done, done');
    }
    hide Ready;
    forall i, j | 0 <= i < j < |rest| ensures rest[i].hash != rest[j].hash {
      assert rest[i] == vec[if i < at then i else i + 1];
      assert rest[j] == vec[if j < at then j else j + 1];
    }
  }

  lemma StillReady(n: Node, p: Policy, e: TxPriority, included: set<nat>, included': set<nat>, done: set<nat>,
                   done': set<nat>)
    requires Ready(n, p, e, included, done) && included <= included' && e.hash !in done'
    ensures Ready(n, p, e, included', done')
  {
  }

  lemma PoppedCovered(n: Node, p: Policy, vec: seq<TxPriority>, at: nat, vOrphan: seq<COrphan>, done: set<nat>)
    requires at < |vec| && Covered(n, p, vec, vOrphan, done)
    ensures Covered(n, p, vec[..at] + vec[at + 1..], vOrphan, done + {vec[at].hash})
  {
    var rest, done' := vec[..at] + vec[at + 1..], done + {vec[at].hash};
    hide Registered;
    forall h | Registered(n, p, h) ensures h in done' || InQueue(rest, h) || Waiting(vOrphan, h) {
      if InQueue(vec, h) && h !in done' {
        var i :| 0 <= i < |vec| && vec[i].hash == h;
        assert vec[i] == rest[if i < at then i else i - 1];
      }
    }
  }

  /** Taking an element from the queue. */
  lemma Popped(n: Node, p: Policy, vec: seq<TxPriority>, at: nat, vOrphan: seq<COrphan>, m: map<nat, seq<nat>>,
               included: set<nat>, done: set<nat>)
    requires at < |vec| && Scheduled(n, p, vec, vOrphan, m, included, done)
    ensures Scheduled(n, p, vec[..at] + vec[at + 1..], vOrphan, m, included, done + {vec[at].hash})
    ensures Ready(n, p, vec[at], included, done)
  {
    PoppedQueue(n, p, vec, at, included, done);
    PoppedCovered(n, p, vec, at, vOrphan, done);
    assert DoneOk(n, p, included, done + {vec[at].hash}) by {
      hide Registered, Parents, QueueOk, OrphansOk, DependersOk, Covered;
    }
    hide QueueOk, OrphansOk, DependersOk, Covered, DoneOk, Ready;
  }

  // ----- releasing what waited -----

  /** Midway through releasing the dependers of h: the orphans still listed may not have been
      told that h is included. */
  ghost predicate OrphansMid(n: Node, p: Policy, vOrphan: seq<COrphan>, included: set<nat>, h: nat, rest: seq<nat>) {
    && (forall j :: 0 <= j < |vOrphan| ==>
          Waits(n, p, vOrphan[j], included + {h}) || (j in rest && Waits(n, p, vOrphan[j], included)))
    && DistinctOrphans(vOrphan)
  }

  /** Nothing is both queued and waiting. */
  ghost predicate Apart(vec: seq<TxPriority>, vOrphan: seq<COrphan>) {
    forall i, j :: 0 <= i < |vec| && 0 <= j < |vOrphan| && vec[i].hash == vOrphan[j].hash ==>
      vOrphan[j].setDependsOn == {}
  }

  ghost predicate Mid(n: Node, p: Policy, vec: seq<TxPriority>, vOrphan: seq<COrphan>, included: set<nat>,
                      done: set<nat>, h: nat, rest: seq<nat>)
  {
    && QueueOk(n, p, vec, included + {h}, done) && OrphansMid(n, p, vOrphan, included, h, rest)
    && Apart(vec, vOrphan) && Covered(n, p, vec, vOrphan, done)
    && forall g :: g in done ==> Registered(n, p, g) && Parents(n, n.mempool[g]) <= included
  }

  lemma MidStarts(n: Node, p: Policy, vec: seq<TxPriority>, vOrphan: seq<COrphan>, m: map<nat, seq<nat>>,
                  included: set<nat>, done: set<nat>, h: nat)
    requires Scheduled(n, p, vec, vOrphan, m, included, done)
    ensures Mid(n, p, vec, vOrphan, included, done, h, Dependers(m, h))
  {
    var rest := Dependers(m, h);
    forall i | 0 <= i < |vec| ensures Ready(n, p, vec[i], included + {h}, done) {
      StillReady(n, p, vec[i], included, included + {h}, done, done);
    }
    forall j | 0 <= j < |vOrphan|
      ensures Waits(n, p, vOrphan[j], included + {h}) || (j in rest && Waits(n, p, vOrphan[j], included))
    {
      assert Waits(n, p, vOrphan[j], included);
      assert j in rest <==> SpendsFrom(n, vOrphan, j, h);
    }
    hide Registered, InQueue, Waiting, DependersOk;
    forall i, j | 0 <= i < |vec| && 0 <= j < |vOrphan| && vec[i].hash == vOrphan[j].hash
      ensures vOrphan[j].setDependsOn == {}
    {
      assert Ready(n, p, vec[i], included, done) && Waits(n, p, vOrphan[j], included);
    }
  }

  lemma MidEnds(n: Node, p: Policy, vec: seq<TxPriority>, vOrphan: seq<COrphan>, m: map<nat, seq<nat>>,
                included: set<nat>, done: set<nat>, h: nat)
    requires Mid(n, p, vec, vOrphan, included, done, h, []) && DependersOk(n, vOrphan, m) && included + {h} <= done
    ensures Scheduled(n, p, vec, vOrphan, m, included + {h}, done)
  {
    hide Registered, InQueue, Waiting, DependersOk, Covered, QueueOk, Parents, Waits;
  }

  /** Telling one depender that h is included. */
  function Told(e: COrphan, h: nat): COrphan {
    e.(setDependsOn := e.setDependsOn - {h})
  }

  function Pushed(e: COrphan): TxPriority {
    TxPriority(e.dPriority, e.dFeePerKb, 0, e.hash)
  }

  lemma ToldWaits(n: Node, p: Policy, e: COrphan, included: set<nat>, h: nat)
    requires Waits(n, p, e, included + {h}) || Waits(n, p, e, included)
    ensures Waits(n, p, Told(e, h), included + {h})
  {
    hide Parents;
    var parents := Parents(n, n.mempool[e.hash]);
    assert parents - (included + {h}) == parents - included - {h};
    assert parents - (included + {h}) == parents - (included + {h}) - {h};
  }

  lemma ToldOrphans(n: Node, p: Policy, vOrphan: seq<COrphan>, included: set<nat>, h: nat, rest: seq<nat>)
    requires OrphansMid(n, p, vOrphan, included, h, rest) && rest != [] && rest[0] < |vOrphan|
    ensures var j := rest[0];
            OrphansMid(n, p, vOrphan[j := Told(vOrphan[j], h)], included, h, rest[1..]) &&
              Waits(n, p, Told(vOrphan[j], h), included + {h})
  {
    var j := rest[0];
    var after := vOrphan[j := Told(vOrphan[j], h)];
    ToldWaits(n, p, vOrphan[j], included, h);
    hide Waits, Told;
    forall k | 0 <= k < |after|
      ensures Waits(n, p, after[k], included + {h}) || (k in rest[1..] && Waits(n, p, after[k], included))
    {
      if k != j && k in rest {
        assert rest == [j] + rest[1..];
      }
    }
  }

  lemma ToldCovered(n: Node, p: Policy, vec: seq<TxPriority>, vOrphan: seq<COrphan>, done: set<nat>, j: nat, h: nat)
    requires j < |vOrphan| && Covered(n, p, vec, vOrphan, done)
    ensures var e := Told(vOrphan[j], h);
            Covered(n, p, if vOrphan[j].setDependsOn != {} && e.setDependsOn == {} then vec + [Pushed(e)]
                    else vec, vOrphan[j := e], done)
  {
    var e := Told(vOrphan[j], h);
    var vec' := if vOrphan[j].setDependsOn != {} && e.setDependsOn == {} then vec + [Pushed(e)] else vec;
    var after := vOrphan[j := e];
    hide Registered;
    forall g | Registered(n, p, g) ensures g in done || InQueue(vec', g) || Waiting(after, g) {
      if InQueue(vec, g) {
        var i :| 0 <= i < |vec| && vec[i].hash == g;
        assert vec'[i].hash == g;
      } else if Waiting(vOrphan, g) {
        var k :| 0 <= k < |vOrphan| && vOrphan[k].hash == g && vOrphan[k].setDependsOn != {};
        if k == j && e.setDependsOn == {} {
          assert vec'[|vec|].hash == g;
        } else {
          assert after[k].hash == g && after[k].setDependsOn != {};
        }
      }
    }
  }

  lemma EmptyDifference(a: set<nat>, b: set<nat>)
    requires a - b == {}
    ensures a <= b
  {
    forall x | x in a ensures x in b {
      assert x !in a - b;
    }
  }

  lemma ToldQueue(n: Node, p: Policy, vec: seq<TxPriority>, e: COrphan, included: set<nat>, done: set<nat>)
    requires QueueOk(n, p, vec, included, done) && Waits(n, p, e, included) && e.setDependsOn == {}
    requires !InQueue(vec, e.hash) && e.hash !in done
    ensures QueueOk(n, p, vec + [Pushed(e)], included, done)
  {
    hide Parents, FeeOf;
    EmptyDifference(Parents(n, n.mempool[e.hash]), included);
    assert Ready(n, p, Pushed(e), included, done);
    hide Ready;
  }

  lemma ToldApart(vec: seq<TxPriority>, vOrphan: seq<COrphan>, j: nat, h: nat)
    requires Apart(vec, vOrphan) && DistinctOrphans(vOrphan) && j < |vOrphan|
    ensures var e := Told(vOrphan[j], h);
            && Apart(vec, vOrphan[j := e])
            && (e.setDependsOn == {} ==> Apart(vec + [Pushed(e)], vOrphan[j := e]))
  {
  }

  /** One depender handled: it joins the queue when it has nothing left to wait for. */
  lemma ReleaseStep(n: Node, p: Policy, vec: seq<TxPriority>, vOrphan: seq<COrphan>, included: set<nat>, done: set<nat>,
                    h: nat, rest: seq<nat>)
    requires Mid(n, p, vec, vOrphan, included, done, h, rest) && rest != [] && rest[0] < |vOrphan|
    ensures var j := rest[0];
            var e := Told(vOrphan[j], h);
            Mid(n, p, if vOrphan[j].setDependsOn != {} && e.setDependsOn == {} then vec + [Pushed(e)] else vec,
                vOrphan[j := e], included, done, h, rest[1..])
  {
    var j := rest[0];
    var e := Told(vOrphan[j], h);
    ToldOrphans(n, p, vOrphan, included, h, rest);
    ToldCovered(n, p, vec, vOrphan, done, j, h);
    ToldApart(vec, vOrphan, j, h);
    if vOrphan[j].setDependsOn != {} && e.setDependsOn == {} {
      NotYetQueued(n, p, vec, vOrphan, included, done, h, rest);
      ToldQueue(n, p, vec, e, included + {h}, done);
    }
    hide QueueOk, OrphansMid, Apart, Covered, Waits, Registered, Parents;
  }

  lemma NotYetQueued(n: Node, p: Policy, vec: seq<TxPriority>, vOrphan: seq<COrphan>, included: set<nat>,
                     done: set<nat>, h: nat, rest: seq<nat>)
    requires Mid(n, p, vec, vOrphan, included, done, h, rest) && rest != [] && rest[0] < |vOrphan| &&
             vOrphan[rest[0]].setDependsOn != {}
    ensures !InQueue(vec, vOrphan[rest[0]].hash) && vOrphan[rest[0]].hash !in done
  {
    hide QueueOk, Covered, Waits, Parents;
    var e := vOrphan[rest[0]];
    assert Waits(n, p, e, included + {h}) || Waits(n, p, e, included);
    if InQueue(vec, e.hash) {
      QueuedIsReady(vec, vOrphan, rest[0]);
      assert false;
    }
    if e.hash in done {
      NothingToWaitFor(n, p, e, included, h);
      assert false;
    }
  }

  lemma QueuedIsReady(vec: seq<TxPriority>, vOrphan: seq<COrphan>, j: nat)
    requires Apart(vec, vOrphan) && j < |vOrphan| && InQueue(vec, vOrphan[j].hash)
    ensures vOrphan[j].setDependsOn == {}
  {
  }

  lemma NothingToWaitFor(n: Node, p: Policy, e: COrphan, included: set<nat>, h: nat)
    requires e.hash in n.mempool && Parents(n, n.mempool[e.hash]) <= included
    requires Waits(n, p, e, included + {h}) || Waits(n, p, e, included)
    ensures e.setDependsOn == {}
  {
    hide Parents;
  }

  lemma {:induction false} CountOfUpdate(vOrphan: seq<COrphan>, j: nat, e: COrphan)
    requires j < |vOrphan|
    ensures CountWaiting(vOrphan[j := e]) ==
              CountWaiting(vOrphan) - (if vOrphan[j].setDependsOn != {} then 1 else 0) +
                (if e.setDependsOn != {} then 1 else 0)
    decreases |vOrphan|
  {
    var last := |vOrphan| - 1;
    if j < last {
      assert vOrphan[j := e][..last] == vOrphan[..last][j := e];
      CountOfUpdate(vOrphan[..last], j, e);
    } else {
      assert vOrphan[j := e][..last] == vOrphan[..last];
    }
  }

  /** Tells the dependers of h that it is included, and queues those that are ready now. */
  method Release(n: Node, p: Policy, vec: seq<TxPriority>, vOrphan: seq<COrphan>, m: map<nat, seq<nat>>, h: nat,
                 ghost included: set<nat>, ghost done: set<nat>)
    returns (vec': seq<TxPriority>, vOrphan': seq<COrphan>)
    requires Scheduled(n, p, vec, vOrphan, m, included, done) && h in done
    ensures Scheduled(n, p, vec', vOrphan', m, included + {h}, done)
    ensures |vec'| + CountWaiting(vOrphan') <= |vec| + CountWaiting(vOrphan)
  {
    vec', vOrphan' := vec, vOrphan;
    var rest := Dependers(m, h);
    MidStarts(n, p, vec, vOrphan, m, included, done, h);
    DependersInRange(n, vOrphan, m, h);
    hide Scheduled, Mid, SameHashes, InRangeAll;
    SameHashesSelf(vOrphan);
    while rest != []
      invariant Mid(n, p, vec', vOrphan', included, done, h, rest) && SameHashes(vOrphan, vOrphan') &&
                InRangeAll(rest, |vOrphan|)
      invariant |vec'| + CountWaiting(vOrphan') <= |vec| + CountWaiting(vOrphan)
      decreases |rest|
    {
      var j := rest[0];
      FirstInRange(rest, vOrphan, vOrphan');
      ReleaseStep(n, p, vec', vOrphan', included, done, h, rest);
      hide CountWaiting, Pushed;
      SameHashesStep(vOrphan, vOrphan', j, h);
      if vOrphan'[j].setDependsOn != {} {
        CountOfUpdate(vOrphan', j, Told(vOrphan'[j], h));
        vOrphan' := vOrphan'[j := Told(vOrphan'[j], h)];
        if vOrphan'[j].setDependsOn == {} {
          vec' := vec' + [Pushed(vOrphan'[j])];
        }
      } else {
        assert vOrphan'[j := Told(vOrphan'[j], h)] == vOrphan';
      }
      rest := rest[1..];
    }
    DependersOf(n, p, vec, vOrphan, vOrphan', m, included, done);
    MidEnds(n, p, vec', vOrphan', m, included, done, h);
  }

  ghost predicate SameHashes(a: seq<COrphan>, b: seq<COrphan>) {
    |a| == |b| && forall j :: 0 <= j < |a| ==> a[j].hash == b[j].hash
  }

  lemma SameHashesSelf(a: seq<COrphan>)
    ensures SameHashes(a, a)
  {
  }

  lemma SameHashesStep(a: seq<COrphan>, b: seq<COrphan>, j: nat, h: nat)
    requires SameHashes(a, b) && j < |b|
    ensures SameHashes(a, b[j := Told(b[j], h)])
  {
  }

  ghost predicate InRangeAll(rest: seq<nat>, k: nat) {
    forall i :: 0 <= i < |rest| ==> rest[i] < k
  }

  lemma FirstInRange(rest: seq<nat>, a: seq<COrphan>, b: seq<COrphan>)
    requires rest != [] && InRangeAll(rest, |a|) && SameHashes(a, b)
    ensures rest[0] < |b| && InRangeAll(rest[1..], |a|)
  {
  }

  lemma DependersInRange(n: Node, vOrphan: seq<COrphan>, m: map<nat, seq<nat>>, h: nat)
    requires DependersOk(n, vOrphan, m)
    ensures InRangeAll(Dependers(m, h), |vOrphan|)
  {
    var rest := Dependers(m, h);
    forall i | 0 <= i < |rest| ensures rest[i] < |vOrphan| {
      assert rest[i] in rest;
      assert SpendsFrom(n, vOrphan, rest[i], h);
    }
  }

  lemma DependersOf(n: Node, p: Policy, vec: seq<TxPriority>, a: seq<COrphan>, b: seq<COrphan>, m: map<nat, seq<nat>>,
                    included: set<nat>, done: set<nat>)
    requires Scheduled(n, p, vec, a, m, included, done) && SameHashes(a, b)
    ensures DependersOk(n, b, m) && included <= done
  {
    forall h: nat, j: nat ensures j in Dependers(m, h) <==> SpendsFrom(n, b, j, h) {
      assert j in Dependers(m, h) <==> SpendsFrom(n, a, j, h);
    }
  }

  // ----- setting the schedule up -----

  /** m' is m with orphan j listed under everything it waits for. */
  ghost predicate Listed(m: map<nat, seq<nat>>, m': map<nat, seq<nat>>, j: nat, deps: set<nat>) {
    forall h: nat, k: nat :: k in Dependers(m', h) <==> k in Dependers(m, h) || (k == j && h in deps)
  }

  lemma ListMore(m: map<nat, seq<nat>>, m': map<nat, seq<nat>>, j: nat, deps: set<nat>, h: nat)
    requires Listed(m, m', j, deps)
    ensures Listed(m, m'[h := Dependers(m', h) + [j]], j, deps + {h})
  {
    var m'' := m'[h := Dependers(m', h) + [j]];
    forall g: nat, k: nat ensures k in Dependers(m'', g) <==> k in Dependers(m, g) || (k == j && g in deps + {h}) {
      assert k in Dependers(m', g) <==> k in Dependers(m, g) || (k == j && g in deps);
      assert Dependers(m'', g) == if g == h then Dependers(m', h) + [j] else Dependers(m', g);
    }
  }

  lemma ListNone(m: map<nat, seq<nat>>, j: nat)
    ensures Listed(m, m, j, {})
  {
  }

  /** Looks every input of a transaction up, on disk or in the pool. */
  method Examine(n: Node, tx: Tx, j: nat, m: map<nat, seq<nat>>)
    returns (deps: set<nat>, m': map<nat, seq<nat>>, nTotalIn: int)
    requires InputsExist(n, tx)
    ensures deps == Parents(n, tx) && nTotalIn == TotalInFrom(n, tx, 0) && Listed(m, m', j, deps)
  {
    deps, m', nTotalIn := {}, m, 0;
    ListNone(m, j);
    hide Listed;
    for i := 0 to |tx.vin|
      invariant deps == ParentsTo(n, tx, i) && nTotalIn + TotalInFrom(n, tx, i) == TotalInFrom(n, tx, 0)
      invariant Listed(m, m', j, deps)
    {
      if !tx.SkipsInput(i) {
        var prevout := tx.vin[i].prevout;
        assert OutputExists(n, prevout);
        if !OnDisk(n, prevout) {
          ListMore(m, m', j, deps, prevout.hash);
          m' := m'[prevout.hash := Dependers(m', prevout.hash) + [j]];
          deps := deps + {prevout.hash};
          nTotalIn := nTotalIn + n.mempool[prevout.hash].vout[prevout.n].nValue;
        } else {
          nTotalIn := nTotalIn + TxOf(n, prevout.hash).value.vout[prevout.n].nValue;
        }
      }
    }
  }

  /** The schedule while the pool is being read: everything seen so far has its place. */
  ghost predicate Registering(n: Node, p: Policy, vec: seq<TxPriority>, vOrphan: seq<COrphan>, m: map<nat, seq<nat>>,
                              seen: seq<nat>)
  {
    && QueueOk(n, p, vec, {}, {}) && OrphansOk(n, p, vOrphan, {}) && DependersOk(n, vOrphan, m)
    && (forall i :: 0 <= i < |vec| ==> vec[i].hash in seen)
    && (forall j :: 0 <= j < |vOrphan| ==> vOrphan[j].hash in seen)
    && forall h :: h in seen && Registered(n, p, h) ==> InQueue(vec, h) || Waiting(vOrphan, h)
  }

  lemma RegisterNone(n: Node, p: Policy, vec: seq<TxPriority>, vOrphan: seq<COrphan>, m: map<nat, seq<nat>>,
                     seen: seq<nat>, h: nat)
    requires Registering(n, p, vec, vOrphan, m, seen) && !Registered(n, p, h)
    ensures Registering(n, p, vec, vOrphan, m, seen + [h])
  {
    hide QueueOk, OrphansOk, DependersOk, Registered;
  }

  lemma RegisterReady(n: Node, p: Policy, vec: seq<TxPriority>, vOrphan: seq<COrphan>, m: map<nat, seq<nat>>,
                      seen: seq<nat>, e: TxPriority)
    requires Registering(n, p, vec, vOrphan, m, seen) && Ready(n, p, e, {}, {}) && e.hash !in seen
    ensures Registering(n, p, vec + [e], vOrphan, m, seen + [e.hash])
  {
    hide OrphansOk, DependersOk, Registered, Ready;
    var vec' := vec + [e];
    forall h | h in seen + [e.hash] && Registered(n, p, h) ensures InQueue(vec', h) || Waiting(vOrphan, h) {
      if h == e.hash {
        assert vec'[|vec|].hash == h;
      } else if InQueue(vec, h) {
        var i :| 0 <= i < |vec| && vec[i].hash == h;
        assert vec'[i].hash == h;
      }
    }
  }

  lemma RegisterOrphan(n: Node, p: Policy, vec: seq<TxPriority>, vOrphan: seq<COrphan>, m: map<nat, seq<nat>>,
                       m': map<nat, seq<nat>>, seen: seq<nat>, e: COrphan)
    requires Registering(n, p, vec, vOrphan, m, seen) && Waits(n, p, e, {}) && e.hash !in seen
    requires Listed(m, m', |vOrphan|, Parents(n, n.mempool[e.hash]))
    ensures Registering(n, p, vec, vOrphan + [e], m', seen + [e.hash])
  {
    var after := vOrphan + [e];
    DependersWith(n, p, vOrphan, m, m', e);
    hide QueueOk, DependersOk, Listed, Parents;
    forall h | h in seen + [e.hash] && Registered(n, p, h) ensures InQueue(vec, h) || Waiting(after, h) {
      if h == e.hash {
        assert after[|vOrphan|].hash == h && after[|vOrphan|].setDependsOn != {};
      } else if Waiting(vOrphan, h) {
        var j :| 0 <= j < |vOrphan| && vOrphan[j].hash == h && vOrphan[j].setDependsOn != {};
        assert after[j] == vOrphan[j];
      }
    }
  }

  lemma DependersWith(n: Node, p: Policy, vOrphan: seq<COrphan>, m: map<nat, seq<nat>>, m': map<nat, seq<nat>>,
                      e: COrphan)
    requires DependersOk(n, vOrphan, m) && Waits(n, p, e, {}) && Listed(m, m', |vOrphan|, Parents(n, n.mempool[e.hash]))
    ensures DependersOk(n, vOrphan + [e], m')
  {
    var after := vOrphan + [e];
    forall h: nat, j: nat ensures j in Dependers(m', h) <==> SpendsFrom(n, after, j, h) {
      assert j in Dependers(m', h) <==> j in Dependers(m, h) || (j == |vOrphan| && h in Parents(n, n.mempool[e.hash]));
      assert j in Dependers(m, h) <==> SpendsFrom(n, vOrphan, j, h);
      if j < |vOrphan| {
        assert after[j] == vOrphan[j];
      }
    }
  }

  lemma RegisteredAll(n: Node, p: Policy, vec: seq<TxPriority>, vOrphan: seq<COrphan>, m: map<nat, seq<nat>>,
                      keys: seq<nat>)
    requires Registering(n, p, vec, vOrphan, m, keys) && forall h :: h in n.mempool ==> h in keys
    ensures Scheduled(n, p, vec, vOrphan, m, {}, {})
  {
  }

  /** The keys of the pool, each once. */
  ghost predicate Enumerates(keys: seq<nat>, n: Node) {
    && (forall h :: h in keys <==> h in n.mempool)
    && forall i, j :: 0 <= i < j < |keys| ==> keys[i] != keys[j]
  }

  /** Gives one pooled transaction its place. */
  method RegisterOne(n: Node, p: Policy, vec: seq<TxPriority>, vOrphan: seq<COrphan>, m: map<nat, seq<nat>>,
                     ghost seen: seq<nat>, h: nat)
    returns (vec': seq<TxPriority>, vOrphan': seq<COrphan>, m': map<nat, seq<nat>>)
    requires Registering(n, p, vec, vOrphan, m, seen) && h in n.mempool && h !in seen && InputsExist(n, n.mempool[h])
    ensures Registering(n, p, vec', vOrphan', m', seen + [h])
  {
    vec', vOrphan', m' := vec, vOrphan, m;
    var tx := n.mempool[h];
    if tx.IsCoinBase() || tx.IsCoinStake() || !p.isFinal(tx) {
      RegisterNone(n, p, vec, vOrphan, m, seen, h);
      return;
    }
    var deps, listed, nTotalIn := Examine(n, tx, |vOrphan|, m);
    hide Registering, Listed, TotalInFrom, ValueOut, Parents, ParentsTo;
    var e := COrphan(h, deps, 0.0, 0.0);
    if tx.isAnonVersion {
      if n.o.checkAnonInputs(tx).None? {
        // an orphan that has been set up already stays, with no priority
        if deps != {} {
          OrphanWaits(n, p, e);
          RegisterOrphan(n, p, vec, vOrphan, m, listed, seen, e);
          vOrphan', m' := vOrphan + [e], listed;
        } else {
          RegisterNone(n, p, vec, vOrphan, m, seen, h);
        }
        return;
      }
      nTotalIn := nTotalIn + n.o.checkAnonInputs(tx).value;
    }
    var nFee := nTotalIn - ValueOut(tx);
    if deps != {} {
      e := e.(dPriority := p.priority(tx), dFeePerKb := p.feePerKb(tx, nFee));
      OrphanWaits(n, p, e);
      RegisterOrphan(n, p, vec, vOrphan, m, listed, seen, e);
      vOrphan', m' := vOrphan + [e], listed;
    } else {
      var q := TxPriority(p.priority(tx), p.feePerKb(tx, nFee), nFee, h);
      RegisterReady(n, p, vec, vOrphan, m, seen, q);
      vec' := vec + [q];
    }
  }

  lemma OrphanWaits(n: Node, p: Policy, e: COrphan)
    requires Registered(n, p, e.hash) && e.setDependsOn == Parents(n, n.mempool[e.hash]) && e.setDependsOn != {}
    requires Scored(n, p, n.mempool[e.hash], e.dPriority, e.dFeePerKb)
    ensures Waits(n, p, e, {})
  {
    assert e.setDependsOn - {} == e.setDependsOn;
  }

  /** Reads the whole pool. */
  method SetUp(n: Node, p: Policy, keys: seq<nat>)
    returns (vec: seq<TxPriority>, vOrphan: seq<COrphan>, m: map<nat, seq<nat>>)
    requires NoMissing(n) && Enumerates(keys, n)
    ensures Scheduled(n, p, vec, vOrphan, m, {}, {})
  {
    vec, vOrphan, m := [], [], map[];
    assert keys[..0] == [];
    for i := 0 to |keys|
      invariant Registering(n, p, vec, vOrphan, m, keys[..i])
    {
      assert keys[..i + 1] == keys[..i] + [keys[i]];
      hide Registering;
      vec, vOrphan, m := RegisterOne(n, p, vec, vOrphan, m, keys[..i], keys[i]);
    }
    assert keys[..|keys|] == keys;
    RegisteredAll(n, p, vec, vOrphan, m, keys);
  }

  // ----- considering one transaction -----

  /** What a transaction has to be, besides valid, to be taken into a block of this size. */
  predicate Fits(n: Node, p: Policy, tx: Tx, nBlockSize: nat, nBlockSigOps: nat) {
    && nBlockSize + p.size(tx) < p.nBlockMaxSize && nBlockSigOps + TxSigOps(tx, n.o) < MAX_BLOCK_SIGOPS
    && tx.nTime <= p.adjustedTime && (p.fProofOfStake ==> tx.nTime <= p.coinBaseTime)
    && FeeOf(n, tx) >= p.minFee(tx, nBlockSize)
  }

  /** A transaction that pays next to nothing is skipped once the block has its minimum size. */
  predicate Skipped(p: Policy, e: TxPriority, tx: Tx, nBlockSize: nat, byFee: bool) {
    byFee && e.dFeePerKb < p.nMinTxFee && nBlockSize + p.size(tx) >= p.nBlockMinSize
  }

  /** What a transaction has to be before its inputs are looked at. */
  predicate MayFit(n: Node, p: Policy, tx: Tx, nBlockSize: nat, nBlockSigOps: nat) {
    && nBlockSize + p.size(tx) < p.nBlockMaxSize && nBlockSigOps + n.o.legacySigOps(tx) < MAX_BLOCK_SIGOPS
    && tx.nTime <= p.adjustedTime && (p.fProofOfStake ==> tx.nTime <= p.coinBaseTime)
  }

  /** The queue is ordered by fee from this entry on: it may fit, but the block is past the size
      kept for high priorities, or the priority is not high. */
  ghost predicate TurnsToFees(n: Node, p: Policy, e: TxPriority, nBlockSize: nat, nBlockSigOps: nat) {
    && e.hash in n.mempool && MayFit(n, p, n.mempool[e.hash], nBlockSize, nBlockSigOps)
    && (nBlockSize + p.size(n.mempool[e.hash]) >= p.nBlockPrioritySize || e.dPriority < p.highPriority)
  }

  /** The transaction of a queue entry goes into the block. */
  ghost predicate Takes(n: Node, p: Policy, e: TxPriority, view: View, nBlockSize: nat, nBlockSigOps: nat,
                        byFee: bool)
  {
    && e.hash in n.mempool && PoolAccepted(n, view, n.mempool[e.hash])
    && Fits(n, p, n.mempool[e.hash], nBlockSize, nBlockSigOps) && !Skipped(p, e, n.mempool[e.hash], nBlockSize, byFee)
  }

  /** Connects a transaction to a copy of the test pool, which replaces the test pool only if
      everything goes well. */
  method ConnectToPool(n: Node, ghost view: View, testPool: View, tx: Tx, nKnownFee: int, nMinFee: int,
                       nSigOpsLeft: int)
    returns (ok: bool, testPool': View, nFee: int)
    requires PoolOk(n) && view == n.db + testPool && Faithful(n, view)
    requires tx.hash in n.mempool && n.mempool[tx.hash] == tx && !tx.IsCoinBase()
    requires nKnownFee == 0 || nKnownFee == FeeOf(n, tx)
    ensures ok <==> PoolAccepted(n, view, tx) && FeeOf(n, tx) >= nMinFee && n.o.p2shSigOps(tx) < nSigOpsLeft
    ensures ok ==> ConnectTx(view, tx, InMempool) == Some(n.db + testPool') && nFee == FeeOf(n, tx)
    ensures !ok ==> testPool' == testPool
  {
    testPool', nFee := testPool, nKnownFee;
    var inputs;
    ok, inputs := FetchInputs(n.db, testPool, n.mempool, tx);
    if !ok {
      NotFetched(n, view, tx);
      return;
    }
    FetchedValue(n, view, tx, inputs, 0);
    FetchedPool(n, view, tx, inputs);
    hide PoolOk, Faithful, Fetched, EntriesMatch, InputsPass, SignaturesVerify, PoolInputs, SpendAll, ValueInFrom,
      TotalInFrom, ValueOut, PaysItsWay;
    if nFee == 0 {
      nFee := ValueInFrom(inputs, tx, 0) - ValueOut(tx);
      if tx.isAnonVersion {
        if n.o.checkAnonInputs(tx).None? {
          return false, testPool, nFee;
        }
        nFee := nFee + n.o.checkAnonInputs(tx).value;
      }
    }
    if nFee < nMinFee {
      return false, testPool, nFee;
    }
    if n.o.p2shSigOps(tx) >= nSigOpsLeft {
      return false, testPool, nFee;
    }
    var connected;
    ok, connected := ConnectInputs(inputs, n.db, testPool, tx, InMempool, n.o);
    if ok {
      QueueEntry(n.db, connected, tx.hash, NewTxIndex(InMempool, |tx.vout|));
      testPool' := connected[tx.hash := NewTxIndex(InMempool, |tx.vout|)];
    }
  }

  /** Decides on the transaction that was taken from the queue.  Once the block is large, or
      priorities are low, the queue is ordered by fee. */
  method Consider(n: Node, p: Policy, e: TxPriority, ghost view: View, testPool: View, nBlockSize: nat,
                  nBlockSigOps: nat, byFee: bool)
    returns (ok: bool, testPool': View, nFee: int, byFee': bool)
    requires PoolOk(n) && view == n.db + testPool && Faithful(n, view)
    requires e.hash in n.mempool && !n.mempool[e.hash].IsCoinBase() &&
             (e.nFee == 0 || e.nFee == FeeOf(n, n.mempool[e.hash]))
    ensures ok <==> Takes(n, p, e, view, nBlockSize, nBlockSigOps, byFee)
    ensures ok ==>
            ConnectTx(view, n.mempool[e.hash], InMempool) == Some(n.db + testPool') &&
              nFee == FeeOf(n, n.mempool[e.hash])
    ensures !ok ==> testPool' == testPool
    ensures byFee' <==> byFee || TurnsToFees(n, p, e, nBlockSize, nBlockSigOps)
  {
    hide PoolAccepted, ConnectTx, Faithful, FeeOf;
    var tx := n.mempool[e.hash];
    ok, testPool', nFee, byFee' := false, testPool, e.nFee, byFee;
    var nTxSize := p.size(tx);
    if nBlockSize + nTxSize >= p.nBlockMaxSize {
      return;
    }
    if nBlockSigOps + n.o.legacySigOps(tx) >= MAX_BLOCK_SIGOPS {
      return;
    }
    if tx.nTime > p.adjustedTime || (p.fProofOfStake && tx.nTime > p.coinBaseTime) {
      return;
    }
    if byFee && e.dFeePerKb < p.nMinTxFee && nBlockSize + nTxSize >= p.nBlockMinSize {
      return;
    }
    if !byFee && (nBlockSize + nTxSize >= p.nBlockPrioritySize || e.dPriority < p.highPriority) {
      byFee' := true;
    }
    assert tx.hash == e.hash;
    ok, testPool', nFee := ConnectToPool(n, view, testPool, tx, e.nFee, p.minFee(tx, nBlockSize),
                                         MAX_BLOCK_SIGOPS - nBlockSigOps - n.o.legacySigOps(tx));
  }

  // ----- the block -----

  function SumSizes(n: Node, p: Policy, txs: seq<nat>): nat {
    if txs == [] then 0
    else SumSizes(n, p, txs[..|txs| - 1]) + if txs[|txs| - 1] in n.mempool then p.size(n.mempool[txs[|txs| - 1]]) else 0
  }

  function SumSigOps(n: Node, txs: seq<nat>): nat {
    if txs == [] then 0
    else SumSigOps(n, txs[..|txs| - 1]) + if txs[|txs| - 1] in n.mempool then TxSigOps(n.mempool[txs[|txs| - 1]], n.o)
      else 0
  }

  function SumFees(n: Node, txs: seq<nat>): int {
    if txs == [] then 0
    else SumFees(n, txs[..|txs| - 1]) + if txs[|txs| - 1] in n.mempool then FeeOf(n, n.mempool[txs[|txs| - 1]]) else 0
  }

  function Included(txs: seq<nat>): set<nat> {
    set h | h in txs
  }

  /** The running totals of the block. */
  ghost predicate Totalled(n: Node, p: Policy, txs: seq<nat>, nBlockSize: nat, nBlockSigOps: nat, nFees: int) {
    && nBlockSize == 1000 + SumSizes(n, p, txs) && nBlockSigOps == 100 + SumSigOps(n, txs) && nFees == SumFees(n, txs)
    && (txs != [] ==> nBlockSize < p.nBlockMaxSize && nBlockSigOps < MAX_BLOCK_SIGOPS)
  }

  lemma TotalMore(n: Node, p: Policy, txs: seq<nat>, nBlockSize: nat, nBlockSigOps: nat, nFees: int, h: nat)
    requires Totalled(n, p, txs, nBlockSize, nBlockSigOps, nFees) && h in n.mempool &&
             Fits(n, p, n.mempool[h], nBlockSize, nBlockSigOps)
    ensures var tx := n.mempool[h];
            Totalled(n, p, txs + [h], nBlockSize + p.size(tx), nBlockSigOps + TxSigOps(tx, n.o), nFees + FeeOf(n, tx))
  {
    ChainStep(n, txs, h);
  }

  /** The block so far: a valid chain of pooled transactions, which the test pool reflects. */
  ghost predicate BlockOk(n: Node, txs: seq<nat>, testPool: View) {
    PoolChain(n, txs) && PoolView(n, txs) == Some(n.db + testPool) && Faithful(n, n.db + testPool)
  }

  lemma BlockStarts(n: Node)
    requires PoolOk(n)
    ensures BlockOk(n, [], map[]) && Included([]) == {}
  {
    FaithfulDb(n);
    assert n.db + map[] == n.db;
  }

  lemma BlockMore(n: Node, txs: seq<nat>, testPool: View, testPool': View, h: nat)
    requires PoolOk(n) && BlockOk(n, txs, testPool) && h in n.mempool && h !in txs
    requires !n.mempool[h].IsCoinBase() && !n.mempool[h].IsCoinStake() && PoolAccepted(n, n.db + testPool, n.mempool[h])
    requires ConnectTx(n.db + testPool, n.mempool[h], InMempool) == Some(n.db + testPool')
    ensures BlockOk(n, txs + [h], testPool') && Included(txs + [h]) == Included(txs) + {h}
  {
    ChainGrows(n, txs, n.db + testPool, h);
    FaithfulAfter(n, n.db + testPool, n.mempool[h]);
    hide PoolChain, PoolView, Faithful, ConnectTx, PoolAccepted;
  }

  lemma ReadyParts(n: Node, p: Policy, e: TxPriority, included: set<nat>, done: set<nat>, txs: seq<nat>)
    requires Ready(n, p, e, included, done) && included == Included(txs) && included <= done
    ensures e.hash in n.mempool && e.hash !in txs && !n.mempool[e.hash].IsCoinBase() && !n.mempool[e.hash].IsCoinStake()
    ensures e.nFee == 0 || e.nFee == FeeOf(n, n.mempool[e.hash])
  {
    hide FeeOf, Parents;
    assert e.hash !in included;
  }

  lemma DoneIncluded(n: Node, p: Policy, vec: seq<TxPriority>, vOrphan: seq<COrphan>, m: map<nat, seq<nat>>,
                     included: set<nat>, done: set<nat>)
    requires Scheduled(n, p, vec, vOrphan, m, included, done)
    ensures included <= done
  {
  }

  /** With an empty queue, exactly the transactions whose parents all made it have been
      considered. */
  lemma QueueExhausted(n: Node, p: Policy, vOrphan: seq<COrphan>, m: map<nat, seq<nat>>, included: set<nat>,
                       done: set<nat>, h: nat)
    requires Scheduled(n, p, [], vOrphan, m, included, done) && Registered(n, p, h)
    ensures h in done <==> Parents(n, n.mempool[h]) <= included
  {
    hide Parents, QueueOk, DependersOk;
    if h !in done {
      assert Waiting(vOrphan, h);
      var j :| 0 <= j < |vOrphan| && vOrphan[j].hash == h && vOrphan[j].setDependsOn != {};
      assert Waits(n, p, vOrphan[j], included);
    }
  }

  lemma BlockView(n: Node, txs: seq<nat>, testPool: View)
    requires BlockOk(n, txs, testPool)
    ensures PoolChain(n, txs) && Faithful(n, n.db + testPool)
  {
  }

  // ----- a run of rounds -----

  /** Between two rounds: the block so far, and whether the queue is ordered by fee. */
  datatype State = State(vtx: seq<nat>, byFee: bool)

  function PriorityOf(n: Node, p: Policy, tx: Tx): real {
    if tx.isAnonVersion && n.o.checkAnonInputs(tx).None? then 0.0 else p.priority(tx)
  }

  function RateOf(n: Node, p: Policy, tx: Tx): real {
    if tx.isAnonVersion && n.o.checkAnonInputs(tx).None? then 0.0 else p.feePerKb(tx, FeeOf(n, tx))
  }

  /** As an entry of the queue. */
  function EntryOf(n: Node, p: Policy, h: nat): TxPriority
    requires h in n.mempool
  {
    TxPriority(PriorityOf(n, p, n.mempool[h]), RateOf(n, p, n.mempool[h]), 0, h)
  }

  /** A transaction that may be next: it has not had its round, and waits for nothing. */
  ghost predicate Competes(n: Node, p: Policy, s: State, done: set<nat>, h: nat) {
    Registered(n, p, h) && h !in done && Parents(n, n.mempool[h]) <= Included(s.vtx)
  }

  /** A greatest one of those that may be next. */
  ghost predicate Greatest(n: Node, p: Policy, s: State, done: set<nat>, h: nat) {
    Competes(n, p, s, done, h) &&
    forall g :: Competes(n, p, s, done, g) ==> !Less(EntryOf(n, p, h), EntryOf(n, p, g), s.byFee)
  }

  function SizeOf(n: Node, p: Policy, s: State): nat {
    1000 + SumSizes(n, p, s.vtx)
  }

  function SigOpsOf(n: Node, s: State): nat {
    100 + SumSigOps(n, s.vtx)
  }

  /** One round: from s to t, with transaction h. */
  ghost predicate Round(n: Node, p: Policy, s: State, done: set<nat>, h: nat, t: State) {
    && Greatest(n, p, s, done, h) && PoolView(n, s.vtx).Some?
    && t.vtx == (if Takes(n, p, EntryOf(n, p, h), PoolView(n, s.vtx).value, SizeOf(n, p, s), SigOpsOf(n, s), s.byFee)
                 then s.vtx + [h] else s.vtx)
    && (t.byFee <==> s.byFee || TurnsToFees(n, p, EntryOf(n, p, h), SizeOf(n, p, s), SigOpsOf(n, s)))
  }

  /** The rounds of a template: the transactions in the order in which they had their rounds, and the states before,
      between and after these. */
  datatype Rounds = Rounds(order: seq<nat>, states: seq<State>)

  ghost predicate RoundAt(n: Node, p: Policy, rounds: Rounds, r: nat) {
    r < |rounds.order| < |rounds.states| &&
    Round(n, p, rounds.states[r], Included(rounds.order[..r]), rounds.order[r], rounds.states[r + 1])
  }

  ghost predicate RoundsOk(n: Node, p: Policy, rounds: Rounds) {
    && |rounds.states| == |rounds.order| + 1 && rounds.states[0] == State([], p.nBlockPrioritySize <= 0)
    && forall r :: 0 <= r < |rounds.order| ==> RoundAt(n, p, rounds, r)
  }

  /** The rounds so far lead to this state. */
  ghost predicate RoundsTo(n: Node, p: Policy, rounds: Rounds, s: State, done: set<nat>) {
    RoundsOk(n, p, rounds) && rounds.states[|rounds.order|] == s && done == Included(rounds.order)
  }

  function OneMore(rounds: Rounds, h: nat, t: State): Rounds {
    Rounds(rounds.order + [h], rounds.states + [t])
  }

  lemma NoRounds(n: Node, p: Policy)
    ensures var s := State([], p.nBlockPrioritySize <= 0); RoundsTo(n, p, Rounds([], [s]), s, {})
  {
  }

  lemma RoundsEnd(n: Node, p: Policy, rounds: Rounds, s: State, done: set<nat>)
    requires RoundsTo(n, p, rounds, s, done)
    ensures RoundsOk(n, p, rounds) && rounds.states[|rounds.order|] == s && done == Included(rounds.order)
  {
  }

  lemma RoundStays(n: Node, p: Policy, rounds: Rounds, h: nat, t: State, r: nat)
    requires RoundAt(n, p, rounds, r)
    ensures RoundAt(n, p, OneMore(rounds, h, t), r)
  {
    assert (rounds.order + [h])[..r] == rounds.order[..r];
    hide Round;
  }

  lemma RoundsGrow(n: Node, p: Policy, rounds: Rounds, s: State, done: set<nat>, h: nat, t: State)
    requires RoundsTo(n, p, rounds, s, done) && Round(n, p, s, done, h, t)
    ensures RoundsTo(n, p, OneMore(rounds, h, t), t, done + {h})
  {
    var after := OneMore(rounds, h, t);
    hide Round;
    forall r | 0 <= r < |after.order| ensures RoundAt(n, p, after, r) {
      if r < |rounds.order| {
        RoundStays(n, p, rounds, h, t, r);
      } else {
        assert after.order[..r] == rounds.order;
      }
    }
    hide RoundAt;
  }

  /** An entry of the queue is ranked as its transaction. */
  lemma EntryRanks(n: Node, p: Policy, e: TxPriority, included: set<nat>, done: set<nat>)
    requires Ready(n, p, e, included, done)
    ensures e.hash in n.mempool && EntryOf(n, p, e.hash) == e.(nFee := 0)
  {
    hide FeeOf, Parents;
  }

  /** Whatever may be next is in the queue. */
  lemma CompetesQueued(n: Node, p: Policy, vec: seq<TxPriority>, vOrphan: seq<COrphan>, m: map<nat, seq<nat>>, s: State,
                       done: set<nat>, g: nat)
    requires Scheduled(n, p, vec, vOrphan, m, Included(s.vtx), done) && Competes(n, p, s, done, g)
    ensures InQueue(vec, g)
  {
    hide Parents, QueueOk, DependersOk, Registered;
  }

  lemma SameRank(a: TxPriority, b: TxPriority, a': TxPriority, b': TxPriority, byFee: bool)
    requires a' == a.(nFee := 0) && b' == b.(nFee := 0)
    ensures Less(a', b', byFee) <==> Less(a, b, byFee)
  {
  }

  /** The entry taken is that of a greatest transaction. */
  lemma TakenIsGreatest(n: Node, p: Policy, vec: seq<TxPriority>, vOrphan: seq<COrphan>, m: map<nat, seq<nat>>,
                        s: State, done: set<nat>, at: nat)
    requires Scheduled(n, p, vec, vOrphan, m, Included(s.vtx), done) && at < |vec|
    requires forall i :: 0 <= i < |vec| ==> !Less(vec[at], vec[i], s.byFee)
    ensures Greatest(n, p, s, done, vec[at].hash)
  {
    hide *;
    QueueReady(n, p, vec, vOrphan, m, Included(s.vtx), done);
    var h := vec[at].hash;
    ReadyCompetes(n, p, s, vec[at], done);
    EntryRanks(n, p, vec[at], Included(s.vtx), done);
    forall g | Competes(n, p, s, done, g)
      ensures g in n.mempool && !Less(EntryOf(n, p, h), EntryOf(n, p, g), s.byFee)
    {
      CompetesQueued(n, p, vec, vOrphan, m, s, done, g);
      var i := PlaceOf(vec, g);
      EntryRanks(n, p, vec[i], Included(s.vtx), done);
      SameRank(vec[at], vec[i], EntryOf(n, p, h), EntryOf(n, p, g), s.byFee);
    }
    GreatestOf(n, p, s, done, h);
  }

  lemma QueueReady(n: Node, p: Policy, vec: seq<TxPriority>, vOrphan: seq<COrphan>, m: map<nat, seq<nat>>,
                   included: set<nat>, done: set<nat>)
    requires Scheduled(n, p, vec, vOrphan, m, included, done)
    ensures forall i :: 0 <= i < |vec| ==> Ready(n, p, vec[i], included, done)
  {
    hide Ready, OrphansOk, DependersOk, Covered, DoneOk;
  }

  lemma ReadyCompetes(n: Node, p: Policy, s: State, e: TxPriority, done: set<nat>)
    requires Ready(n, p, e, Included(s.vtx), done)
    ensures Competes(n, p, s, done, e.hash)
  {
    hide Registered, Parents, Scored, FeeOf;
  }

  lemma PlaceOf(vec: seq<TxPriority>, g: nat) returns (i: nat)
    requires InQueue(vec, g)
    ensures i < |vec| && vec[i].hash == g
  {
    i :| 0 <= i < |vec| && vec[i].hash == g;
  }

  lemma GreatestOf(n: Node, p: Policy, s: State, done: set<nat>, h: nat)
    requires Competes(n, p, s, done, h)
    requires forall g :: Competes(n, p, s, done, g) ==>
               g in n.mempool && h in n.mempool && !Less(EntryOf(n, p, h), EntryOf(n, p, g), s.byFee)
    ensures Greatest(n, p, s, done, h)
  {
    hide EntryOf, Less, Competes;
  }

  /** What is decided about the entry taken is decided about its transaction. */
  lemma RoundOf(n: Node, p: Policy, e: TxPriority, testPool: View, s: State, done: set<nat>, nFees: int, t: State)
    requires Greatest(n, p, s, done, e.hash) && e.hash in n.mempool && EntryOf(n, p, e.hash) == e.(nFee := 0)
    requires BlockOk(n, s.vtx, testPool) && Totalled(n, p, s.vtx, SizeOf(n, p, s), SigOpsOf(n, s), nFees)
    requires t.vtx == if Takes(n, p, e, n.db + testPool, SizeOf(n, p, s), SigOpsOf(n, s), s.byFee) then s.vtx + [e.hash]
             else s.vtx
    requires t.byFee <==> s.byFee || TurnsToFees(n, p, e, SizeOf(n, p, s), SigOpsOf(n, s))
    ensures Round(n, p, s, done, e.hash, t)
  {
    hide Greatest, PoolChain, PoolAccepted, Fits, MayFit, SumSizes, SumSigOps, EntryOf, Faithful;
  }

  lemma TotalsOf(n: Node, p: Policy, s: State, nBlockSize: nat, nBlockSigOps: nat, nFees: int)
    requires Totalled(n, p, s.vtx, nBlockSize, nBlockSigOps, nFees)
    ensures nBlockSize == SizeOf(n, p, s) && nBlockSigOps == SigOpsOf(n, s)
  {
  }

  /** Takes the best transaction from the queue, into the block if it is valid and fits. */
  method TakeOne(n: Node, p: Policy, vec: seq<TxPriority>, vOrphan: seq<COrphan>, m: map<nat, seq<nat>>, testPool: View,
                 vtx: seq<nat>, nBlockSize: nat, nBlockSigOps: nat, nFees: int, byFee: bool, ghost considered: set<nat>)
    returns (vec': seq<TxPriority>, vOrphan': seq<COrphan>, testPool': View, vtx': seq<nat>,
             nBlockSize': nat, nBlockSigOps': nat, nFees': int, byFee': bool, ghost considered': set<nat>,
             ghost taken: TxPriority)
    requires vec != [] && PoolOk(n)
    requires Scheduled(n, p, vec, vOrphan, m, Included(vtx), considered)
    requires BlockOk(n, vtx, testPool) && Totalled(n, p, vtx, nBlockSize, nBlockSigOps, nFees)
    ensures Scheduled(n, p, vec', vOrphan', m, Included(vtx'), considered')
    ensures BlockOk(n, vtx', testPool') && Totalled(n, p, vtx', nBlockSize', nBlockSigOps', nFees')
    ensures Round(n, p, State(vtx, byFee), considered, taken.hash, State(vtx', byFee'))
    ensures considered' == considered + {taken.hash}
    ensures taken in vec && forall i :: 0 <= i < |vec| ==> !Less(taken, vec[i], byFee)
    ensures vtx' == if Takes(n, p, taken, n.db + testPool, nBlockSize, nBlockSigOps, byFee) then vtx + [taken.hash]
            else vtx
    ensures byFee' <==> byFee || TurnsToFees(n, p, taken, nBlockSize, nBlockSigOps)
    ensures |vec'| + CountWaiting(vOrphan') < |vec| + CountWaiting(vOrphan)
  {
    hide TurnsToFees, Scored, Round, Greatest, EntryOf, SizeOf, SigOpsOf;
    hide Scheduled, BlockOk, PoolChain, PoolAccepted, ConnectTx, Ready, Registered, Parents, ParentsTo, PoolOk,
      Included, Fits, CountWaiting,
      TxSigOps, FeeOf, Totalled, Faithful, Less;
    vOrphan', testPool', vtx', nBlockSize', nBlockSigOps', nFees' := vOrphan, testPool, vtx, nBlockSize, nBlockSigOps,
      nFees;
    var e;
    ghost var at;
    e, vec', at := PopMax(vec, byFee);
    DoneIncluded(n, p, vec, vOrphan, m, Included(vtx), considered);
    Popped(n, p, vec, at, vOrphan, m, Included(vtx), considered);
    ReadyParts(n, p, e, Included(vtx), considered, vtx);
    EntryRanks(n, p, e, Included(vtx), considered);
    TakenIsGreatest(n, p, vec, vOrphan, m, State(vtx, byFee), considered, at);
    TotalsOf(n, p, State(vtx, byFee), nBlockSize, nBlockSigOps, nFees);
    BlockView(n, vtx, testPool);
    considered', taken := considered + {e.hash}, e;
    var ok, nFee;
    ok, testPool', nFee, byFee' := Consider(n, p, e, n.db + testPool, testPool, nBlockSize, nBlockSigOps, byFee);
    if ok {
      var tx := n.mempool[e.hash];
      BlockMore(n, vtx, testPool, testPool', e.hash);
      TotalMore(n, p, vtx, nBlockSize, nBlockSigOps, nFees, e.hash);
      vec', vOrphan' := Release(n, p, vec', vOrphan, m, e.hash, Included(vtx), considered');
      vtx' := vtx + [e.hash];
      nBlockSize', nBlockSigOps', nFees' := nBlockSize + p.size(tx), nBlockSigOps + TxSigOps(tx, n.o), nFees + nFee;
    }
    RoundOf(n, p, e, testPool, State(vtx, byFee), considered, nFees, State(vtx', byFee'));
  }

  /** The transactions of a block template, after the coinbase.  keys lists the pool. */
  method CreateNewBlock(n: Node, p: Policy, keys: seq<nat>)
    returns (vtx: seq<nat>, nFees: int, nBlockSize: nat, nBlockSigOps: nat, ghost considered: set<nat>,
             ghost rounds: Rounds)
    requires PoolOk(n) && NoMissing(n) && Enumerates(keys, n)
    ensures RoundsOk(n, p, rounds) && vtx == rounds.states[|rounds.order|].vtx && considered == Included(rounds.order)
    ensures PoolChain(n, vtx) && Totalled(n, p, vtx, nBlockSize, nBlockSigOps, nFees)
    ensures ParentsFirst(n, vtx) && SpendsOnce(n, vtx)
    ensures Included(vtx) <= considered
    ensures forall h :: Registered(n, p, h) ==> (h in considered <==> Parents(n, n.mempool[h]) <= Included(vtx))
  {
    var vec, vOrphan, mapDependers := SetUp(n, p, keys);
    var testPool: View := map[];
    var fSortedByFee := p.nBlockPrioritySize <= 0;
    vtx, nFees, nBlockSize, nBlockSigOps, considered := [], 0, 1000, 100, {};
    rounds := Rounds([], [State([], fSortedByFee)]);
    BlockStarts(n);
    NoRounds(n, p);
    hide RoundsOk, RoundsTo, Round, OneMore;
    hide Scheduled, BlockOk, PoolChain, Parents, Registered, PoolOk, NoMissing, Included, CountWaiting, ParentsFirst,
      SpendsOnce;
    while vec != []
      invariant Scheduled(n, p, vec, vOrphan, mapDependers, Included(vtx), considered)
      invariant BlockOk(n, vtx, testPool) && Totalled(n, p, vtx, nBlockSize, nBlockSigOps, nFees)
      invariant RoundsTo(n, p, rounds, State(vtx, fSortedByFee), considered)
      decreases |vec| + CountWaiting(vOrphan)
    {
      hide Totalled, Takes, Less, TurnsToFees;
      ghost var taken, s, done := vec[0], State(vtx, fSortedByFee), considered;
      vec, vOrphan, testPool, vtx, nBlockSize, nBlockSigOps, nFees, fSortedByFee, considered, taken :=
        TakeOne(n, p, vec, vOrphan, mapDependers, testPool, vtx, nBlockSize, nBlockSigOps, nFees, fSortedByFee,
                considered);
      RoundsGrow(n, p, rounds, s, done, taken.hash, State(vtx, fSortedByFee));
      rounds := OneMore(rounds, taken.hash, State(vtx, fSortedByFee));
    }
    RoundsEnd(n, p, rounds, State(vtx, fSortedByFee), considered);
    DoneIncluded(n, p, [], vOrphan, mapDependers, Included(vtx), considered);
    ConsideredExactly(n, p, vOrphan, mapDependers, Included(vtx), considered);
    BlockView(n, vtx, testPool);
    ChainIsOrdered(n, vtx);
    ChainSpendsOnce(n, vtx);
  }

  lemma ConsideredExactly(n: Node, p: Policy, vOrphan: seq<COrphan>, m: map<nat, seq<nat>>, included: set<nat>,
                          done: set<nat>)
    requires Scheduled(n, p, [], vOrphan, m, included, done)
    ensures forall h :: Registered(n, p, h) ==> (h in done <==> Parents(n, n.mempool[h]) <= included)
  {
    forall h | Registered(n, p, h) ensures h in done <==> Parents(n, n.mempool[h]) <= included {
      QueueExhausted(n, p, vOrphan, m, included, done, h);
    }
  }
}
