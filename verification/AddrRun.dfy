/** Runs of the address manager: the tables stay consistent, and as long as sane times go in, the
    recorded times stay sane. */
module AddrRun {
  import opened AddrCheck
  import opened AddrManager
  import opened AddrTables
  import AddrDisk

  // ----- what the operations do to recorded times -----

  /** Every entry of info' is one of info, with the same times; it may have left the tried table. */
  ghost predicate SameTimes(info: InfoMap, info': InfoMap) {
    forall id :: id in info' ==>
      && id in info && info'[id].nLastTry == info[id].nLastTry && info'[id].nLastSuccess == info[id].nLastSuccess
      && (info'[id].fInTried ==> info[id].fInTried)
  }

  lemma {:induction false} TimesKept(info: InfoMap, info': InfoMap)
    requires TimesOk(info) && SameTimes(info, info')
    ensures TimesOk(info')
  {
  }

  lemma {:induction false} TimesOfEntry(info: InfoMap, id: int, e: AddrInfo)
    requires TimesOk(info) && (e.fInTried ==> e.nLastSuccess != 0) && e.nLastTry >= 0 && e.nLastSuccess >= 0
    ensures TimesOk(info[id := e])
  {
  }

  lemma {:induction false} MovedTimes(info: InfoMap, info': InfoMap)
    requires SameButRandomPos(info, info')
    ensures SameTimes(info, info')
  {
    forall id | id in info' ensures id in info && info'[id] == info[id].(nRandomPos := info'[id].nRandomPos) {
    }
  }

  lemma {:induction false} ReleasedTimes(info: InfoMap, id: int, info': InfoMap)
    requires id in info && SameButRandomPos(Released(info, id), info')
    ensures SameTimes(info, info')
  {
    MovedTimes(Released(info, id), info');
  }

  lemma {:induction false} EnterTimes(info: InfoMap, addr: map<NetAddr, int>, vvNew: seq<set<int>>, nNew: int,
                                      info': InfoMap, addr': map<NetAddr, int>, vvNew': seq<set<int>>, nNew': int,
                                      id: int, b: int, nNow: int, draw: nat -> nat, victim: int)
    requires EnterStep(info, addr, vvNew, nNew, info', addr', vvNew', nNew', id, b, nNow, draw, victim) && TimesOk(info)
    ensures TimesOk(info')
  {
    if |vvNew[b]| >= NEW_BUCKET_SIZE {
      ReleasedTimes(info, victim, info');
      TimesKept(info, info');
    }
  }

  lemma {:induction false} UnknownTimes(o: Oracle, info: InfoMap, addrs: map<NetAddr, int>, rndLength: nat,
                                        vvNew: seq<set<int>>, nNew: int, nIdCount: int, addr: Address, source: NetAddr,
                                        nTimePenalty: int, nNow: int, draw: nat -> nat, info': InfoMap,
                                        addrs': map<NetAddr, int>, vvNew': seq<set<int>>, nNew': int, victim: int)
    requires TimesOk(info)
    requires AddUnknownStep(o, info, addrs, rndLength, vvNew, nNew, nIdCount, addr, source, nTimePenalty, nNow, draw,
                            info', addrs', vvNew', nNew', victim)
    ensures TimesOk(info')
  {
    hide EnterStep, TimesOk;
    var e := FreshEntry(addr, source, nTimePenalty, rndLength);
    TimesOfEntry(info, nIdCount, e);
    EnterTimes(info[nIdCount := e], addrs[addr.service.net := nIdCount], vvNew, nNew + 1,
               info', addrs', vvNew', nNew', nIdCount, o.NewBucket(addr.service, source), nNow, draw, victim);
  }

  lemma {:induction false} KnownTimes(o: Oracle, info: InfoMap, addrs: map<NetAddr, int>, vvNew: seq<set<int>>,
                                      nNew: int, id: int, addr: Address, source: NetAddr, nTimePenalty: int, nNow: int,
                                      draw: nat -> nat, info': InfoMap, addrs': map<NetAddr, int>,
                                        vvNew': seq<set<int>>, nNew': int,
                                      gained: bool, victim: int)
    requires TimesOk(info)
    requires AddKnownStep(o, info, addrs, vvNew, nNew, id, addr, source, nTimePenalty, nNow, draw, info', addrs',
                          vvNew', nNew', gained, victim)
    ensures TimesOk(info')
  {
    var refreshed := info[id := Refresh(info[id], addr, nTimePenalty, nNow)];
    TimesOfEntry(info, id, refreshed[id]);
    if gained {
      TimesOfEntry(refreshed, id, Counted(refreshed, id)[id]);
      hide TimesOk, EnterStep;
      EnterTimes(Counted(refreshed, id), addrs, vvNew, nNew, info', addrs', vvNew', nNew', id,
                 o.NewBucket(info[id].service, source), nNow, draw, victim);
    }
  }

  /** Promoting an entry that has succeeded keeps the times sane. */
  lemma {:induction false} TriedTimes(o: Oracle, info: InfoMap, vvTried: seq<seq<int>>, vvNew: seq<set<int>>,
                                      info': InfoMap, vvTried': seq<seq<int>>, vvNew': seq<set<int>>,
                                      nId: int, nOrigin: int, draw: nat -> nat, evicted: int)
    requires nId in info && |vvTried| == TRIED_BUCKET_COUNT && |vvNew| == NEW_BUCKET_COUNT && 0 <= nOrigin < |vvNew|
    requires TriedStep(o, info, vvTried, vvNew, info', vvTried', vvNew', nId, nOrigin, draw, evicted)
    requires TimesOk(info) && info[nId].nLastSuccess != 0
    ensures TimesOk(info')
  {
    var promoted := Promoted(info, nId);
    TimesOfEntry(info, nId, promoted[nId]);
    if info' != promoted {
      TimesOfEntry(promoted, evicted, Demoted(promoted, evicted)[evicted]);
    }
  }

  /** What is read back has the times that were written, and no last try. */
  lemma {:induction false} RestartTimes(info: InfoMap, vvTried: seq<seq<int>>, vvNew: seq<set<int>>,
                                        info': InfoMap, vvTried': seq<seq<int>>, vvNew': seq<set<int>>,
                                          ren: map<int, int>)
    requires AddrDisk.SameUpToIds(info, vvTried, vvNew, info', vvTried', vvNew', ren) && TimesOk(info)
    ensures TimesOk(info')
  {
    hide AddrDisk.SameNewBuckets, AddrDisk.SameTriedBuckets, AddrDisk.OneToOne;
    forall z | z in info'
      ensures (info'[z].fInTried ==> info'[z].nLastSuccess != 0) && info'[z].nLastTry >= 0 && info'[z].nLastSuccess >= 0
    {
      var x :| x in ren && ren[x] == z;
      assert AddrDisk.SameEntry(info, info', x, z);
      assert info'[z].Persisted().nLastSuccess == info[x].Persisted().nLastSuccess;
    }
  }

  // ----- runs -----

  datatype Op =
    | Add(addr: Address, source: NetAddr, nTimePenalty: int, nNow: int, draw: nat -> nat)
    | Good(service: Service, nTime: int, nRnd: nat, draw: nat -> nat)
    | Attempt(service: Service, nTime: int)
    | Connected(service: Service, nTime: int)
    | GetAddr(draw: nat -> nat)
    | Clear
    | Restart

  /** The time that the operation records is sane. */
  predicate SaneTime(op: Op) {
    (op.Good? ==> op.nTime > 0) && (op.Attempt? ==> op.nTime >= 0)
  }

  method ApplyAdd(am: CAddrMan, addr: Address, source: NetAddr, nTimePenalty: int, nNow: int, draw: nat -> nat)
    requires am.Valid()
    modifies am
    ensures am.Valid() && (old(TimesOk(am.mapInfo)) ==> TimesOk(am.mapInfo))
  {
    hide TablesOk, TimesOk, AddUnknownStep, AddKnownStep;
    ghost var info, addrs, n, vvNew, nNew, c := am.mapInfo, am.mapAddr, |am.vRandom|, am.vvNew, am.nNew, am.nIdCount;
    ghost var known := am.Find(addr.service.net);
    ghost var gained, victim;
    var fNew;
    fNew, gained, victim := am.Add_(addr, source, nTimePenalty, nNow, draw);
    if TimesOk(info) && am.o.isRoutable(addr.service.net) {
      if fNew {
        UnknownTimes(am.o, info, addrs, n, vvNew, nNew, c, addr, source, nTimePenalty, nNow, draw, am.mapInfo,
                     am.mapAddr, am.vvNew, am.nNew, victim);
      } else {
        KnownTimes(am.o, info, addrs, vvNew, nNew, known, addr, source, nTimePenalty, nNow, draw,
                   am.mapInfo, am.mapAddr, am.vvNew, am.nNew, gained, victim);
      }
    }
  }

  method ApplyGood(am: CAddrMan, service: Service, nTime: int, nRnd: nat, draw: nat -> nat)
    requires am.Valid()
    modifies am
    ensures am.Valid() && (old(TimesOk(am.mapInfo)) && nTime > 0 ==> TimesOk(am.mapInfo))
  {
    assert |am.vvTried| == TRIED_BUCKET_COUNT && |am.vvNew| == NEW_BUCKET_COUNT;
    hide TablesOk, TimesOk, TriedStep;
    ghost var info, vvTried, vvNew, nId := am.mapInfo, am.vvTried, am.vvNew, am.FindService(service);
    ghost var nOrigin, evicted := am.Good_(service, nTime, nRnd, draw);
    if TimesOk(info) && nTime > 0 && nId != -1 {
      ghost var e := info[nId].Succeeded(nTime);
      TimesOfEntry(info, nId, e);
      if !info[nId].fInTried {
        TriedTimes(am.o, info[nId := e], vvTried, vvNew, am.mapInfo, am.vvTried, am.vvNew, nId, nOrigin, draw,
                   evicted);
      }
    }
  }

  method ApplyAttempt(am: CAddrMan, service: Service, nTime: int)
    requires am.Valid()
    modifies am
    ensures am.Valid() && (old(TimesOk(am.mapInfo)) && nTime >= 0 ==> TimesOk(am.mapInfo))
  {
    hide TablesOk;
    am.Attempt_(service, nTime);
  }

  method ApplyConnected(am: CAddrMan, service: Service, nTime: int)
    requires am.Valid()
    modifies am
    ensures am.Valid() && (old(TimesOk(am.mapInfo)) ==> TimesOk(am.mapInfo))
  {
    hide TablesOk;
    am.Connected_(service, nTime);
  }

  method ApplyGetAddr(am: CAddrMan, draw: nat -> nat)
    requires am.Valid()
    modifies am
    ensures am.Valid() && (old(TimesOk(am.mapInfo)) ==> TimesOk(am.mapInfo))
  {
    ghost var info := am.mapInfo;
    hide TablesOk, TimesOk, SameTimes;
    var vAddr := am.GetAddr_([], draw);
    MovedTimes(info, am.mapInfo);
    if TimesOk(info) {
      TimesKept(info, am.mapInfo);
    }
  }

  method ApplyRestart(am: CAddrMan) returns (am': CAddrMan)
    requires am.Valid()
    ensures fresh(am') && am'.o == am.o && am'.Valid() && (TimesOk(am.mapInfo) ==> TimesOk(am'.mapInfo))
  {
    hide TablesOk, TimesOk, AddrDisk.SameUpToIds;
    ghost var ren;
    var nLost;
    am', nLost, ren := SaveAndLoad(am);
    if TimesOk(am.mapInfo) {
      RestartTimes(am.mapInfo, am.vvTried, am.vvNew, am'.mapInfo, am'.vvTried, am'.vvNew, ren);
    }
  }

  /** One operation.  A restart writes the manager and goes on with what is read back. */
  method Apply(am: CAddrMan, op: Op) returns (am': CAddrMan)
    requires am.Valid()
    modifies am
    ensures am' == am || fresh(am')
    ensures am'.o == am.o && am'.Valid() && (old(TimesOk(am.mapInfo)) && SaneTime(op) ==> TimesOk(am'.mapInfo))
  {
    am' := am;
    match op {
      case Add(addr, source, nTimePenalty, nNow, draw) => ApplyAdd(am, addr, source, nTimePenalty, nNow, draw);
      case Good(service, nTime, nRnd, draw) => ApplyGood(am, service, nTime, nRnd, draw);
      case Attempt(service, nTime) => ApplyAttempt(am, service, nTime);
      case Connected(service, nTime) => ApplyConnected(am, service, nTime);
      case GetAddr(draw) => ApplyGetAddr(am, draw);
      case Clear => am.Clear();
      case Restart => am' := ApplyRestart(am);
    }
  }

  /** Every run of operations, from an empty manager, ends with all tables consistent: the
      asserts inside the operations never fire on the way.  When all recorded times are sane on the
      way in, the self-check passes in the end. */
  method Run(o: Oracle, ops: seq<Op>) returns (am: CAddrMan, check: int)
    ensures fresh(am) && am.o == o && am.Valid()
    ensures check == 0 <==> TimesOk(am.mapInfo)
    ensures (forall i :: 0 <= i < |ops| ==> SaneTime(ops[i])) ==> check == 0
  {
    am := new CAddrMan(o);
    hide TablesOk, TimesOk, SaneTime;
    EmptyTimes();
    for i := 0 to |ops|
      invariant fresh(am) && am.o == o && am.Valid()
      invariant (forall j :: 0 <= j < i ==> SaneTime(ops[j])) ==> TimesOk(am.mapInfo)
    {
      am := Apply(am, ops[i]);
    }
    check := am.Check_();
  }

  lemma EmptyTimes()
    ensures TimesOk(map[])
  {
  }
}
