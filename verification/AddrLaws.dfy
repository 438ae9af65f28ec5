/** What the steps of the address manager mean for single entries, in numbers. */
module AddrLaws {
  import opened AddrCheck
  import opened AddrDisk
  import opened AddrManager
  import opened AddrTables
  import opened Arithmetic

  // ----- which entries may be deleted -----

  /** An entry is safe from deletion exactly if it was tried within the last minute, or was last seen not more
      than ten minutes ahead and not more than thirty days ago, and has worked once or been tried at most
      twice, and has worked within a week or been tried at most nine times. */
  lemma SafeExactly(e: AddrInfo, nNow: int)
    ensures !e.IsTerrible(nNow) <==>
              || (e.nLastTry != 0 && nNow - e.nLastTry <= 60)
              || (1 <= e.nTime <= nNow + 600 && nNow - e.nTime <= 2_592_000 &&
                  (e.nLastSuccess != 0 || e.nAttempts <= 2) && (nNow - e.nLastSuccess <= 604_800 || e.nAttempts <= 9))
  {
  }

  /** An entry that has worked at a sane time is safe for thirty days. */
  lemma GoodIsSafe(e: AddrInfo, nTime: int, nNow: int)
    requires 0 < nTime < 0x1_0000_0000 && nTime <= nNow
    ensures !e.Succeeded(nTime).IsTerrible(nNow) <==> nNow - nTime <= 2_592_000
  {
  }

  // ----- what a full bucket loses -----

  /** A full "new" bucket that an entry enters loses the deletable entry with the lowest id; and if
      it has none, one that was seen longest ago among those at four drawn positions, with the
      lowest id on a tie. */
  lemma FullBucketLoses(info: InfoMap, addr: map<NetAddr, int>, vvNew: seq<set<int>>, nNew: int, info': InfoMap,
                        addr': map<NetAddr, int>, vvNew': seq<set<int>>, nNew': int, id: int, b: int, nNow: int,
                        draw: nat -> nat, victim: int)
    requires EnterStep(info, addr, vvNew, nNew, info', addr', vvNew', nNew', id, b, nNow, draw, victim)
    requires |vvNew[b]| == 64 && forall x :: x in vvNew[b] ==> x in info
    ensures victim in vvNew[b] && |vvNew'| == |vvNew| && vvNew'[b] == vvNew[b] - {victim} + {id}
    ensures (exists x :: x in vvNew[b] && info[x].IsTerrible(nNow)) ==>
            info[victim].IsTerrible(nNow) && forall x :: x in vvNew[b] && x < victim ==> !info[x].IsTerrible(nNow)
    ensures (forall x :: x in vvNew[b] ==> !info[x].IsTerrible(nNow)) ==>
            var order := Ascending(vvNew[b]);
            && (exists k: nat :: k < 4 && order[draw(k) % 64] == victim)
            && forall k: nat :: k < 4 ==>
                 var x := order[draw(k) % 64];
                 x in info && (info[victim].nTime < info[x].nTime ||
                               (info[victim].nTime == info[x].nTime && victim <= x))
  {
    hide *;
    FullParts(info, addr, vvNew, nNew, info', addr', vvNew', nNew', id, b, nNow, draw, victim);
    if IsFirstTerrible(info, Ascending(vvNew[b]), nNow, victim) {
      LowestIsFirst(info, vvNew[b], nNow, victim);
    } else {
      NoneIsTerrible(info, vvNew[b], nNow);
      OldestIsDrawn(info, vvNew[b], draw, victim);
    }
  }

  lemma FullParts(info: InfoMap, addr: map<NetAddr, int>, vvNew: seq<set<int>>, nNew: int, info': InfoMap,
                  addr': map<NetAddr, int>, vvNew': seq<set<int>>, nNew': int, id: int, b: int, nNow: int,
                  draw: nat -> nat, victim: int)
    requires EnterStep(info, addr, vvNew, nNew, info', addr', vvNew', nNew', id, b, nNow, draw, victim)
    requires |vvNew[b]| == 64
    ensures 0 <= b < |vvNew| && |vvNew'| == |vvNew| && vvNew'[b] == vvNew[b] - {victim} + {id}
    ensures IsFirstTerrible(info, Ascending(vvNew[b]), nNow, victim) ||
            (NoneTerrible(info, Ascending(vvNew[b]), nNow) &&
             IsOldestOf(info, Ascending(vvNew[b]), FourDrawn(draw, 64), victim))
  {
    hide IsFirstTerrible, NoneTerrible, IsOldestOf, FourDrawn, Ascending, ReleaseStep;
  }

  lemma LowestIsFirst(info: InfoMap, vNew: set<int>, nNow: int, victim: int)
    requires IsFirstTerrible(info, Ascending(vNew), nNow, victim) && forall x :: x in vNew ==> x in info
    ensures victim in vNew && info[victim].IsTerrible(nNow)
    ensures forall x :: x in vNew && x < victim ==> !info[x].IsTerrible(nNow)
  {
    hide Ascending, AddrInfo.IsTerrible;
    var order := Ascending(vNew);
    var i :| 0 <= i < |order| && order[i] == victim && info[victim].IsTerrible(nNow) &&
      NoneTerrible(info, order[..i], nNow);
    assert order[i] in order;
    forall x | x in vNew && x < victim ensures !info[x].IsTerrible(nNow) {
      var j := RankOf(vNew, x);
      assert j < i;
      assert order[..i][j] == x;
    }
  }

  lemma RankOf(s: set<int>, x: int) returns (j: nat)
    requires x in s
    ensures j < |Ascending(s)| && Ascending(s)[j] == x
  {
    hide Ascending;
    assert x in Ascending(s);
    j :| j < |Ascending(s)| && Ascending(s)[j] == x;
  }

  lemma NoneIsTerrible(info: InfoMap, vNew: set<int>, nNow: int)
    requires NoneTerrible(info, Ascending(vNew), nNow)
    ensures forall x :: x in vNew ==> x in info && !info[x].IsTerrible(nNow)
  {
    var order := Ascending(vNew);
    forall x | x in vNew ensures x in info && !info[x].IsTerrible(nNow) {
      assert x in order;
      var j :| 0 <= j < |order| && order[j] == x;
    }
  }

  lemma OldestIsDrawn(info: InfoMap, vNew: set<int>, draw: nat -> nat, victim: int)
    requires |vNew| == 64 && IsOldestOf(info, Ascending(vNew), FourDrawn(draw, 64), victim)
    ensures victim in vNew
    ensures var order := Ascending(vNew);
            && (exists k: nat :: k < 4 && order[draw(k) % 64] == victim)
            && forall k: nat :: k < 4 ==>
                 var x := order[draw(k) % 64];
                 x in info && victim in info &&
                   (info[victim].nTime < info[x].nTime || (info[victim].nTime == info[x].nTime && victim <= x))
  {
    hide Ascending, AddrInfo.IsTerrible, IsFirstOldest, Drawn, FourDrawn;
    var order, drawn := Ascending(vNew), FourDrawn(draw, 64);
    var i :| 0 <= i < |order| && i in drawn && order[i] == victim && IsFirstOldest(info, order, drawn, i);
    assert order[i] in order;
    FourAre(draw);
    OldestIs(info, order, drawn, i);
    var k: nat :| k < 4 && draw(k) % 64 == i;
    assert order[draw(k) % 64] == victim;
  }

  lemma FourAre(draw: nat -> nat)
    ensures forall k: nat :: k < 4 ==> draw(k) % 64 in FourDrawn(draw, 64)
    ensures forall i :: i in FourDrawn(draw, 64) ==> exists k: nat :: k < 4 && draw(k) % 64 == i
  {
    forall i | i in FourDrawn(draw, 64) ensures exists k: nat :: k < 4 && draw(k) % 64 == i {
      assert draw(0) % 64 == i || draw(1) % 64 == i || draw(2) % 64 == i || draw(3) % 64 == i;
    }
  }

  lemma OldestIs(info: InfoMap, vNew: seq<int>, drawn: set<int>, i: int)
    requires 0 <= i < |vNew| && i in drawn && IsFirstOldest(info, vNew, drawn, i)
    ensures vNew[i] in info
    ensures forall j :: j in drawn ==>
            0 <= j < |vNew| && vNew[j] in info && info[vNew[i]].nTime <= info[vNew[j]].nTime &&
              (info[vNew[i]].nTime == info[vNew[j]].nTime ==> i <= j)
  {
  }

  // ----- what hearing of an address does -----

  /** An unknown address has an entry of its own, with what was heard and the time less the penalty,
      in the bucket of its source and in no other. */
  lemma UnknownIsNew(o: Oracle, info: InfoMap, addrs: map<NetAddr, int>, rndLength: nat, vvNew: seq<set<int>>,
                     nNew: int, nIdCount: int, addr: Address, source: NetAddr, nTimePenalty: int, nNow: int,
                     draw: nat -> nat, info': InfoMap, addrs': map<NetAddr, int>, vvNew': seq<set<int>>, nNew': int,
                     victim: int)
    requires AddUnknownStep(o, info, addrs, rndLength, vvNew, nNew, nIdCount, addr, source, nTimePenalty, nNow, draw,
                            info', addrs', vvNew', nNew', victim)
    requires nTimePenalty >= 0 && forall b :: 0 <= b < |vvNew| ==> nIdCount !in vvNew[b]
    ensures nIdCount in info'
    ensures var e := info'[nIdCount];
            && e.service == addr.service && e.nServices == addr.nServices && e.source == source
            && e.nTime == (if addr.nTime >= nTimePenalty then addr.nTime - nTimePenalty else 0)
            && e.nLastTry == 0 && e.nLastSuccess == 0 && e.nAttempts == 0 && e.nRefCount == 1 && !e.fInTried
    ensures |vvNew'| == |vvNew|
    ensures forall b :: 0 <= b < |vvNew'| ==> (nIdCount in vvNew'[b] <==> b == o.NewBucket(addr.service, source))
  {
    hide IsVictim, Oracle.NewBucket;
    if |vvNew[o.NewBucket(addr.service, source)]| >= NEW_BUCKET_SIZE {
      assert SameButRandomPos(Released(info[nIdCount := FreshEntry(addr, source, nTimePenalty, rndLength)], victim),
                              info');
    }
  }

  /** A known entry is given the time heard, less the penalty, exactly when it has none, or when
      that is news of more than an hour (for an address heard of within a day) or of more than a
      day, beyond the penalty.  Services only accumulate. */
  lemma RefreshExactly(e: AddrInfo, addr: Address, nTimePenalty: int, nNow: int)
    requires nTimePenalty >= 0
    ensures var e' := Refresh(e, addr, nTimePenalty, nNow);
            && e'.nServices == e.nServices | addr.nServices && e'.(nTime := e.nTime, nServices := e.nServices) == e
            && e'.nTime ==
                 if addr.nTime == 0 then e.nTime
                 else if e.nTime != 0 && addr.nTime - e.nTime <= nTimePenalty +
                   (if addr.nTime > nNow - 86400 then 3600 else 86400)
                 then e.nTime
                 else if addr.nTime >= nTimePenalty then addr.nTime - nTimePenalty else 0
  {
  }

  /** A known entry gains a reference exactly when it is untried, has fewer than four, has been
      heard of later than it was seen, is not in the bucket of the source yet, and one draw among 2,
      4 or 8 is zero. */
  lemma GainsExactly(o: Oracle, info: InfoMap, addrs: map<NetAddr, int>, vvNew: seq<set<int>>, nNew: int, id: int,
                     addr: Address, source: NetAddr, nTimePenalty: int, nNow: int, draw: nat -> nat, info': InfoMap,
                     addrs': map<NetAddr, int>, vvNew': seq<set<int>>, nNew': int, gained: bool, victim: int)
    requires AddKnownStep(o, info, addrs, vvNew, nNew, id, addr, source, nTimePenalty, nNow, draw, info', addrs',
                          vvNew', nNew', gained, victim)
    requires !info[id].fInTried ==> 1 <= info[id].nRefCount <= 4
    ensures var seen, n, b := Refresh(info[id], addr, nTimePenalty, nNow).nTime, info[id].nRefCount,
                              o.NewBucket(info[id].service, source);
            gained <==>
              && !info[id].fInTried && addr.nTime != 0 && (seen == 0 || addr.nTime > seen) && id !in vvNew[b]
              && ((n == 1 && draw(4) % 2 == 0) || (n == 2 && draw(4) % 4 == 0) || (n == 3 && draw(4) % 8 == 0))
    ensures gained ==>
            id in vvNew'[o.NewBucket(info[id].service, source)] && id in info' &&
              info'[id].nRefCount == info[id].nRefCount + 1
    ensures !gained ==> vvNew' == vvNew && id in info' && info'[id].nRefCount == info[id].nRefCount
  {
    assert Pow2(0) == 1 && Pow2(1) == 2 && Pow2(2) == 4 && Pow2(3) == 8;
    var e := Refresh(info[id], addr, nTimePenalty, nNow);
    assert e.nRefCount == info[id].nRefCount && e.fInTried == info[id].fInTried;
    hide IsVictim, Oracle.NewBucket, Refresh;
    var refreshed := info[id := e];
    if gained {
      assert Counted(refreshed, id)[id].nRefCount == info[id].nRefCount + 1;
      if |vvNew[o.NewBucket(info[id].service, source)]| >= NEW_BUCKET_SIZE {
        assert SameButRandomPos(Released(Counted(refreshed, id), victim), info');
      }
    }
  }

  // ----- promotion -----

  /** An entry evicted from a full tried bucket is the one at the reported position, and goes back
      to the "new" bucket of its own address and source whenever that has room, and else to the
      bucket the promoted entry was found in; the promoted entry has left all of these and has the
      place in the tried bucket. */
  lemma EvictedGoesHome(o: Oracle, info: InfoMap, vvTried: seq<seq<int>>, vvNew: seq<set<int>>, info': InfoMap,
                        vvTried': seq<seq<int>>, vvNew': seq<set<int>>, nId: int, nOrigin: int, draw: nat -> nat,
                        evicted: int)
    requires nId in info && |vvTried| == TRIED_BUCKET_COUNT && |vvNew| == NEW_BUCKET_COUNT && 0 <= nOrigin < |vvNew|
    requires TriedStep(o, info, vvTried, vvNew, info', vvTried', vvNew', nId, nOrigin, draw, evicted)
    requires |vvTried[o.TriedBucket(info[nId].service)]| == 64
    ensures var bucket := vvTried[o.TriedBucket(info[nId].service)];
            var t, pos := Inspected(bucket, draw, 4), Reported(info, bucket, draw);
            && evicted == t[pos] && evicted in info && nId in info' && evicted in info' && evicted != nId
            && vvTried' == vvTried[o.TriedBucket(info[nId].service) := t[pos := nId]]
            && info'[nId].fInTried && info'[nId].nRefCount == 0 && !info'[evicted].fInTried &&
               info'[evicted].nRefCount == 1
    ensures |vvNew'| == |vvNew|
    ensures var home := o.NewBucket(info[evicted].service, info[evicted].source);
            var goes := if |vvNew[home] - {nId}| < 64 then home else nOrigin;
            && evicted in vvNew'[goes]
            && forall b :: 0 <= b < |vvNew| ==> vvNew'[b] == vvNew[b] - {nId} + if b == goes then {evicted} else {}
  {
    hide Inspected, Reported, Oracle.NewBucket, Oracle.TriedBucket;
  }

  /** Tried addresses of one network spread over at most four tried buckets, and new ones heard of
      from one source over at most 32 "new" buckets. */
  lemma SpreadIsLimited(o: Oracle, service: Service, source: NetAddr)
    ensures exists i :: 0 <= i < 4 && o.TriedBucket(service) == o.hash2Tried(service.net, i) % 64
    ensures exists i :: 0 <= i < 32 && o.NewBucket(service, source) == o.hash2New(source, i) % 256
  {
    var i, j := o.hash1Tried(service) % 4, o.hash1New(service.net, source) % 32;
    assert o.TriedBucket(service) == o.hash2Tried(service.net, i) % 64;
    assert o.NewBucket(service, source) == o.hash2New(source, j) % 256;
  }

  /** 23 of 100 entries are handed out, rounded down, and 2500 at most. */
  lemma HandsOut(n: nat)
    ensures var k := NodesToReturn(n);
            k <= 2500 && 100 * k <= 23 * n && (23 * n < 100 * (k + 1) || k == 2500)
  {
  }

  // ----- what a restart keeps, and what the self-check sees -----

  /** After a restart every entry has its address, services, time, source, last success and
      attempts, its table, its references and its buckets; the time of the last try is forgotten. */
  lemma RestartKeeps(info: InfoMap, vvTried: seq<seq<int>>, vvNew: seq<set<int>>, info': InfoMap,
                     vvTried': seq<seq<int>>, vvNew': seq<set<int>>, ren: map<int, int>)
    requires SameUpToIds(info, vvTried, vvNew, info', vvTried', vvNew', ren)
    ensures forall x :: x in info ==>
            && x in ren && ren[x] in info'
            && var e, e' := info[x], info'[ren[x]];
               && e'.service == e.service && e'.nServices == e.nServices && e'.nTime == e.nTime && e'.source == e.source
               && e'.nLastSuccess == e.nLastSuccess && e'.nAttempts == e.nAttempts && e'.nLastTry == 0
               && e'.fInTried == e.fInTried && e'.nRefCount == e.nRefCount
    ensures forall z :: z in info' ==> exists x :: x in info && x in ren && ren[x] == z
    ensures forall x, y :: x in info && y in info && x in ren && y in ren && x != y ==> ren[x] != ren[y]
    ensures |vvNew'| == |vvNew| && |vvTried'| == |vvTried|
    ensures forall x, b :: x in info && x in ren && 0 <= b < |vvNew| ==> (ren[x] in vvNew'[b] <==> x in vvNew[b])
    ensures forall x, b :: x in info && x in ren && 0 <= b < |vvTried| ==> (ren[x] in vvTried'[b] <==> x in vvTried[b])
  {
    forall x | x in info
      ensures x in ren && SameEntry(info, info', x, ren[x]) && info'[ren[x]].Persisted() == info[x].Persisted()
    {
    }
  }

  /** What the self-check passes, entry by entry and bucket by bucket. */
  lemma ConsistentExactly(info: InfoMap, addr: map<NetAddr, int>, rnd: seq<int>, vvTried: seq<seq<int>>,
                          vvNew: seq<set<int>>, nNew: int, nTried: int)
    ensures Consistent(info, addr, rnd, vvTried, vvNew, nNew, nTried) <==>
              && |rnd| == nTried + nNew
              && nTried == |set id | id in info && info[id].fInTried|
              && nNew == |set id | id in info && !info[id].fInTried|
              && (forall id :: id in info ==>
                  && 0 <= info[id].nRandomPos < |rnd| && rnd[info[id].nRandomPos] == id
                  && (if info[id].service.net in addr then addr[info[id].service.net] == id else id == 0)
                  && info[id].nLastTry >= 0 && info[id].nLastSuccess >= 0
                  && if info[id].fInTried then info[id].nLastSuccess > 0 && info[id].nRefCount == 0
                     else 1 <= info[id].nRefCount <= 4)
              && (forall id :: multiset(Flat(vvTried))[id] == if id in info && info[id].fInTried then 1 else 0)
              && (forall id ::
                    |Holders(vvNew, id)| == if id in info && !info[id].fInTried then info[id].nRefCount else 0)
  {
    hide *;
    ConsistentParts(info, addr, rnd, vvTried, vvNew, nNew, nTried);
    forall id | id in info
      ensures EntryCode(info[id], id, addr, rnd) == 0 <==>
                && 0 <= info[id].nRandomPos < |rnd| && rnd[info[id].nRandomPos] == id
                && (if info[id].service.net in addr then addr[info[id].service.net] == id else id == 0)
                && info[id].nLastTry >= 0 && info[id].nLastSuccess >= 0
                && if info[id].fInTried then info[id].nLastSuccess > 0 && info[id].nRefCount == 0
                   else 1 <= info[id].nRefCount <= 4
    {
      EntryExactly(info[id], id, addr, rnd);
    }
    FlatExactly(info, vvTried);
  }

  lemma ConsistentParts(info: InfoMap, addr: map<NetAddr, int>, rnd: seq<int>, vvTried: seq<seq<int>>,
                        vvNew: seq<set<int>>, nNew: int, nTried: int)
    ensures Consistent(info, addr, rnd, vvTried, vvNew, nNew, nTried) <==>
              && |rnd| == nTried + nNew
              && nTried == |set id | id in info && info[id].fInTried|
              && nNew == |set id | id in info && !info[id].fInTried|
              && (forall id :: id in info ==> EntryCode(info[id], id, addr, rnd) == 0)
              && multiset(Flat(vvTried)) == multiset(Tried(info))
              && (forall id ::
                    |Holders(vvNew, id)| == if id in info && !info[id].fInTried then info[id].nRefCount else 0)
  {
    hide Flat, Holders, EntryCode;
  }

  lemma EntryExactly(e: AddrInfo, id: int, addr: map<NetAddr, int>, rnd: seq<int>)
    ensures EntryCode(e, id, addr, rnd) == 0 <==>
              && 0 <= e.nRandomPos < |rnd| && rnd[e.nRandomPos] == id
              && (if e.service.net in addr then addr[e.service.net] == id else id == 0)
              && e.nLastTry >= 0 && e.nLastSuccess >= 0
              && if e.fInTried then e.nLastSuccess > 0 && e.nRefCount == 0 else 1 <= e.nRefCount <= 4
  {
  }

  lemma FlatExactly(info: InfoMap, vvTried: seq<seq<int>>)
    ensures multiset(Flat(vvTried)) == multiset(Tried(info)) <==>
              forall id :: multiset(Flat(vvTried))[id] == if id in info && info[id].fInTried then 1 else 0
  {
    hide Flat;
    forall id ensures multiset(Tried(info))[id] == if id in info && info[id].fInTried then 1 else 0 {
    }
    if forall id :: multiset(Flat(vvTried))[id] == if id in info && info[id].fInTried then 1 else 0 {
      assert multiset(Flat(vvTried)) == multiset(Tried(info));
    }
  }

  /** The first complaint about an entry, by its number. */
  lemma CodesAre(e: AddrInfo, id: int, addr: map<NetAddr, int>, rnd: seq<int>)
    ensures EntryCode(e, id, addr, rnd) == -1 <==> e.fInTried && e.nLastSuccess == 0
    ensures EntryCode(e, id, addr, rnd) == -2 <==> e.fInTried && e.nLastSuccess != 0 && e.nRefCount != 0
    ensures EntryCode(e, id, addr, rnd) == -3 <==> !e.fInTried && !(0 <= e.nRefCount <= 4)
    ensures EntryCode(e, id, addr, rnd) == -4 <==> !e.fInTried && e.nRefCount == 0
    ensures EntryCode(e, id, addr, rnd) in {-5, -14, -6, -8, 0} ==>
              if e.fInTried then e.nLastSuccess != 0 && e.nRefCount == 0 else 1 <= e.nRefCount <= 4
    ensures EntryCode(e, id, addr, rnd) in {-14, -6, -8} ==>
              if e.service.net in addr then addr[e.service.net] == id else id == 0
    ensures EntryCode(e, id, addr, rnd) in {-6, -8} ==> 0 <= e.nRandomPos < |rnd| && rnd[e.nRandomPos] == id
    ensures EntryCode(e, id, addr, rnd) == -6 ==> e.nLastTry < 0
    ensures EntryCode(e, id, addr, rnd) == -8 ==> e.nLastTry >= 0 && e.nLastSuccess < 0
  {
  }

  // ----- what the steps leave of an entry -----

  /** A connection that worked sets the three times to the same moment and forgets the failures. */
  lemma SuccessIs(e: AddrInfo, nTime: int)
    ensures var e' := e.Succeeded(nTime);
            && e'.nLastSuccess == e'.nLastTry == nTime && e'.nTime as int == nTime % 4294967296 && e'.nAttempts == 0
            && e'.service == e.service && e'.nServices == e.nServices && e'.source == e.source
            && e'.nRefCount == e.nRefCount && e'.fInTried == e.fInTried && e'.nRandomPos == e.nRandomPos
  {
  }

  /** The entries agree in all that is known of the address. */
  ghost predicate SameKnowledge(e: AddrInfo, e': AddrInfo) {
    && e'.service == e.service && e'.nServices == e.nServices && e'.source == e.source && e'.nTime == e.nTime
    && e'.nLastTry == e.nLastTry && e'.nLastSuccess == e.nLastSuccess && e'.nAttempts == e.nAttempts
  }

  /** Moving between the tables and losing or gaining references changes nothing that is known of
      any address. */
  lemma MovesKeepKnowledge(info: InfoMap, id: int, x: int)
    requires id in info
    ensures x in Promoted(info, id) <==> x in info
    ensures x in Demoted(info, id) <==> x in info
    ensures x in Released(info, id) <==> x in info && (x != id || info[x].nRefCount != 1)
    ensures x in info ==> SameKnowledge(info[x], Promoted(info, id)[x]) && SameKnowledge(info[x], Demoted(info, id)[x])
    ensures x in Released(info, id) ==> SameKnowledge(info[x], Released(info, id)[x])
    ensures x in info && x != id ==> Promoted(info, id)[x] == Demoted(info, id)[x] == Released(info, id)[x] == info[x]
    ensures Promoted(info, id)[id].fInTried && Promoted(info, id)[id].nRefCount == 0
    ensures !Demoted(info, id)[id].fInTried && Demoted(info, id)[id].nRefCount == 1
    ensures id in Released(info, id) ==>
              Released(info, id)[id].nRefCount == info[id].nRefCount - 1 &&
              Released(info, id)[id].fInTried == info[id].fInTried
  {
  }

  /** Entries that differ in their places in the random order only. */
  lemma PlacesOnly(info: InfoMap, info': InfoMap, x: int)
    requires SameButRandomPos(info, info')
    ensures x in info' <==> x in info
    ensures x in info ==> SameKnowledge(info[x], info'[x])
    ensures x in info ==> info'[x].nRefCount == info[x].nRefCount && info'[x].fInTried == info[x].fInTried
  {
  }

  // ----- which position of a full bucket is reported -----

  /** The inspection has a round for each of the first four slots, and reports the position that was
      drawn for the first one of these that then holds an entry whose last success is longest ago. */
  lemma ReportedIs(info: InfoMap, bucket: seq<int>, draw: nat -> nat) returns (slot: nat)
    requires bucket != [] && Distinct(bucket) && forall id :: id in bucket ==> id in info
    ensures Rounds(bucket) == if |bucket| <= 4 then |bucket| else 4
    ensures slot < Rounds(bucket) && Reported(info, bucket, draw) == slot + draw(slot) % (|bucket| - slot)
    ensures var t := Inspected(bucket, draw, Rounds(bucket));
            forall j :: 0 <= j < Rounds(bucket) ==>
              && t[slot] in info && t[j] in info && info[t[slot]].nLastSuccess <= info[t[j]].nLastSuccess
              && (j < slot ==> info[t[slot]].nLastSuccess < info[t[j]].nLastSuccess)
  {
    hide *;
    RoundsAre(bucket);
    var t := Inspected(bucket, draw, Rounds(bucket));
    InspectedIsShuffled(bucket, draw, Rounds(bucket));
    slot := LeastSlot(info, t, Rounds(bucket));
    LeastIsFirst(info, t, Rounds(bucket));
    forall j | 0 <= j < Rounds(bucket) ensures t[j] in info && LastSuccess(info, t[j]) == info[t[j]].nLastSuccess {
      ShuffledMember(bucket, t, j, -1);
      SuccessOf(info, t[j]);
    }
    ReportedSlot(info, bucket, draw);
  }

  lemma RoundsAre(bucket: seq<int>)
    ensures Rounds(bucket) == (if |bucket| <= 4 then |bucket| else 4) && (bucket != [] ==> Rounds(bucket) > 0)
  {
  }

  lemma SuccessOf(info: InfoMap, id: int)
    requires id in info
    ensures LastSuccess(info, id) == info[id].nLastSuccess
  {
  }

  lemma ReportedSlot(info: InfoMap, bucket: seq<int>, draw: nat -> nat)
    requires bucket != []
    ensures var slot := LeastSlot(info, Inspected(bucket, draw, Rounds(bucket)), Rounds(bucket));
            Reported(info, bucket, draw) == slot + draw(slot) % (|bucket| - slot)
  {
    hide LeastSlot, Inspected, Rounds;
  }

  lemma {:induction false} LeastIsFirst(info: InfoMap, t: seq<int>, i: nat)
    requires 0 < i <= |t|
    ensures var slot := LeastSlot(info, t, i);
            forall j :: 0 <= j < i ==>
              && LastSuccess(info, t[slot]) <= LastSuccess(info, t[j])
              && (j < slot ==> LastSuccess(info, t[slot]) < LastSuccess(info, t[j]))
    decreases i
  {
    if i > 1 {
      LeastIsFirst(info, t, i - 1);
      hide LastSuccess;
    }
  }
}
