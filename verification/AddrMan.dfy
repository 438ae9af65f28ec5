/** The stochastic address manager: the class whose methods keep the tables of
    AddrTables.dfy consistent.  The random generator and the clock are outside the
    model: draws and the current time are parameters. */
module AddrManager {
  import AddrCheck
  import AddrDisk
  import AddrRead
  import opened AddrTables
  import opened Arithmetic

  /** The k-th draw of an operation, among n values. */
  function Drawn(draw: nat -> nat, k: nat, n: nat): (r: nat)
    requires n > 0
    ensures r < n
  {
    draw(k) % n
  }

  /** The positions that four draws make, among n. */
  function FourDrawn(draw: nat -> nat, n: nat): set<int>
    requires n > 0
  {
    {Drawn(draw, 0, n), Drawn(draw, 1, n), Drawn(draw, 2, n), Drawn(draw, 3, n)}
  }

  function Max(a: int, b: int): int {
    if a < b then b else a
  }

  /** How many addresses GetAddr_ hands out when it knows n of them. */
  function NodesToReturn(n: nat): nat {
    var nodes := GETADDR_MAX_PCT * n / 100;
    if nodes > GETADDR_MAX then GETADDR_MAX else nodes
  }

  /** What Add_ does to the last-seen time of an entry it already has. */
  function RefreshedTime(nTime: uint32, addrTime: uint32, nTimePenalty: int, nNow: int): uint32 {
    var nUpdateInterval := if nNow - addrTime < 24 * 60 * 60 then 60 * 60 else 24 * 60 * 60;
    if addrTime != 0 && (nTime == 0 || nTime < addrTime - nUpdateInterval - nTimePenalty)
    then ToUint32(Max(0, addrTime - nTimePenalty)) else nTime
  }

  ghost predicate NoneTerrible(info: InfoMap, vNew: seq<int>, nNow: int) {
    forall i :: 0 <= i < |vNew| ==> vNew[i] in info && !info[vNew[i]].IsTerrible(nNow)
  }

  /** id is the first entry of the bucket that is bad enough to delete. */
  ghost predicate IsFirstTerrible(info: InfoMap, vNew: seq<int>, nNow: int, id: int) {
    id in info && exists i ::
      0 <= i < |vNew| && vNew[i] == id && info[id].IsTerrible(nNow) && NoneTerrible(info, vNew[..i], nNow)
  }

  /** id has been seen longest ago among the entries of the bucket at the drawn positions, and is
      the first one of these. */
  ghost predicate IsOldestOf(info: InfoMap, vNew: seq<int>, drawn: set<int>, id: int) {
    exists i :: 0 <= i < |vNew| && i in drawn && vNew[i] == id && IsFirstOldest(info, vNew, drawn, i)
  }

  ghost predicate IsFirstOldest(info: InfoMap, vNew: seq<int>, drawn: set<int>, i: int)
    requires 0 <= i < |vNew|
  {
    forall j :: j in drawn ==>
      && 0 <= j < |vNew| && vNew[j] in info && vNew[i] in info && info[vNew[i]].nTime <= info[vNew[j]].nTime
      && (j < i ==> info[vNew[i]].nTime < info[vNew[j]].nTime)
  }

  /** Which entry ShrinkNew removes. */
  ghost predicate ShrinkChoice(info: InfoMap, vNew: set<int>, nNow: int, draw: nat -> nat, res: int, victim: int) {
    if res == 0 then IsFirstTerrible(info, Ascending(vNew), nNow, victim)
    else
      && res == 1 && NoneTerrible(info, Ascending(vNew), nNow) && vNew != {}
      && IsOldestOf(info, Ascending(vNew), FourDrawn(draw, |vNew|), victim)
  }

  /** Whatever the result it reports. */
  ghost predicate IsVictim(info: InfoMap, vNew: set<int>, nNow: int, draw: nat -> nat, victim: int) {
    ShrinkChoice(info, vNew, nNow, draw, 0, victim) || ShrinkChoice(info, vNew, nNow, draw, 1, victim)
  }

  /** The first deletable entry of a bucket, or -1. */
  method FirstTerrible(info: InfoMap, vNew: seq<int>, nNow: int) returns (id: int)
    requires forall i :: 0 <= i < |vNew| ==> vNew[i] in info && vNew[i] != -1
    ensures id == -1 ==> NoneTerrible(info, vNew, nNow)
    ensures id != -1 ==> IsFirstTerrible(info, vNew, nNow, id)
  {
    for i := 0 to |vNew|
      invariant forall j :: 0 <= j < i ==> !info[vNew[j]].IsTerrible(nNow)
    {
      if info[vNew[i]].IsTerrible(nNow) {
        assert NoneTerrible(info, vNew[..i], nNow);
        return vNew[i];
      }
    }
    return -1;
  }

  /** The entry seen longest ago among those at four drawn positions. */
  method OldestOfFour(info: InfoMap, vNew: seq<int>, draw: nat -> nat) returns (nOldest: int)
    requires vNew != [] && forall i :: 0 <= i < |vNew| ==> vNew[i] in info && vNew[i] != -1
    ensures IsOldestOf(info, vNew, FourDrawn(draw, |vNew|), nOldest)
  {
    hide *;
    var n0, n1 := Drawn(draw, 0, |vNew|), Drawn(draw, 1, |vNew|);
    var n2, n3 := Drawn(draw, 2, |vNew|), Drawn(draw, 3, |vNew|);
    nOldest := -1;
    ghost var at, drawn := -1, {n0, n1, n2, n3};
    NoneSeen(info, vNew, drawn);
    for nI := 0 to |vNew|
      invariant OldestSoFar(info, vNew, drawn, nI, nOldest, at)
      invariant nOldest != -1 ==> nOldest in info
    {
      if nI == n0 || nI == n1 || nI == n2 || nI == n3 {
        SeenDrawn(info, vNew, drawn, nI, nOldest, at);
        if nOldest == -1 || info[vNew[nI]].nTime < info[nOldest].nTime {
          nOldest, at := vNew[nI], nI;
        }
      } else {
        SeenOther(info, vNew, drawn, nI, nOldest, at);
      }
    }
    FourPlaces(draw, |vNew|);
    AllSeen(info, vNew, drawn, n0, nOldest, at);
  }

  /** nOldest, at position `at`, is the first of those seen longest ago among the drawn ones before nI. */
  ghost predicate OldestSoFar(info: InfoMap, vNew: seq<int>, drawn: set<int>, nI: nat, nOldest: int, at: int) {
    && nI <= |vNew| && (nOldest == -1 ==> forall i :: 0 <= i < nI ==> i !in drawn)
    && (nOldest != -1 ==>
          && 0 <= at < nI && at in drawn && vNew[at] == nOldest && nOldest in info
          && forall i :: 0 <= i < nI && i in drawn ==>
               && vNew[i] in info && info[nOldest].nTime <= info[vNew[i]].nTime
               && (i < at ==> info[nOldest].nTime < info[vNew[i]].nTime))
  }

  lemma NoneSeen(info: InfoMap, vNew: seq<int>, drawn: set<int>)
    ensures OldestSoFar(info, vNew, drawn, 0, -1, -1)
  {
  }

  lemma SeenDrawn(info: InfoMap, vNew: seq<int>, drawn: set<int>, nI: nat, nOldest: int, at: int)
    requires OldestSoFar(info, vNew, drawn, nI, nOldest, at) && nI < |vNew| && nI in drawn
    requires vNew[nI] in info && vNew[nI] != -1
    ensures nOldest != -1 ==> nOldest in info
    ensures var better := nOldest == -1 || info[vNew[nI]].nTime < info[nOldest].nTime;
            OldestSoFar(info, vNew, drawn, nI + 1, if better then vNew[nI] else nOldest, if better then nI else at)
  {
  }

  lemma SeenOther(info: InfoMap, vNew: seq<int>, drawn: set<int>, nI: nat, nOldest: int, at: int)
    requires OldestSoFar(info, vNew, drawn, nI, nOldest, at) && nI < |vNew| && nI !in drawn
    ensures OldestSoFar(info, vNew, drawn, nI + 1, nOldest, at)
  {
  }

  lemma FourPlaces(draw: nat -> nat, n: nat)
    requires n > 0
    ensures FourDrawn(draw, n) == {Drawn(draw, 0, n), Drawn(draw, 1, n), Drawn(draw, 2, n), Drawn(draw, 3, n)}
    ensures forall i :: i in FourDrawn(draw, n) ==> 0 <= i < n
  {
  }

  lemma AllSeen(info: InfoMap, vNew: seq<int>, drawn: set<int>, n0: nat, nOldest: int, at: int)
    requires OldestSoFar(info, vNew, drawn, |vNew|, nOldest, at) && n0 in drawn && forall i :: i in drawn ==>
             0 <= i < |vNew|
    ensures IsOldestOf(info, vNew, drawn, nOldest)
  {
    assert nOldest != -1;
    assert IsFirstOldest(info, vNew, drawn, at);
    hide IsFirstOldest;
  }

  /** The position drawn in round i among the slots of a bucket of n from i on. */
  function DrawPos(draw: nat -> nat, i: nat, n: nat): (p: nat)
    requires i < n
    ensures i <= p < n
  {
    i + draw(i) % (n - i)
  }

  /** A tried bucket after i rounds of the inspection: in each, the slot of the round changes
      places with the position drawn. */
  function Inspected(bucket: seq<int>, draw: nat -> nat, i: nat): (t: seq<int>)
    requires i <= |bucket|
    ensures |t| == |bucket|
  {
    if i == 0 then bucket
    else
      var t := Inspected(bucket, draw, i - 1);
      var p := DrawPos(draw, i - 1, |t|);
      t[p := t[i - 1]][i - 1 := t[p]]
  }

  /** How many slots are inspected. */
  function Rounds(bucket: seq<int>): (n: nat)
    ensures n <= |bucket|
  {
    if |bucket| < TRIED_ENTRIES_INSPECT_ON_EVICT then |bucket| else TRIED_ENTRIES_INSPECT_ON_EVICT
  }

  function LastSuccess(info: InfoMap, id: int): int {
    if id in info then info[id].nLastSuccess else 0
  }

  /** The first of the slots up to i whose entry was least recently successful. */
  function LeastSlot(info: InfoMap, t: seq<int>, i: nat): (slot: nat)
    requires 0 < i <= |t|
    ensures slot < i && forall j :: 0 <= j < i ==> LastSuccess(info, t[slot]) <= LastSuccess(info, t[j])
  {
    if i == 1 then 0
    else
      var best := LeastSlot(info, t, i - 1);
      if LastSuccess(info, t[i - 1]) < LastSuccess(info, t[best]) then i - 1 else best
  }

  /** Slots that have had their round stay as they are. */
  lemma {:induction false} LeastSlotKept(info: InfoMap, t: seq<int>, t': seq<int>, i: nat)
    requires 0 < i <= |t| == |t'| && forall j :: 0 <= j < i ==> t'[j] == t[j]
    ensures LeastSlot(info, t', i) == LeastSlot(info, t, i)
    decreases i
  {
    if i > 1 {
      LeastSlotKept(info, t, t', i - 1);
    }
  }

  /** The position that the inspection of a non-empty bucket reports: the one drawn for the slot that,
      in the end, holds the least recently successful inspected entry. */
  function Reported(info: InfoMap, bucket: seq<int>, draw: nat -> nat): (pos: nat)
    requires bucket != []
    ensures pos < |bucket|
  {
    DrawPos(draw, LeastSlot(info, Inspected(bucket, draw, Rounds(bucket)), Rounds(bucket)), |bucket|)
  }

  /** Only the last successes matter for what is reported. */
  lemma {:induction false} SameLeast(info: InfoMap, info': InfoMap, t: seq<int>, i: nat)
    requires 0 < i <= |t| && forall id :: LastSuccess(info', id) == LastSuccess(info, id)
    ensures LeastSlot(info', t, i) == LeastSlot(info, t, i)
    decreases i
  {
    if i > 1 {
      hide LastSuccess;
      SameLeast(info, info', t, i - 1);
    }
  }

  lemma SameReports(info: InfoMap, info': InfoMap, bucket: seq<int>, draw: nat -> nat)
    requires bucket != [] && forall id :: LastSuccess(info', id) == LastSuccess(info, id)
    ensures Reported(info', bucket, draw) == Reported(info, bucket, draw)
  {
    hide LastSuccess, Inspected, DrawPos;
    SameLeast(info, info', Inspected(bucket, draw, Rounds(bucket)), Rounds(bucket));
  }

  /** One more round. */
  lemma InspectedNext(bucket: seq<int>, draw: nat -> nat, i: nat)
    requires i < |bucket|
    ensures var t, p := Inspected(bucket, draw, i), i + Drawn(draw, i, |bucket| - i);
            Inspected(bucket, draw, i + 1) == t[i := t[p]][p := t[i]]
  {
    var t, p := Inspected(bucket, draw, i), i + Drawn(draw, i, |bucket| - i);
    var a: seq<int>, b: seq<int> := t[i := t[p]], t[p := t[i]];
    assert a[p := t[i]] == b[i := t[p]];
  }

  lemma {:induction false} InspectedIsShuffled(bucket: seq<int>, draw: nat -> nat, i: nat)
    requires Distinct(bucket) && i <= |bucket|
    ensures Shuffled(bucket, Inspected(bucket, draw, i))
    decreases i
  {
    if i > 0 {
      InspectedIsShuffled(bucket, draw, i - 1);
      var t := Inspected(bucket, draw, i - 1);
      SwapShuffled(bucket, t, i - 1, DrawPos(draw, i - 1, |t|));
    }
  }

  /** The reported position holds the least recently successful of the inspected entries exactly when
      the draw of that entry's round left it in place. */
  lemma {:induction false} ReportsLeastExactly(info: InfoMap, bucket: seq<int>, draw: nat -> nat)
    requires Distinct(bucket) && bucket != []
    ensures var t := Inspected(bucket, draw, Rounds(bucket));
            var slot := LeastSlot(info, t, Rounds(bucket));
            && Shuffled(bucket, t)
            && (t[Reported(info, bucket, draw)] == t[slot] <==> draw(slot) % (|bucket| - slot) == 0)
  {
    InspectedIsShuffled(bucket, draw, Rounds(bucket));
    hide Inspected, LeastSlot;
  }

  /** A full bucket, of the ids from 100 on. */
  function FullBucket(): (bucket: seq<int>)
    ensures |bucket| == TRIED_BUCKET_SIZE && forall i :: 0 <= i < |bucket| ==> bucket[i] == 100 + i
  {
    seq(TRIED_BUCKET_SIZE, i => 100 + i)
  }

  /** With 1 drawn in every round, the first entry moves on by one slot a round. */
  lemma {:induction false} OneDrawn(i: nat)
    requires i <= 4
    ensures var t := Inspected(FullBucket(), (k: nat) => 1, i);
            forall j :: 0 <= j < |t| ==> t[j] == if j < i then 101 + j else if j == i then 100 else 100 + j
  {
    if i > 0 {
      var bucket, draw := FullBucket(), (k: nat) => 1;
      assert draw(i - 1) % (|bucket| - (i - 1)) == 1;
      SwapNext(bucket, draw, i - 1);
      hide Inspected, DrawPos, FullBucket;
      OneDrawn(i - 1);
    } else {
      NothingInspected(FullBucket(), (k: nat) => 1);
    }
  }

  lemma NothingInspected(bucket: seq<int>, draw: nat -> nat)
    ensures Inspected(bucket, draw, 0) == bucket
  {
  }

  /** A round in which 1 is drawn: the slot changes places with the next one. */
  lemma SwapNext(bucket: seq<int>, draw: nat -> nat, i: nat)
    requires i + 1 < |bucket| && draw(i) % (|bucket| - i) == 1
    ensures var t := Inspected(bucket, draw, i);
            Inspected(bucket, draw, i + 1) == t[i + 1 := t[i]][i := t[i + 1]]
  {
  }

  /** A full bucket in which 1 is drawn in all four rounds: entry 101 was successful longer ago than the other
      inspected ones, but the position reported holds entry 102. */
  lemma {:induction false} ReportsAnother(info: InfoMap)
    requires forall id :: id in FullBucket() ==> id in info && info[id].nLastSuccess == if id == 101 then 1 else 5
    ensures var bucket, draw := FullBucket(), (k: nat) => 1;
            var t := Inspected(bucket, draw, Rounds(bucket));
            && Distinct(bucket) && |bucket| == TRIED_BUCKET_SIZE && Rounds(bucket) == 4
            && t[..4] == [101, 102, 103, 104]
            && (forall j :: 1 <= j < 4 ==> LastSuccess(info, 101) < LastSuccess(info, t[j]))
            && Reported(info, bucket, draw) == 1 && t[Reported(info, bucket, draw)] == 102
  {
    var bucket, draw := FullBucket(), (k: nat) => 1;
    OneDrawn(4);
    var t := Inspected(bucket, draw, 4);
    hide Inspected;
    forall id | 101 <= id <= 104 ensures LastSuccess(info, id) == if id == 101 then 1 else 5 {
      assert bucket[id - 100] == id;
    }
    assert t[0] == 101 && t[1] == 102 && t[2] == 103 && t[3] == 104;
    var slot := LeastSlot(info, t, 4);
    assert slot == 0;
  }

  /** After i rounds: nOldest is in the least recently successful slot so far, and pos is the
      position that was drawn for it. */
  ghost predicate BestSoFar(info: InfoMap, t: seq<int>, draw: nat -> nat, i: nat, nOldest: int, pos: int) {
    && i <= |t|
    && (i == 0 ==> nOldest == -1 && pos == -1)
    && (0 < i ==> nOldest == t[LeastSlot(info, t, i)] && pos == DrawPos(draw, LeastSlot(info, t, i), |t|))
  }

  lemma {:induction false} InspectionStep(info: InfoMap, bucket: seq<int>, draw: nat -> nat, i: nat, nOldest: int,
                                          pos: int)
    requires i < |bucket| && (forall id :: id in bucket ==> id in info && id != -1) && Distinct(bucket)
    requires BestSoFar(info, Inspected(bucket, draw, i), draw, i, nOldest, pos)
    ensures var t, t' := Inspected(bucket, draw, i), Inspected(bucket, draw, i + 1);
            var nPos := DrawPos(draw, i, |bucket|);
            var nTemp := t[nPos];
            && t' == t[nPos := t[i]][i := nTemp]
            && nTemp in info && (nOldest != -1 ==> nOldest in info)
            && if nOldest == -1 || info[nTemp].nLastSuccess < info[nOldest].nLastSuccess
               then BestSoFar(info, t', draw, i + 1, nTemp, nPos)
               else BestSoFar(info, t', draw, i + 1, nOldest, pos)
  {
    var t, t' := Inspected(bucket, draw, i), Inspected(bucket, draw, i + 1);
    InspectedIsShuffled(bucket, draw, i);
    ShuffledMember(bucket, t, DrawPos(draw, i, |bucket|), -1);
    if i > 0 {
      ShuffledMember(bucket, t, LeastSlot(info, t, i), -1);
      hide Inspected, Distinct, Shuffled;
      LeastSlotKept(info, t, t', i);
    }
  }

  /** Shuffles the first few entries of a tried bucket and returns a position in it. */
  method SelectTried(info: InfoMap, bucket: seq<int>, draw: nat -> nat) returns (vTried: seq<int>, nOldestPos: int)
    requires Distinct(bucket) && forall id :: id in bucket ==> id in info && id != -1
    ensures Shuffled(bucket, vTried) && vTried == Inspected(bucket, draw, Rounds(bucket))
    ensures nOldestPos == if bucket == [] then -1 else Reported(info, bucket, draw)
  {
    vTried := bucket;
    nOldestPos := -1;
    var nOldest := -1;
    var i := 0;
    while i < TRIED_ENTRIES_INSPECT_ON_EVICT && i < |vTried|
      invariant 0 <= i <= TRIED_ENTRIES_INSPECT_ON_EVICT && i <= |bucket|
      invariant vTried == Inspected(bucket, draw, i) && BestSoFar(info, vTried, draw, i, nOldest, nOldestPos)
    {
      InspectionStep(info, bucket, draw, i, nOldest, nOldestPos);
      hide BestSoFar, DrawPos, Inspected;
      var nPos := DrawPos(draw, i, |vTried|);
      var nTemp := vTried[nPos];
      vTried := vTried[nPos := vTried[i]];
      vTried := vTried[i := nTemp];
      if nOldest == -1 || info[nTemp].nLastSuccess < info[nOldest].nLastSuccess {
        nOldest := nTemp;
        nOldestPos := nPos;
      }
      i := i + 1;
    }
    InspectedIsShuffled(bucket, draw, i);
  }

  /** Which "new" bucket an entry evicted from the tried table goes to. */
  function HomeBucket(o: Oracle, e: AddrInfo, vvNew: seq<set<int>>, nOrigin: int): (c: int)
    requires |vvNew| == NEW_BUCKET_COUNT && 0 <= nOrigin < |vvNew|
    ensures 0 <= c < |vvNew|
  {
    var nUBucket := o.NewBucket(e.service, e.source);
    if |vvNew[nUBucket]| < NEW_BUCKET_SIZE then nUBucket else nOrigin
  }

  /** nId has taken the place of `evicted`, the entry at the reported position of its full bucket k
      as shuffled by the inspection, and `evicted` is back in one "new" bucket. */
  ghost predicate ReplaceStep(o: Oracle, info: InfoMap, vvTried: seq<seq<int>>, vvNew: seq<set<int>>,
                              info': InfoMap, vvTried': seq<seq<int>>, vvNew': seq<set<int>>,
                              nId: int, k: int, nOrigin: int, draw: nat -> nat, evicted: int)
  {
    && 0 <= k < |vvTried| == |vvTried'| && |vvNew| == NEW_BUCKET_COUNT && 0 <= nOrigin < |vvNew|
    && evicted in vvTried[k] && nId in info && evicted in info && evicted != nId
    && info' == Demoted(Promoted(info, nId), evicted)
    && var t, pos := Inspected(vvTried[k], draw, Rounds(vvTried[k])), Reported(info, vvTried[k], draw);
    && evicted == t[pos] && vvTried' == vvTried[k := t[pos := nId]]
    && multiset(vvTried'[k]) == multiset(vvTried[k]) - multiset{evicted} + multiset{nId}
    && var c := HomeBucket(o, info[evicted], vvNew, nOrigin);
       vvNew' == vvNew[c := vvNew[c] + {evicted}]
  }

  /** Takes nId out of every "new" bucket, counting its references down. */
  method LeaveNew(vvNew: seq<set<int>>, nId: int, nRefCount: int) returns (v: seq<set<int>>, refs: int)
    ensures v == Without(vvNew, nId)
    ensures refs == nRefCount - |Holders(vvNew, nId)|
  {
    v, refs := vvNew, nRefCount;
    var b := 0;
    while b < |v|
      invariant 0 <= b <= |v| == |vvNew|
      invariant forall c :: 0 <= c < b ==> v[c] == vvNew[c] - {nId}
      invariant forall c :: b <= c < |v| ==> v[c] == vvNew[c]
      invariant refs - |Holders(v, nId)| == nRefCount - |Holders(vvNew, nId)|
    {
      if nId in v[b] {
        HoldersRemove(v, b, nId);
        v := v[b := v[b] - {nId}];
        refs := refs - 1;
      }
      b := b + 1;
    }
    assert v == Without(vvNew, nId);
    HoldersWithout(vvNew, nId, nId);
  }

  /** The tail of MakeTried for a full bucket k: picks an entry to evict, gives it back
      to the "new" table and puts nId in its place.  `was` is the id table in which nId
      still had its references, `bucket` the bucket as shuffled by the inspection. */
  method Replace(o: Oracle, info: InfoMap, vvTried: seq<seq<int>>, vvNew: seq<set<int>>, nId: int, k: int, nOrigin: int,
                 draw: nat -> nat, ghost was: InfoMap)
    returns (info': InfoMap, vvTried': seq<seq<int>>, vvNew': seq<set<int>>, nPos: int, bucket: seq<int>)
    requires nId in was && !was[nId].fInTried && info == was[nId := was[nId].(nRefCount := 0)] && -1 !in was
    requires TriedOk(o, was, vvTried) && 0 <= k < |vvTried| && vvTried[k] != []
    requires |vvNew| == NEW_BUCKET_COUNT && 0 <= nOrigin < |vvNew|
    ensures Shuffled(vvTried[k], bucket) && 0 <= nPos < |bucket| && vvTried' == vvTried[k := bucket[nPos := nId]]
    ensures ReplaceStep(o, was, vvTried, vvNew, info', vvTried', vvNew', nId, k, nOrigin, draw, bucket[nPos])
  {
    TriedMembers(o, was, vvTried, k);
    SameReports(was, info, vvTried[k], draw);
    hide TriedOk, Inspected, Reported;
    bucket, nPos := SelectTried(info, vvTried[k], draw);
    ShuffledMember(vvTried[k], bucket, nPos, nId);
    var nOld := bucket[nPos];
    ReplaceInfo(was, nId, nOld);
    var b := HomeBucket(o, info[nOld], vvNew, nOrigin);
    info' := info[nOld := info[nOld].(fInTried := false, nRefCount := 1)];
    vvNew' := vvNew[b := vvNew[b] + {nOld}];
    vvTried' := vvTried[k := bucket[nPos := nId]];
    info' := info'[nId := info'[nId].(fInTried := true)];
  }

  /** A replacement leaves all tables consistent. */
  lemma ReplaceStepValid(o: Oracle, info: InfoMap, addr: map<NetAddr, int>, rnd: seq<int>, vvTried: seq<seq<int>>,
                         vvNew: seq<set<int>>, nNew: int, nTried: int, nIdCount: int, info': InfoMap,
                         vvTried': seq<seq<int>>, vvNew': seq<set<int>>, id: int, k: int, nOrigin: int,
                         draw: nat -> nat, bucket: seq<int>, pos: int)
    requires RandomOk(info, rnd) && AddrOk(info, addr) && TriedOk(o, info, vvTried) &&
             CountsOk(info, nNew + 1, nTried, nIdCount)
    requires id in info && !info[id].fInTried && NewOk(Promoted(info, id), vvNew, -1)
    requires k == o.TriedBucket(info[id].service) && 0 <= pos < |bucket| && Shuffled(vvTried[k], bucket)
    requires vvTried' == vvTried[k := bucket[pos := id]]
    requires 0 <= nOrigin < |vvNew| && |vvNew[nOrigin]| < NEW_BUCKET_SIZE
    requires ReplaceStep(o, info, vvTried, vvNew, info', vvTried', vvNew', id, k, nOrigin, draw, bucket[pos])
    ensures TablesOk(o, info', addr, rnd, vvTried', vvNew', nNew + 1, nTried, nIdCount, -1)
  {
    var c := HomeBucket(o, info[bucket[pos]], vvNew, nOrigin);
    ShuffleTried(o, info, vvTried, k, bucket);
    var shuffled := vvTried[k := bucket];
    assert shuffled[k := bucket[pos := id]] == vvTried';
    ReplaceTables(o, info, addr, rnd, shuffled, vvNew, nNew, nTried, nIdCount, k, pos, id, c);
  }

  /** One promotion: nId leaves every "new" bucket and enters its tried bucket, either at
      the end or in the place of an evicted entry, which returns to one "new" bucket. */
  ghost predicate TriedStep(o: Oracle, info: InfoMap, vvTried: seq<seq<int>>, vvNew: seq<set<int>>,
                            info': InfoMap, vvTried': seq<seq<int>>, vvNew': seq<set<int>>,
                            nId: int, nOrigin: int, draw: nat -> nat, evicted: int)
    requires nId in info && |vvTried| == TRIED_BUCKET_COUNT && |vvNew| == NEW_BUCKET_COUNT && 0 <= nOrigin < |vvNew|
  {
    var k := o.TriedBucket(info[nId].service);
    var left := Without(vvNew, nId);
    if |vvTried[k]| < TRIED_BUCKET_SIZE then
      && evicted == -1
      && info' == Promoted(info, nId)
      && vvTried' == vvTried[k := vvTried[k] + [nId]]
      && vvNew' == left
    else
      ReplaceStep(o, info, vvTried, left, info', vvTried', vvNew', nId, k, nOrigin, draw, evicted)
  }

  function RoundRobin(j: int, start: int, n: int): (b: int)
    requires 0 < n
    ensures 0 <= b < n
  {
    (j + start) % n
  }

  lemma RoundRobinHits(j: int, start: int, n: int)
    requires 0 <= j < n && 0 <= start < n
    ensures RoundRobin(j, start, n) == if j + start < n then j + start else j + start - n
  {
    if j + start >= n {
      DivModUnique(j + start, n, 1, j + start - n);
    } else {
      DivModUnique(j + start, n, 0, j + start);
    }
  }

  /** Bucket b is n steps from bucket nRnd, and none of the buckets passed on the way holds nId. */
  ghost predicate IsFirstHolder(vvNew: seq<set<int>>, nId: int, nRnd: int, n: int, b: int) {
    && 0 <= n < |vvNew| && b == RoundRobin(n, nRnd, |vvNew|)
    && forall j :: 0 <= j < n ==> nId !in vvNew[RoundRobin(j, nRnd, |vvNew|)]
  }

  /** A "new" bucket that holds nId, looking from bucket nRnd on, or -1. */
  method FindHolder(vvNew: seq<set<int>>, nId: int, nRnd: int) returns (b: int)
    requires vvNew != [] && 0 <= nRnd < |vvNew|
    ensures b == -1 ==> forall c :: 0 <= c < |vvNew| ==> nId !in vvNew[c]
    ensures b != -1 ==> 0 <= b < |vvNew| && nId in vvNew[b] && exists n :: IsFirstHolder(vvNew, nId, nRnd, n, b)
  {
    var n := 0;
    while n < |vvNew|
      invariant 0 <= n <= |vvNew|
      invariant forall j :: 0 <= j < n ==> nId !in vvNew[RoundRobin(j, nRnd, |vvNew|)]
    {
      var nB := RoundRobin(n, nRnd, |vvNew|);
      if nId in vvNew[nB] {
        assert IsFirstHolder(vvNew, nId, nRnd, n, nB);
        return nB;
      }
      n := n + 1;
    }
    forall c | 0 <= c < |vvNew| ensures nId !in vvNew[c] {
      var j := if c >= nRnd then c - nRnd else c - nRnd + |vvNew|;
      RoundRobinHits(j, nRnd, |vvNew|);
      assert RoundRobin(j, nRnd, |vvNew|) == c;
    }
    return -1;
  }

  /** id has entered bucket b, from which `victim` was released first when it was full. */
  ghost predicate EnterStep(info: InfoMap, addr: map<NetAddr, int>, vvNew: seq<set<int>>, nNew: int,
                            info': InfoMap, addr': map<NetAddr, int>, vvNew': seq<set<int>>, nNew': int,
                            id: int, b: int, nNow: int, draw: nat -> nat, victim: int)
  {
    && 0 <= b < |vvNew|
    && if |vvNew[b]| < NEW_BUCKET_SIZE then
         && victim == -1 && info' == info && addr' == addr && nNew' == nNew
         && vvNew' == vvNew[b := vvNew[b] + {id}]
       else
         && victim != id && IsVictim(info, vvNew[b], nNow, draw, victim)
         && ReleaseStep(info, addr, vvNew, nNew, info', addr', vvNew[b := vvNew[b] - {victim}], nNew', victim, b)
         && vvNew' == vvNew[b := vvNew[b] - {victim} + {id}]
  }

  lemma VictimChosen(info: InfoMap, vNew: set<int>, nNow: int, draw: nat -> nat, res: int, victim: int)
    requires ShrinkChoice(info, vNew, nNow, draw, res, victim)
    ensures IsVictim(info, vNew, nNow, draw, victim)
  {
    hide IsFirstTerrible, IsOldestOf, NoneTerrible;
  }

  lemma EnterAfterRelease(info: InfoMap, addr: map<NetAddr, int>, vvNew: seq<set<int>>, nNew: int, info': InfoMap,
                          addr': map<NetAddr, int>, v: seq<set<int>>, nNew': int, id: int, b: int, nNow: int,
                          draw: nat -> nat, victim: int)
    requires ReleaseStep(info, addr, vvNew, nNew, info', addr', v, nNew', victim, b) && victim != id &&
             |vvNew[b]| == NEW_BUCKET_SIZE && IsVictim(info, vvNew[b], nNow, draw, victim)
    ensures |v| == |vvNew|
    ensures EnterStep(info, addr, vvNew, nNew, info', addr', v[b := v[b] + {id}], nNew', id, b, nNow, draw, victim)
  {
    assert v[b := v[b] + {id}] == vvNew[b := vvNew[b] - {victim} + {id}];
  }

  lemma EnterWithRoom(info: InfoMap, addr: map<NetAddr, int>, vvNew: seq<set<int>>, nNew: int, id: int, b: int,
                      nNow: int, draw: nat -> nat)
    requires 0 <= b < |vvNew| && |vvNew[b]| < NEW_BUCKET_SIZE
    ensures EnterStep(info, addr, vvNew, nNew, info, addr, vvNew[b := vvNew[b] + {id}], nNew, id, b, nNow, draw, -1)
  {
  }

  /** A known entry after its address has been heard of again. */
  function Refresh(e: AddrInfo, addr: Address, nTimePenalty: int, nNow: int): AddrInfo {
    e.(nTime := RefreshedTime(e.nTime, addr.nTime, nTimePenalty, nNow), nServices := e.nServices | addr.nServices)
  }

  /** A refreshed entry may enter one more "new" bucket. */
  predicate MayGainReference(info: InfoMap, id: int, addrTime: uint32)
    requires id in info
  {
    && addrTime != 0
    && !(info[id].nTime != 0 && addrTime <= info[id].nTime)
    && !info[id].fInTried
    && info[id].nRefCount != NEW_BUCKETS_PER_ADDRESS
  }

  /** A new entry, with its time penalised and its first reference counted. */
  function FreshEntry(addr: Address, source: NetAddr, nTimePenalty: int, nRandomPos: int): AddrInfo {
    NewInfo(addr, source).(nTime := ToUint32(Max(0, addr.nTime - nTimePenalty)), nRefCount := 1,
                           nRandomPos := nRandomPos)
  }

  lemma TablesParts(o: Oracle, info: InfoMap, addr: map<NetAddr, int>, rnd: seq<int>, vvTried: seq<seq<int>>,
                    vvNew: seq<set<int>>, nNew: int, nTried: int, nIdCount: int, pending: int)
    requires TablesOk(o, info, addr, rnd, vvTried, vvNew, nNew, nTried, nIdCount, pending)
    ensures RandomOk(info, rnd) && AddrOk(info, addr) && NewOk(info, vvNew, pending) && TriedOk(o, info, vvTried)
    ensures CountsOk(info, nNew, nTried, nIdCount)
  {
  }

  lemma FreshInSteps(addr: Address, source: NetAddr, nTimePenalty: int, nRandomPos: int)
    ensures var e := NewInfo(addr, source).(nRandomPos := nRandomPos);
            var e' := e.(nTime := ToUint32(Max(0, e.nTime - nTimePenalty)));
            e'.(nRefCount := e'.nRefCount + 1) == FreshEntry(addr, source, nTimePenalty, nRandomPos)
  {
  }

  lemma CreateTables(o: Oracle, info: InfoMap, addrs: map<NetAddr, int>, rnd: seq<int>, vvTried: seq<seq<int>>,
                     vvNew: seq<set<int>>, nNew: int, nTried: int, nId: int, addr: Address, source: NetAddr,
                     nTimePenalty: int)
    requires TablesOk(o, info, addrs, rnd, vvTried, vvNew, nNew, nTried, nId, -1) && addr.service.net !in addrs
    ensures nId !in info && !FreshEntry(addr, source, nTimePenalty, |rnd|).fInTried
    ensures TablesOk(o, info[nId := FreshEntry(addr, source, nTimePenalty, |rnd|)], addrs[addr.service.net := nId],
                     rnd + [nId], vvTried, vvNew, nNew + 1, nTried, nId + 1, nId)
  {
    var e := FreshEntry(addr, source, nTimePenalty, |rnd|);
    NoSuchId(info, nNew, nTried, nId);
    hide RandomOk, AddrOk, NewOk, TriedOk, CountsOk;
    CreateRandom(info, rnd, nId, e);
    CreateAddr(info, addrs, nId, e);
    CreateBuckets(o, info, vvTried, vvNew, nId, e);
    CreateCounts(info, nNew, nTried, nId, e);
  }

  lemma NoSuchId(info: InfoMap, nNew: int, nTried: int, nId: int)
    requires CountsOk(info, nNew, nTried, nId)
    ensures nId !in info && -1 !in info && 0 <= nId
  {
  }

  /** An unknown address has become entry nIdCount, with one reference, from its bucket. */
  ghost predicate AddUnknownStep(o: Oracle, info: InfoMap, addrs: map<NetAddr, int>, rndLength: nat,
                                 vvNew: seq<set<int>>, nNew: int, nIdCount: int, addr: Address, source: NetAddr,
                                 nTimePenalty: int, nNow: int, draw: nat -> nat, info': InfoMap,
                                 addrs': map<NetAddr, int>, vvNew': seq<set<int>>, nNew': int, victim: int)
  {
    EnterStep(info[nIdCount := FreshEntry(addr, source, nTimePenalty, rndLength)], addrs[addr.service.net := nIdCount],
              vvNew, nNew + 1, info', addrs', vvNew', nNew', nIdCount, o.NewBucket(addr.service, source), nNow, draw,
              victim)
  }

  /** A known address has been refreshed, and has entered one more bucket if it gained a reference. */
  ghost predicate AddKnownStep(o: Oracle, info: InfoMap, addrs: map<NetAddr, int>, vvNew: seq<set<int>>, nNew: int,
                               id: int, addr: Address, source: NetAddr, nTimePenalty: int, nNow: int,
                               draw: nat -> nat, info': InfoMap, addrs': map<NetAddr, int>, vvNew': seq<set<int>>,
                               nNew': int, gained: bool, victim: int)
  {
    && id in info
    && var refreshed, b := info[id := Refresh(info[id], addr, nTimePenalty, nNow)],
       o.NewBucket(info[id].service, source);
    && b < |vvNew| && info[id].nRefCount >= 0
    && (gained <==>
        && MayGainReference(refreshed, id, addr.nTime) && id !in vvNew[b]
        && Drawn(draw, 4, Pow2(info[id].nRefCount)) == 0)
    && if gained then
      EnterStep(Counted(refreshed, id), addrs, vvNew, nNew, info', addrs', vvNew', nNew', id, b, nNow, draw, victim)
    else
      info' == refreshed && addrs' == addrs && vvNew' == vvNew && nNew' == nNew && victim == -1
  }

  // ----- handing out addresses -----

  lemma RandomOfTables(o: Oracle, info: InfoMap, addr: map<NetAddr, int>, rnd: seq<int>, vvTried: seq<seq<int>>,
                       vvNew: seq<set<int>>, nNew: int, nTried: int, nIdCount: int)
    requires TablesOk(o, info, addr, rnd, vvTried, vvNew, nNew, nTried, nIdCount, -1)
    ensures RandomOk(info, rnd) && AddrOk(info, addr)
  {
  }

  lemma SameAsItself(info: InfoMap)
    ensures SameButRandomPos(info, info)
  {
  }

  lemma SameTwice(a: InfoMap, b: InfoMap, c: InfoMap)
    requires SameButRandomPos(a, b) && SameButRandomPos(b, c)
    ensures SameButRandomPos(a, c)
  {
  }

  lemma SameButPositions(info: InfoMap, info': InfoMap)
    requires SameButRandomPos(info, info')
    ensures SameLinks(info, info')
  {
  }

  lemma RandomIsKnown(info: InfoMap, rnd: seq<int>, n: nat)
    requires RandomOk(info, rnd) && n < |rnd|
    ensures rnd[n] in info
  {
  }

  /** The addresses of the first n entries of the permutation have been handed out. */
  ghost predicate HandedOut(info: InfoMap, rnd: seq<int>, vAddr: seq<Service>, vAddr': seq<Service>, n: nat) {
    && n <= |rnd| && |vAddr'| == |vAddr| + n && vAddr <= vAddr'
    && forall i :: 0 <= i < n ==> rnd[i] in info && vAddr'[|vAddr| + i] == info[rnd[i]].service
  }

  lemma NoneYet(info: InfoMap, rnd: seq<int>, vAddr: seq<Service>, draw: nat -> nat)
    ensures HandedOut(info, rnd, vAddr, vAddr, 0) && Inspected(rnd, draw, 0) == rnd && NodesToReturn(|rnd|) <= |rnd|
  {
  }

  lemma NextHandedOut(info: InfoMap, rnd: seq<int>, info': InfoMap, rnd': seq<int>, vAddr: seq<Service>,
                      vAddr': seq<Service>, n: nat, p: nat)
    requires HandedOut(info, rnd, vAddr, vAddr', n) && SameButRandomPos(info, info') && n <= p < |rnd|
    requires rnd' == rnd[n := rnd[p]][p := rnd[n]] && rnd'[n] in info'
    ensures HandedOut(info', rnd', vAddr, vAddr' + [info'[rnd'[n]].service], n + 1)
  {
    forall i | 0 <= i < n ensures rnd'[i] in info' && vAddr'[|vAddr| + i] == info'[rnd'[i]].service {
      assert rnd'[i] == rnd[i] && info'[rnd[i]] == info[rnd[i]].(nRandomPos := info'[rnd[i]].nRandomPos);
    }
  }

  lemma DistinctHandedOut(info: InfoMap, addr: map<NetAddr, int>, rnd: seq<int>, vAddr: seq<Service>,
                          vAddr': seq<Service>, n: nat)
    requires HandedOut(info, rnd, vAddr, vAddr', n) && RandomOk(info, rnd) && AddrOk(info, addr)
    ensures |vAddr'| == |vAddr| + n && vAddr <= vAddr'
    ensures forall i :: |vAddr| <= i < |vAddr'| ==>
            rnd[i - |vAddr|] in info && vAddr'[i] == info[rnd[i - |vAddr|]].service
    ensures forall i, j :: |vAddr| <= i < j < |vAddr'| ==> vAddr'[i].net != vAddr'[j].net
  {
    hide RandomOk, AddrOk;
    forall i | |vAddr| <= i < |vAddr'|
      ensures rnd[i - |vAddr|] in info && vAddr'[i] == info[rnd[i - |vAddr|]].service
    {
      assert vAddr'[|vAddr| + (i - |vAddr|)] == info[rnd[i - |vAddr|]].service;
    }
    forall i, j | |vAddr| <= i < j < |vAddr'| ensures vAddr'[i].net != vAddr'[j].net {
      DistinctAddresses(info, addr, rnd, i - |vAddr|, j - |vAddr|);
    }
  }

  class CAddrMan {
    const o: Oracle
    var nIdCount: int
    var mapInfo: InfoMap
    var mapAddr: map<NetAddr, int>
    var vRandom: seq<int>
    var nTried: int
    var vvTried: seq<seq<int>>
    var nNew: int
    var vvNew: seq<set<int>>

    ghost predicate ValidBut(pending: int)
      reads this
    {
      TablesOk(o, mapInfo, mapAddr, vRandom, vvTried, vvNew, nNew, nTried, nIdCount, pending)
    }

    /** All tables agree. */
    ghost predicate Valid()
      reads this
    {
      ValidBut(-1)
    }

    constructor (o: Oracle)
      ensures this.o == o
      ensures Valid() && mapInfo == map[]
    {
      this.o := o;
      nIdCount, nTried, nNew := 0, 0, 0;
      mapInfo, mapAddr, vRandom := map[], map[], [];
      vvTried := seq(TRIED_BUCKET_COUNT, _ => []);
      vvNew := seq(NEW_BUCKET_COUNT, _ => {});
      new;
      assert Untried(mapInfo) == {} && Tried(mapInfo) == {};
    }

    method Clear()
      modifies this
      ensures Valid() && mapInfo == map[]
    {
      vRandom := [];
      vvTried := seq(TRIED_BUCKET_COUNT, _ => []);
      vvNew := seq(NEW_BUCKET_COUNT, _ => {});
      nIdCount, nTried, nNew := 0, 0, 0;
      mapInfo, mapAddr := map[], map[];
      assert Untried(mapInfo) == {} && Tried(mapInfo) == {};
    }

    /** The id of the entry at a network address, or -1. */
    function Find(net: NetAddr): (id: int)
      requires Valid()
      reads this
      ensures id == -1 <==> forall x :: x in mapInfo ==> mapInfo[x].service.net != net
      ensures id != -1 ==> id in mapInfo && mapInfo[id].service.net == net
    {
      if net in mapAddr then mapAddr[net] else -1
    }

    /** Adds an entry that is in no bucket yet, already counted for one. */
    method Create(addr: Address, source: NetAddr, nTimePenalty: int) returns (nId: int)
      requires Valid() && addr.service.net !in mapAddr
      modifies this`nIdCount, this`mapInfo, this`mapAddr, this`vRandom, this`nNew
      ensures nId == old(nIdCount) && nId !in old(mapInfo) && nId in mapInfo && !mapInfo[nId].fInTried
      ensures ValidBut(nId)
      ensures mapInfo == old(mapInfo)[nId := FreshEntry(addr, source, nTimePenalty, |old(vRandom)|)]
      ensures mapAddr == old(mapAddr)[addr.service.net := nId]
      ensures vRandom == old(vRandom) + [nId]
      ensures nNew == old(nNew) + 1
    {
      hide TablesOk, NewInfo, ToUint32, Max, FreshEntry;
      nId := nIdCount;
      nIdCount := nIdCount + 1;
      mapInfo := mapInfo[nId := NewInfo(addr, source)];
      mapAddr := mapAddr[addr.service.net := nId];
      mapInfo := mapInfo[nId := mapInfo[nId].(nRandomPos := |vRandom|)];
      vRandom := vRandom + [nId];
      // the caller's part: the penalised time, the counter and the first reference
      mapInfo := mapInfo[nId := mapInfo[nId].(nTime := ToUint32(Max(0, mapInfo[nId].nTime - nTimePenalty)))];
      nNew := nNew + 1;
      mapInfo := mapInfo[nId := mapInfo[nId].(nRefCount := mapInfo[nId].nRefCount + 1)];
      FreshInSteps(addr, source, nTimePenalty, |old(vRandom)|);
      assert mapInfo == old(mapInfo)[nId := FreshEntry(addr, source, nTimePenalty, |old(vRandom)|)];
      CreateTables(o, old(mapInfo), old(mapAddr), old(vRandom), vvTried, vvNew, old(nNew), nTried, nId, addr, source,
                   nTimePenalty);
    }

    /** Swaps two elements of vRandom. */
    method SwapRandom(p1: int, p2: int)
      requires RandomOk(mapInfo, vRandom)
      requires 0 <= p1 < |vRandom| && 0 <= p2 < |vRandom|
      modifies this`mapInfo, this`vRandom
      ensures RandomOk(mapInfo, vRandom) && SameButRandomPos(old(mapInfo), mapInfo)
      ensures vRandom == old(vRandom)[p1 := old(vRandom)[p2]][p2 := old(vRandom)[p1]]
    {
      if p1 == p2 {
        return;
      }
      var nId1, nId2 := vRandom[p1], vRandom[p2];
      assert nId1 in mapInfo && nId2 in mapInfo;
      mapInfo := mapInfo[nId1 := mapInfo[nId1].(nRandomPos := p2)];
      mapInfo := mapInfo[nId2 := mapInfo[nId2].(nRandomPos := p1)];
      vRandom := vRandom[p1 := nId2];
      vRandom := vRandom[p2 := nId1];
    }

    /** Deletes an entry from every index but the buckets. */
    method Delete(nId: int)
      requires RandomOk(mapInfo, vRandom) && AddrOk(mapInfo, mapAddr) && nId in mapInfo
      modifies this`mapInfo, this`mapAddr, this`vRandom, this`nNew
      ensures RandomOk(mapInfo, vRandom) && AddrOk(mapInfo, mapAddr)
      ensures SameButRandomPos(old(mapInfo) - {nId}, mapInfo)
      ensures mapAddr == old(mapAddr) - {old(mapInfo)[nId].service.net}
      ensures nNew == old(nNew) - 1
    {
      SwapRandom(mapInfo[nId].nRandomPos, |vRandom| - 1);
      SameLinksAddr(old(mapInfo), mapInfo, mapAddr);
      RemoveLastRandom(mapInfo, vRandom, nId);
      RemoveAddr(mapInfo, mapAddr, nId);
      vRandom := vRandom[..|vRandom| - 1];
      mapAddr := mapAddr - {mapInfo[nId].service.net};
      mapInfo := mapInfo - {nId};
      nNew := nNew - 1;
    }

    /** Drops one reference of nId, from bucket b, and deletes the entry if it was the last. */
    method Release(nId: int, b: int, ghost pending: int)
      requires ValidBut(pending) && 0 <= b < |vvNew| && nId in vvNew[b] && nId != pending
      modifies this`mapInfo, this`mapAddr, this`vRandom, this`nNew, this`vvNew
      ensures ValidBut(pending)
      ensures ReleaseStep(old(mapInfo), old(mapAddr), old(vvNew), old(nNew), mapInfo, mapAddr, vvNew, nNew, nId, b)
    {
      hide TablesOk, RandomOk, AddrOk, NewOk, TriedOk, CountsOk;
      ReleaseReady(o, mapInfo, mapAddr, vRandom, vvTried, vvNew, nNew, nTried, nIdCount, pending, nId, b);
      mapInfo := mapInfo[nId := mapInfo[nId].(nRefCount := mapInfo[nId].nRefCount - 1)];
      if mapInfo[nId].nRefCount == 0 {
        Delete(nId);
      }
      vvNew := vvNew[b := vvNew[b] - {nId}];
      ReleaseTables(o, old(mapInfo), old(mapAddr), old(vRandom), vvTried, old(vvNew), old(nNew), nTried, nIdCount,
                    pending, nId, b, mapInfo, mapAddr, vRandom, vvNew, nNew);
    }

    /** Removes one entry from a "new" bucket: the first terrible one in id order (and
        returns 0), or else the one seen longest ago among four drawn ones (and returns 1). */
    method ShrinkNew(b: int, nNow: int, draw: nat -> nat, ghost pending: int) returns (res: int, ghost victim: int)
      requires ValidBut(pending) && 0 <= b < |vvNew| && vvNew[b] != {} && pending !in vvNew[b]
      modifies this`mapInfo, this`mapAddr, this`vRandom, this`nNew, this`vvNew
      ensures ValidBut(pending)
      ensures ReleaseStep(old(mapInfo), old(mapAddr), old(vvNew), old(nNew), mapInfo, mapAddr, vvNew, nNew, victim, b)
      ensures ShrinkChoice(old(mapInfo), old(vvNew)[b], nNow, draw, res, victim)
    {
      assert -1 !in mapInfo;
      BucketMembers(mapInfo, vvNew, b, pending);
      hide TablesOk, RandomOk, AddrOk, NewOk, TriedOk, CountsOk;
      var nFound := FirstTerrible(mapInfo, Ascending(vvNew[b]), nNow);
      if nFound != -1 {
        assert nFound in mapInfo;
        Release(nFound, b, pending);
        res, victim := 0, nFound;
      } else {
        var nOldest := OldestOfFour(mapInfo, Ascending(vvNew[b]), draw);
        assert nOldest in mapInfo;
        Release(nOldest, b, pending);
        res, victim := 1, nOldest;
      }
    }

    /** Moves nId from the "new" table to its tried bucket; a full bucket first gives one
        of its entries back to the "new" table.  `evicted` is that entry, or -1. */
    method MakeTried(nId: int, nOrigin: int, draw: nat -> nat) returns (ghost evicted: int)
      requires Valid() && nId in mapInfo && !mapInfo[nId].fInTried
      requires 0 <= nOrigin < |vvNew| && nId in vvNew[nOrigin]
      modifies this`mapInfo, this`vvTried, this`vvNew, this`nNew, this`nTried
      ensures Valid()
      ensures TriedStep(o, old(mapInfo), old(vvTried), old(vvNew), mapInfo, vvTried, vvNew, nId, nOrigin, draw,
                        evicted)
    {
      hide TablesOk, RandomOk, AddrOk, NewOk, TriedOk, CountsOk, Holders, ReplaceStep, Shuffled;
      TablesParts(o, mapInfo, mapAddr, vRandom, vvTried, vvNew, nNew, nTried, nIdCount, -1);
      MakeTriedReady(o, mapInfo, mapAddr, vRandom, vvTried, vvNew, nNew, nTried, nIdCount, nId, nOrigin);
      var left, nRefCount := LeaveNew(vvNew, nId, mapInfo[nId].nRefCount);
      assert nRefCount == 0;
      var k := o.TriedBucket(mapInfo[nId].service);
      var info := mapInfo[nId := mapInfo[nId].(nRefCount := nRefCount)];
      if |vvTried[k]| < TRIED_BUCKET_SIZE {
        PromoteTables(o, mapInfo, mapAddr, vRandom, vvTried, left, nNew - 1, nTried, nIdCount, nId);
        evicted := -1;
        info := info[nId := info[nId].(fInTried := true)];
        assert info == Promoted(mapInfo, nId);
        mapInfo, vvNew, vvTried := info, left, vvTried[k := vvTried[k] + [nId]];
        nNew, nTried := nNew - 1, nTried + 1;
      } else {
        var info', vvTried', vvNew', nPos, bucket := Replace(o, info, vvTried, left, nId, k, nOrigin, draw,
                                                                        mapInfo);
        ReplaceStepValid(o, mapInfo, mapAddr, vRandom, vvTried, left, nNew - 1, nTried, nIdCount,
                         info', vvTried', vvNew', nId, k, nOrigin, draw, bucket, nPos);
        evicted := bucket[nPos];
        mapInfo, vvNew, vvTried := info', vvNew', vvTried';
      }
    }

    /** The entry for exactly this address and port, or -1. */
    function FindService(addr: Service): (id: int)
      requires Valid()
      reads this
      ensures id == -1 <==> forall x :: x in mapInfo ==> mapInfo[x].service != addr
      ensures id != -1 ==> id in mapInfo && mapInfo[id].service == addr
    {
      var id := Find(addr.net);
      if id == -1 || mapInfo[id].service != addr then -1 else id
    }

    /** Replaces the statistics of one entry. */
    method UpdateStats(nId: int, e: AddrInfo)
      requires Valid() && nId in mapInfo
      requires e.service == mapInfo[nId].service && e.source == mapInfo[nId].source &&
               e.nRefCount == mapInfo[nId].nRefCount
      requires e.fInTried == mapInfo[nId].fInTried && e.nRandomPos == mapInfo[nId].nRandomPos
      modifies this`mapInfo
      ensures Valid() && mapInfo == old(mapInfo)[nId := e]
    {
      SameLinksKeeps(o, mapInfo, mapInfo[nId := e], mapAddr, vRandom, vRandom, vvTried, vvNew, nNew, nTried, nIdCount,
                     -1);
      mapInfo := mapInfo[nId := e];
    }

    /** A connection to addr worked: an untried entry is promoted to the tried table. */
    method Good_(addr: Service, nTime: int, nRnd: nat, draw: nat -> nat)
      returns (ghost nOrigin: int, ghost evicted: int)
      requires Valid()
      modifies this`mapInfo, this`vvTried, this`vvNew, this`nNew, this`nTried
      ensures Valid()
      ensures var nId := old(FindService(addr));
              if nId == -1 then
                mapInfo == old(mapInfo) && vvTried == old(vvTried) && vvNew == old(vvNew)
              else
                var info := old(mapInfo)[nId := old(mapInfo)[nId].Succeeded(nTime)];
                if old(mapInfo)[nId].fInTried then
                  mapInfo == info && vvTried == old(vvTried) && vvNew == old(vvNew)
                else
                  && 0 <= nOrigin < NEW_BUCKET_COUNT && nId in old(vvNew)[nOrigin]
                  && (exists n :: IsFirstHolder(old(vvNew), nId, nRnd % NEW_BUCKET_COUNT, n, nOrigin))
                  && TriedStep(o, info, old(vvTried), old(vvNew), mapInfo, vvTried, vvNew, nId, nOrigin, draw, evicted)
    {
      nOrigin, evicted := -1, -1;
      var nId := FindService(addr);
      if nId == -1 {
        return;
      }
      UpdateStats(nId, mapInfo[nId].Succeeded(nTime));
      if mapInfo[nId].fInTried {
        return;
      }
      ghost var holder := HasHolder(mapInfo, vvNew, nId);
      var nUBucket := FindHolder(vvNew, nId, nRnd % |vvNew|);
      if nUBucket == -1 {
        // an untried entry always has a bucket
        assert false;
      }
      nOrigin := nUBucket;
      evicted := MakeTried(nId, nUBucket, draw);
    }

    method Attempt_(addr: Service, nTime: int)
      requires Valid()
      modifies this`mapInfo
      ensures Valid()
      ensures var nId := old(FindService(addr));
              if nId == -1 then mapInfo == old(mapInfo)
              else mapInfo == old(mapInfo)[nId := old(mapInfo)[nId].(nLastTry := nTime,
                                                                     nAttempts := old(mapInfo)[nId].nAttempts + 1)]
    {
      var nId := FindService(addr);
      if nId != -1 {
        UpdateStats(nId, mapInfo[nId].(nLastTry := nTime, nAttempts := mapInfo[nId].nAttempts + 1));
      }
    }

    method Connected_(addr: Service, nTime: int)
      requires Valid()
      modifies this`mapInfo
      ensures Valid()
      ensures var nId := old(FindService(addr));
              if nId == -1 || nTime - old(mapInfo)[nId].nTime <= 20 * 60 then mapInfo == old(mapInfo)
              else mapInfo == old(mapInfo)[nId := old(mapInfo)[nId].(nTime := ToUint32(nTime))]
    {
      var nId := FindService(addr);
      if nId != -1 && nTime - mapInfo[nId].nTime > 20 * 60 {
        UpdateStats(nId, mapInfo[nId].(nTime := ToUint32(nTime)));
      }
    }

    /** Shuffles the front of vRandom and hands out the addresses found there, each once. */
    method GetAddr_(vAddr: seq<Service>, draw: nat -> nat) returns (vAddr': seq<Service>)
      requires Valid()
      modifies this`mapInfo, this`vRandom
      ensures Valid() && SameButRandomPos(old(mapInfo), mapInfo) && |vRandom| == |old(vRandom)|
      ensures vRandom == Inspected(old(vRandom), draw, NodesToReturn(|old(vRandom)|))
      ensures |vAddr'| == |vAddr| + NodesToReturn(|vRandom|) && vAddr <= vAddr'
      ensures forall i :: |vAddr| <= i < |vAddr'| ==> vAddr'[i] == mapInfo[vRandom[i - |vAddr|]].service
      ensures forall i, j :: |vAddr| <= i < j < |vAddr'| ==> vAddr'[i].net != vAddr'[j].net
    {
      hide *;
      vAddr' := vAddr;
      var nNodes := NodesToReturn(|vRandom|);
      TablesOfValid();
      RandomOfTables(o, mapInfo, mapAddr, vRandom, vvTried, vvNew, nNew, nTried, nIdCount);
      SameAsItself(mapInfo);
      NoneYet(mapInfo, vRandom, vAddr, draw);
      var n := 0;
      while n < nNodes
        invariant 0 <= n <= nNodes == NodesToReturn(|vRandom|) <= |vRandom| == |old(vRandom)|
        invariant RandomOk(mapInfo, vRandom) && SameButRandomPos(old(mapInfo), mapInfo)
        invariant vRandom == Inspected(old(vRandom), draw, n)
        invariant HandedOut(mapInfo, vRandom, vAddr, vAddr', n)
      {
        var p := n + Drawn(draw, n, |vRandom| - n);
        ghost var before, rnd := mapInfo, vRandom;
        InspectedNext(old(vRandom), draw, n);
        SwapRandom(n, p);
        SameTwice(old(mapInfo), before, mapInfo);
        RandomIsKnown(mapInfo, vRandom, n);
        NextHandedOut(before, rnd, mapInfo, vRandom, vAddr, vAddr', n, p);
        vAddr' := vAddr' + [mapInfo[vRandom[n]].service];
        n := n + 1;
      }
      SameButPositions(old(mapInfo), mapInfo);
      SameLinksKeeps(o, old(mapInfo), mapInfo, mapAddr, old(vRandom), vRandom, vvTried, vvNew, nNew, nTried, nIdCount,
                     -1);
      DistinctHandedOut(mapInfo, mapAddr, vRandom, vAddr, vAddr', n);
      TablesOfValid();
    }

    lemma TablesOfValid()
      ensures Valid() <==> TablesOk(o, mapInfo, mapAddr, vRandom, vvTried, vvNew, nNew, nTried, nIdCount, -1)
    {
    }

    /** nId, already counted for bucket b, enters it; a full bucket first loses an entry,
        reported as `victim` (or -1). */
    method EnterBucket(nId: int, b: int, nNow: int, draw: nat -> nat) returns (ghost victim: int)
      requires ValidBut(nId) && nId in mapInfo && !mapInfo[nId].fInTried && 0 <= b < |vvNew| && nId !in vvNew[b]
      modifies this`mapInfo, this`mapAddr, this`vRandom, this`nNew, this`vvNew
      ensures Valid()
      ensures EnterStep(old(mapInfo), old(mapAddr), old(vvNew), old(nNew), mapInfo, mapAddr, vvNew, nNew, nId, b,
                        nNow, draw, victim)
    {
      victim := -1;
      EnterReady(o, mapInfo, mapAddr, vRandom, vvTried, vvNew, nNew, nTried, nIdCount, nId, b);
      hide TablesOk, RandomOk, AddrOk, TriedOk, NewOk, CountsOk, ReleaseStep, EnterStep, ShrinkChoice, IsVictim;
      if |vvNew[b]| == NEW_BUCKET_SIZE {
        var res;
        res, victim := ShrinkNew(b, nNow, draw, nId);
        VictimChosen(old(mapInfo), old(vvNew)[b], nNow, draw, res, victim);
        ReleaseKeepsOthers(old(mapInfo), old(mapAddr), old(vvNew), old(nNew), mapInfo, mapAddr, vvNew, nNew, victim, b,
                           nId);
        EnterAfterRelease(old(mapInfo), old(mapAddr), old(vvNew), old(nNew), mapInfo, mapAddr, vvNew, nNew, nId, b,
                          nNow, draw, victim);
      } else {
        EnterWithRoom(mapInfo, mapAddr, vvNew, nNew, nId, b, nNow, draw);
      }
      EnterTables(o, mapInfo, mapAddr, vRandom, vvTried, vvNew, nNew, nTried, nIdCount, nId, b);
      vvNew := vvNew[b := vvNew[b] + {nId}];
    }

    /** Adds an address that is not known yet. */
    method AddUnknown(addr: Address, source: NetAddr, nTimePenalty: int, nNow: int, draw: nat -> nat)
      returns (ghost victim: int)
      requires Valid() && addr.service.net !in mapAddr
      modifies this`nIdCount, this`mapInfo, this`mapAddr, this`vRandom, this`nNew, this`vvNew
      ensures Valid()
      ensures AddUnknownStep(o, old(mapInfo), old(mapAddr), |old(vRandom)|, old(vvNew), old(nNew), old(nIdCount), addr,
                             source, nTimePenalty, nNow, draw, mapInfo, mapAddr, vvNew, nNew, victim)
    {
      var nUBucket := o.NewBucket(addr.service, source);
      FreshIsOutside(mapInfo, vvNew, nIdCount, nUBucket);
      hide TablesOk, RandomOk, AddrOk, TriedOk, NewOk, CountsOk, EnterStep, FreshEntry;
      var nId := Create(addr, source, nTimePenalty);
      victim := EnterBucket(nId, nUBucket, nNow, draw);
    }

    /** An untried entry with a reference to spare enters bucket b. */
    method GainReference(nId: int, b: int, nNow: int, draw: nat -> nat) returns (ghost victim: int)
      requires Valid() && nId in mapInfo && !mapInfo[nId].fInTried && mapInfo[nId].nRefCount < NEW_BUCKETS_PER_ADDRESS
      requires 0 <= b < |vvNew| && nId !in vvNew[b]
      modifies this`mapInfo, this`mapAddr, this`vRandom, this`nNew, this`vvNew
      ensures Valid()
      ensures EnterStep(Counted(old(mapInfo), nId), old(mapAddr), old(vvNew), old(nNew), mapInfo, mapAddr, vvNew, nNew,
                        nId, b, nNow, draw, victim)
    {
      CountedTables(o, mapInfo, mapAddr, vRandom, vvTried, vvNew, nNew, nTried, nIdCount, nId);
      hide TablesOk, RandomOk, AddrOk, TriedOk, NewOk, CountsOk;
      mapInfo := mapInfo[nId := mapInfo[nId].(nRefCount := mapInfo[nId].nRefCount + 1)];
      victim := EnterBucket(nId, b, nNow, draw);
    }

    /** Refreshes an address that is known already; it may enter one more "new" bucket. */
    method AddKnown(nId: int, addr: Address, source: NetAddr, nTimePenalty: int, nNow: int, draw: nat -> nat)
      returns (ghost gained: bool, ghost victim: int)
      requires Valid() && nId in mapInfo
      modifies this`nIdCount, this`mapInfo, this`mapAddr, this`vRandom, this`nNew, this`vvNew
      ensures Valid()
      ensures AddKnownStep(o, old(mapInfo), old(mapAddr), old(vvNew), old(nNew), nId, addr, source, nTimePenalty, nNow,
                           draw, mapInfo, mapAddr, vvNew, nNew, gained, victim)
    {
      gained, victim := false, -1;
      assert |vvNew| == NEW_BUCKET_COUNT && -1 !in mapInfo;
      UpdateStats(nId, Refresh(mapInfo[nId], addr, nTimePenalty, nNow));
      if !MayGainReference(mapInfo, nId, addr.nTime) {
        return;
      }
      assert 1 <= mapInfo[nId].nRefCount < NEW_BUCKETS_PER_ADDRESS;
      var nFactor := Pow2(mapInfo[nId].nRefCount);
      if nFactor > 1 && Drawn(draw, 4, nFactor) != 0 {
        return;
      }
      var nUBucket := o.NewBucket(mapInfo[nId].service, source);
      if nId in vvNew[nUBucket] {
        return;
      }
      gained := true;
      victim := GainReference(nId, nUBucket, nNow, draw);
    }

    /** Learns an address: an unknown one enters the table, a known one is refreshed. */
    method Add_(addr: Address, source: NetAddr, nTimePenalty: int, nNow: int, draw: nat -> nat)
      returns (fNew: bool, ghost gained: bool, ghost victim: int)
      requires Valid()
      modifies this`nIdCount, this`mapInfo, this`mapAddr, this`vRandom, this`nNew, this`vvNew
      ensures Valid()
      ensures fNew <==> o.isRoutable(addr.service.net) && old(Find(addr.service.net)) == -1
      ensures o.isRoutable(addr.service.net) ==> Find(addr.service.net) != -1
      ensures if !o.isRoutable(addr.service.net) then
                mapInfo == old(mapInfo) && mapAddr == old(mapAddr) && vvNew == old(vvNew)
              else if fNew then
                AddUnknownStep(o, old(mapInfo), old(mapAddr), |old(vRandom)|, old(vvNew), old(nNew), old(nIdCount),
                               addr, source, nTimePenalty, nNow, draw, mapInfo, mapAddr, vvNew, nNew, victim)
              else
                AddKnownStep(o, old(mapInfo), old(mapAddr), old(vvNew), old(nNew), old(Find(addr.service.net)), addr,
                             source, nTimePenalty, nNow, draw, mapInfo, mapAddr, vvNew, nNew, gained, victim)
    {
      fNew, gained, victim := false, false, -1;
      if !o.isRoutable(addr.service.net) {
        return;
      }
      var nId := Find(addr.service.net);
      if nId != -1 {
        gained, victim := AddKnown(nId, addr, source, nTimePenalty, nNow, draw);
        assert nId in mapInfo && mapInfo[nId].service.net == addr.service.net;
      } else {
        nId := nIdCount;
        fNew := true;
        victim := AddUnknown(addr, source, nTimePenalty, nNow, draw);
        assert nId in mapInfo && mapInfo[nId].service.net == addr.service.net;
      }
    }

    /** The self-check: it passes exactly when the recorded times are sane. */
    method Check_() returns (r: int)
      requires Valid()
      ensures r == 0 <==> AddrCheck.TimesOk(mapInfo)
    {
      AddrCheck.TablesPass(o, mapInfo, mapAddr, vRandom, vvTried, vvNew, nNew, nTried, nIdCount);
      hide TablesOk, AddrCheck.Consistent, AddrCheck.TimesOk;
      r := AddrCheck.Check(mapInfo, mapAddr, vRandom, vvTried, vvNew, nNew, nTried);
    }

    /** The written form of the manager, and the ids behind its numbers. */
    method Serialize() returns (im: AddrDisk.Image, ghost newIds: seq<int>, ghost triedIds: seq<int>)
      requires Valid()
      ensures AddrDisk.Written(mapInfo, vvNew, im, newIds, triedIds) && AddrDisk.ImageOk(o, im)
    {
      hide TablesOk, AddrDisk.Written, AddrDisk.ImageOk;
      im, newIds, triedIds := AddrDisk.WriteImage(o, mapInfo, mapAddr, vRandom, vvTried, vvNew, nNew, nTried, nIdCount);
      AddrDisk.WrittenIsOk(o, mapInfo, mapAddr, vRandom, vvTried, vvNew, nNew, nTried, nIdCount, im, newIds, triedIds);
    }

    /** Rebuilds every table from any written form.  The result is consistent exactly when the form is
        readable, and has then the tables of what is kept of it. */
    method Unserialize(im: AddrDisk.Image) returns (nLost: int)
      requires AddrRead.Format(im)
      modifies this
      ensures nNew == im.nNew && nTried == im.nTried - nLost
      ensures nLost == |im.triedInfos| - |AddrRead.KeptTried(o, im.triedInfos)|
      ensures AddrRead.ReadState(o, im, mapInfo, mapAddr, vRandom, vvTried, vvNew)
      ensures Valid() <==> AddrRead.Readable(o, im)
      ensures Valid() ==>
              AddrDisk.Loaded(o, AddrRead.Kept(o, im), mapInfo, mapAddr, vRandom, vvTried, vvNew)
    {
      hide *;
      var info, addr, rnd, tried, news, n, t, c;
      info, addr, rnd, tried, news, n, t, c, nLost := AddrRead.ReadImage(o, im);
      mapInfo, mapAddr, vRandom, vvTried, vvNew := info, addr, rnd, tried, news;
      nNew, nTried, nIdCount := n, t, c;
      AddrRead.KeptParts(o, im);
      AddrRead.ReadExactly(o, im, info, addr, rnd, tried, news);
      ValidIs();
      if AddrRead.Readable(o, im) {
        AddrRead.ReadIsLoaded(o, im, info, addr, rnd, tried, news);
      }
    }

    lemma ValidIs()
      ensures Valid() <==>
              TablesOk(o, mapInfo, mapAddr, vRandom, vvTried, vvNew, nNew, nTried, nIdCount, -1)
    {
    }
  }

  /** Writes a manager and reads the result into a fresh one: it comes back consistent and the
      same up to ids, with nothing lost. */
  method SaveAndLoad(am: CAddrMan) returns (am': CAddrMan, nLost: int, ghost ren: map<int, int>)
    requires am.Valid()
    ensures fresh(am') && am'.o == am.o && am'.Valid() && nLost == 0
    ensures AddrDisk.SameUpToIds(am.mapInfo, am.vvTried, am.vvNew, am'.mapInfo, am'.vvTried, am'.vvNew, ren)
    ensures am'.nNew == am.nNew && am'.nTried == am.nTried
  {
    var im;
    ghost var newIds, triedIds;
    im, newIds, triedIds := am.Serialize();
    am' := new CAddrMan(am.o);
    AddrRead.KeptIsAll(am.o, im);
    nLost := am'.Unserialize(im);
    ren := AddrDisk.Renaming(am.mapInfo, newIds, triedIds);
    hide TablesOk, AddrDisk.Written, AddrDisk.EntriesAs, AddrDisk.BucketsAs, AddrDisk.SameUpToIds, AddrDisk.Renaming,
      AddrRead.Format, AddrRead.ReadState, AddrRead.Readable, AddrRead.KeptTried;
    AddrDisk.RoundTrip(am.o, am.mapInfo, am.mapAddr, am.vRandom, am.vvTried, am.vvNew, am.nNew, am.nTried, am.nIdCount,
                       im, newIds, triedIds, am'.mapInfo, am'.mapAddr, am'.vRandom, am'.vvTried, am'.vvNew);
  }
}
