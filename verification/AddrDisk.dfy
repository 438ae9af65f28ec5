/** The address manager on disk: what is written, and that reading it back gives the same up to ids. */
module AddrDisk {
  import opened AddrTables

  /** The written form: entries without their places, untried ones first, and for every "new"
      bucket the numbers of the entries in it. */
  datatype Image = Image(nNew: int, nTried: int, newInfos: seq<AddrInfo>, triedInfos: seq<AddrInfo>,
                         buckets: seq<seq<int>>)

  // ----- listing -----

  /** s lists a set, each element once. */
  ghost predicate Lists(s: seq<int>, t: set<int>) {
    Distinct(s) && forall x :: x in s <==> x in t
  }

  lemma {:induction false} ListLength(s: seq<int>, t: set<int>)
    requires Lists(s, t)
    ensures |s| == |t|
  {
    DistinctCard(s);
    forall x ensures x in Elements(s) <==> x in t {
    }
    assert Elements(s) == t;
  }

  lemma {:induction false} DistinctCard(s: seq<int>)
    requires Distinct(s)
    ensures |Elements(s)| == |s|
    decreases |s|
  {
    if s == [] {
      assert Elements(s) == {};
    } else {
      var t, x := s[..|s| - 1], s[|s| - 1];
      DistinctCard(t);
      assert Elements(s) == Elements(t) + {x} && x !in Elements(t);
    }
  }

  lemma {:induction false} AscendingLists(t: set<int>)
    ensures Lists(Ascending(t), t)
  {
  }

  /** The ids among the keys that are in the given table, in order. */
  ghost function Select(info: InfoMap, keys: seq<int>, tried: bool): seq<int> {
    if keys == [] then []
    else
      var id := keys[|keys| - 1];
      Select(info, keys[..|keys| - 1], tried) + if id in info && info[id].fInTried == tried then [id] else []
  }

  lemma {:induction false} SelectMembers(info: InfoMap, keys: seq<int>, tried: bool, x: int)
    ensures x in Select(info, keys, tried) <==> x in keys && x in info && info[x].fInTried == tried
    decreases |keys|
  {
    if keys != [] {
      SelectMembers(info, keys[..|keys| - 1], tried, x);
      assert keys == keys[..|keys| - 1] + [keys[|keys| - 1]];
    }
  }

  lemma {:induction false} SelectDistinct(info: InfoMap, keys: seq<int>, tried: bool)
    requires Distinct(keys)
    ensures Distinct(Select(info, keys, tried))
    decreases |keys|
  {
    if keys != [] {
      var before, id := keys[..|keys| - 1], keys[|keys| - 1];
      SelectDistinct(info, before, tried);
      SelectMembers(info, before, tried, id);
    }
  }

  /** All ids of one table, from all keys. */
  lemma {:induction false} SelectLists(info: InfoMap, keys: seq<int>, tried: bool)
    requires Lists(keys, info.Keys)
    ensures Lists(Select(info, keys, tried), if tried then Tried(info) else Untried(info))
  {
    SelectDistinct(info, keys, tried);
    forall x ensures x in Select(info, keys, tried) <==> x in (if tried then Tried(info) else Untried(info)) {
      SelectMembers(info, keys, tried, x);
    }
  }

  lemma {:induction false} SelectStep(info: InfoMap, keys: seq<int>, tried: bool, i: nat)
    requires i < |keys|
    ensures Select(info, keys[..i + 1], tried) ==
              Select(info, keys[..i], tried) + if keys[i] in info && info[keys[i]].fInTried == tried then [keys[i]]
                else []
  {
    assert keys[..i + 1][..i] == keys[..i];
  }

  lemma {:induction false} SelectPrefix(info: InfoMap, keys: seq<int>, tried: bool, i: nat)
    requires i <= |keys|
    ensures Select(info, keys[..i], tried) <= Select(info, keys, tried)
    decreases |keys| - i
  {
    if i < |keys| {
      SelectStep(info, keys, tried, i);
      SelectPrefix(info, keys, tried, i + 1);
    } else {
      assert keys[..i] == keys;
    }
  }

  /** Stopping once the expected number has been found stops with all of them. */
  lemma {:induction false} SelectedAll(info: InfoMap, keys: seq<int>, tried: bool, i: nat)
    requires i <= |keys| && Lists(keys, info.Keys)
    requires |Select(info, keys[..i], tried)| == |if tried then Tried(info) else Untried(info)| || i == |keys|
    ensures Select(info, keys[..i], tried) == Select(info, keys, tried)
  {
    SelectLists(info, keys, tried);
    ListLength(Select(info, keys, tried), if tried then Tried(info) else Untried(info));
    SelectPrefix(info, keys, tried, i);
    if i == |keys| {
      assert keys[..i] == keys;
    }
  }

  // ----- writing -----

  /** The entries of the listed ids, as written. */
  ghost predicate Persists(info: InfoMap, ids: seq<int>, infos: seq<AddrInfo>) {
    && |infos| == |ids|
    && forall k :: 0 <= k < |ids| ==> ids[k] in info && infos[k] == info[ids[k]].Persisted()
  }

  ghost predicate Numbers(m: map<int, int>, ids: seq<int>) {
    forall k :: 0 <= k < |ids| ==> ids[k] in m && m[ids[k]] == k
  }

  /** Writes the untried entries and numbers them. */
  method WriteNew(info: InfoMap, keys: seq<int>, nNew: int)
    returns (infos: seq<AddrInfo>, mapUnkIds: map<int, int>, ghost ids: seq<int>)
    requires Lists(keys, info.Keys) && nNew == |Untried(info)|
    requires forall id :: id in info ==> (info[id].nRefCount != 0 <==> !info[id].fInTried)
    ensures ids == Select(info, keys, false) && Persists(info, ids, infos) && Numbers(mapUnkIds, ids)
  {
    infos, mapUnkIds, ids := [], map[], [];
    var i := 0;
    assert Select(info, keys[..0], false) == [];
    while i < |keys|
      invariant 0 <= i <= |keys| && ids == Select(info, keys[..i], false)
      invariant Persists(info, ids, infos) && Numbers(mapUnkIds, ids)
    {
      if |infos| == nNew {
        break;
      }
      var id := keys[i];
      SelectStep(info, keys, false, i);
      SelectMembers(info, keys[..i], false, id);
      PrefixFresh(keys, i);
      hide Select, Lists;
      mapUnkIds := mapUnkIds[id := |infos|];
      if info[id].nRefCount != 0 {
        infos := infos + [info[id].Persisted()];
        ids := ids + [id];
      }
      i := i + 1;
    }
    SelectedAll(info, keys, false, i);
  }

  lemma {:induction false} PrefixFresh(keys: seq<int>, i: nat)
    requires Distinct(keys) && i < |keys|
    ensures keys[i] !in keys[..i]
  {
  }

  /** Writes the tried entries. */
  method WriteTried(info: InfoMap, keys: seq<int>, nTried: int) returns (infos: seq<AddrInfo>, ghost ids: seq<int>)
    requires Lists(keys, info.Keys) && nTried == |Tried(info)|
    ensures ids == Select(info, keys, true) && Persists(info, ids, infos)
  {
    infos, ids := [], [];
    var i := 0;
    assert Select(info, keys[..0], true) == [];
    while i < |keys|
      invariant 0 <= i <= |keys| && ids == Select(info, keys[..i], true) && Persists(info, ids, infos)
    {
      if |infos| == nTried {
        break;
      }
      var id := keys[i];
      SelectStep(info, keys, true, i);
      hide Select;
      if info[id].fInTried {
        infos := infos + [info[id].Persisted()];
        ids := ids + [id];
      }
      i := i + 1;
    }
    SelectedAll(info, keys, true, i);
  }

  /** One bucket as the numbers of its entries. */
  ghost predicate BucketWritten(bucket: seq<int>, vNew: set<int>, m: map<int, int>) {
    && |bucket| == |vNew| && (forall id :: id in vNew ==> id in m)
    && forall j :: 0 <= j < |bucket| ==> bucket[j] == m[Ascending(vNew)[j]]
  }

  method WriteBucket(vNew: set<int>, m: map<int, int>) returns (bucket: seq<int>)
    requires forall id :: id in vNew ==> id in m
    ensures BucketWritten(bucket, vNew, m)
  {
    var ids := Ascending(vNew);
    bucket := [];
    for j := 0 to |ids|
      invariant |bucket| == j && forall x :: 0 <= x < j ==> bucket[x] == m[ids[x]]
    {
      assert ids[j] in vNew;
      bucket := bucket + [m[ids[j]]];
    }
  }

  method WriteBuckets(vvNew: seq<set<int>>, m: map<int, int>) returns (buckets: seq<seq<int>>)
    requires forall b, id :: 0 <= b < |vvNew| && id in vvNew[b] ==> id in m
    ensures |buckets| == |vvNew| && forall b :: 0 <= b < |vvNew| ==> BucketWritten(buckets[b], vvNew[b], m)
  {
    buckets := [];
    for b := 0 to |vvNew|
      invariant |buckets| == b && forall c :: 0 <= c < b ==> BucketWritten(buckets[c], vvNew[c], m)
    {
      hide BucketWritten;
      var bucket := WriteBucket(vvNew[b], m);
      buckets := buckets + [bucket];
    }
  }

  // ----- a consistent image -----

  ghost predicate NetsDistinct(infos: seq<AddrInfo>) {
    forall i, j :: 0 <= i < j < |infos| ==> infos[i].service.net != infos[j].service.net
  }

  /** How many of the entries belong to tried bucket b. */
  function TriedCount(o: Oracle, infos: seq<AddrInfo>, b: int): nat {
    if infos == [] then 0
    else TriedCount(o, infos[..|infos| - 1], b) + if o.TriedBucket(infos[|infos| - 1].service) == b then 1 else 0
  }

  /** The buckets that list entry k. */
  function ListedIn(buckets: seq<seq<int>>, k: int): set<int> {
    set b | 0 <= b < |buckets| && k in buckets[b]
  }

  ghost predicate BucketsListed(im: Image) {
    && |im.buckets| == NEW_BUCKET_COUNT
    && (forall b :: 0 <= b < |im.buckets| ==> |im.buckets[b]| <= NEW_BUCKET_SIZE && Distinct(im.buckets[b]))
    && (forall b, k :: 0 <= b < |im.buckets| && k in im.buckets[b] ==> 0 <= k < im.nNew)
    && forall k :: 0 <= k < im.nNew ==> 1 <= |ListedIn(im.buckets, k)| <= NEW_BUCKETS_PER_ADDRESS
  }

  ghost predicate PersistedOnly(infos: seq<AddrInfo>) {
    forall k :: 0 <= k < |infos| ==> infos[k] == infos[k].Persisted()
  }

  ghost predicate ImageOk(o: Oracle, im: Image) {
    && |im.newInfos| == im.nNew && |im.triedInfos| == im.nTried
    && PersistedOnly(im.newInfos) && PersistedOnly(im.triedInfos)
    && NetsDistinct(im.newInfos + im.triedInfos)
    && (forall b :: 0 <= b < TRIED_BUCKET_COUNT ==> TriedCount(o, im.triedInfos, b) <= TRIED_BUCKET_SIZE)
    && BucketsListed(im)
  }

  // ----- what reading yields -----

  /** Entry id is the image's entry e, in the table it belongs to. */
  ghost predicate EntryAs(info: InfoMap, id: int, e: AddrInfo, tried: bool) {
    id in info && info[id].fInTried == tried && info[id].Persisted() == e && info[id].nLastTry == 0
  }

  /** The entries are the image's, numbered in its order. */
  ghost predicate EntriesAs(im: Image, info: InfoMap) {
    && (forall id :: id in info <==> 0 <= id < im.nNew + im.nTried)
    && (forall k :: 0 <= k < |im.newInfos| ==> EntryAs(info, k, im.newInfos[k], false))
    && forall k :: 0 <= k < |im.triedInfos| ==> EntryAs(info, im.nNew + k, im.triedInfos[k], true)
  }

  ghost predicate BucketsAs(im: Image, vvNew: seq<set<int>>) {
    |vvNew| == |im.buckets| && forall b :: 0 <= b < |vvNew| ==> vvNew[b] == Elements(im.buckets[b])
  }

  /** What reading an image yields. */
  ghost predicate Loaded(o: Oracle, im: Image, info: InfoMap, addr: map<NetAddr, int>, rnd: seq<int>,
                         vvTried: seq<seq<int>>, vvNew: seq<set<int>>)
  {
    && TablesOk(o, info, addr, rnd, vvTried, vvNew, im.nNew, im.nTried, im.nNew + im.nTried, -1)
    && EntriesAs(im, info) && BucketsAs(im, vvNew)
  }

  // ----- what was written is consistent -----

  /** The bucket lists exactly the numbers of the ids in the table's bucket. */
  ghost predicate BucketIs(bucket: seq<int>, vNew: set<int>, newIds: seq<int>) {
    && Distinct(bucket) && |bucket| == |vNew|
    && forall k :: k in bucket <==> 0 <= k < |newIds| && newIds[k] in vNew
  }

  lemma {:induction false} BucketNumbers(bucket: seq<int>, vNew: set<int>, m: map<int, int>, newIds: seq<int>)
    requires BucketWritten(bucket, vNew, m) && Numbers(m, newIds) && forall id :: id in vNew ==> id in newIds
    ensures BucketIs(bucket, vNew, newIds)
  {
    var asc := Ascending(vNew);
    forall j | 0 <= j < |bucket| ensures 0 <= bucket[j] < |newIds| && newIds[bucket[j]] == asc[j] {
      assert asc[j] in vNew;
      var k :| 0 <= k < |newIds| && newIds[k] == asc[j];
    }
    forall i, j | 0 <= i < j < |bucket| ensures bucket[i] != bucket[j] {
      assert asc[i] < asc[j];
    }
    forall k | 0 <= k < |newIds| && newIds[k] in vNew ensures k in bucket {
      var j :| 0 <= j < |asc| && asc[j] == newIds[k];
      assert bucket[j] == k;
    }
  }

  /** The image of a manager whose untried and tried ids are listed. */
  ghost predicate Written(info: InfoMap, vvNew: seq<set<int>>, im: Image, newIds: seq<int>, triedIds: seq<int>) {
    && Lists(newIds, Untried(info)) && Lists(triedIds, Tried(info))
    && Persists(info, newIds, im.newInfos) && Persists(info, triedIds, im.triedInfos)
    && im.nNew == |newIds| && im.nTried == |triedIds|
    && |im.buckets| == |vvNew| && forall b :: 0 <= b < |vvNew| ==> BucketIs(im.buckets[b], vvNew[b], newIds)
  }

  /** Writes the manager's tables. */
  method WriteImage(ghost o: Oracle, info: InfoMap, ghost addr: map<NetAddr, int>, ghost rnd: seq<int>,
                    ghost vvTried: seq<seq<int>>, vvNew: seq<set<int>>, nNew: int, nTried: int, ghost nIdCount: int)
    returns (im: Image, ghost newIds: seq<int>, ghost triedIds: seq<int>)
    requires TablesOk(o, info, addr, rnd, vvTried, vvNew, nNew, nTried, nIdCount, -1)
    ensures Written(info, vvNew, im, newIds, triedIds)
  {
    var keys := Ascending(info.Keys);
    AscendingLists(info.Keys);
    RefsTellTable(o, info, vvTried, vvNew);
    var newInfos, mapUnkIds, triedInfos;
    hide Select;
    newInfos, mapUnkIds, newIds := WriteNew(info, keys, nNew);
    triedInfos, triedIds := WriteTried(info, keys, nTried);
    SelectLists(info, keys, false);
    SelectLists(info, keys, true);
    ListLength(newIds, Untried(info));
    ListLength(triedIds, Tried(info));
    InBucketsIsListed(info, vvNew, newIds);
    hide Lists, BucketWritten, BucketIs, Persists;
    AllNumbered(vvNew, newIds, mapUnkIds);
    var buckets := WriteBuckets(vvNew, mapUnkIds);
    forall b | 0 <= b < |vvNew| ensures BucketIs(buckets[b], vvNew[b], newIds) {
      BucketNumbers(buckets[b], vvNew[b], mapUnkIds, newIds);
    }
    im := Image(nNew, nTried, newInfos, triedInfos, buckets);
  }

  lemma {:induction false} RefsTellTable(o: Oracle, info: InfoMap, vvTried: seq<seq<int>>, vvNew: seq<set<int>>)
    requires NewOk(info, vvNew, -1) && TriedOk(o, info, vvTried)
    ensures forall id :: id in info ==> (info[id].nRefCount != 0 <==> !info[id].fInTried)
  {
  }

  lemma {:induction false} InBucketsIsListed(info: InfoMap, vvNew: seq<set<int>>, newIds: seq<int>)
    requires NewOk(info, vvNew, -1) && Lists(newIds, Untried(info))
    ensures forall b, id :: 0 <= b < |vvNew| && id in vvNew[b] ==> id in newIds
  {
    forall b, id | 0 <= b < |vvNew| && id in vvNew[b] ensures id in newIds {
      assert id in Untried(info);
    }
  }

  lemma {:induction false} AllNumbered(vvNew: seq<set<int>>, newIds: seq<int>, m: map<int, int>)
    requires Numbers(m, newIds) && forall b, id :: 0 <= b < |vvNew| && id in vvNew[b] ==> id in newIds
    ensures forall b, id :: 0 <= b < |vvNew| && id in vvNew[b] ==> id in m
  {
    forall b, id | 0 <= b < |vvNew| && id in vvNew[b] ensures id in m {
      assert id in newIds;
      var k :| 0 <= k < |newIds| && newIds[k] == id;
    }
  }

  /** Different ids have different addresses. */
  lemma {:induction false} WrittenNets(info: InfoMap, addr: map<NetAddr, int>, vvNew: seq<set<int>>, im: Image,
                                       newIds: seq<int>, triedIds: seq<int>)
    requires AddrOk(info, addr) && Written(info, vvNew, im, newIds, triedIds)
    ensures NetsDistinct(im.newInfos + im.triedInfos)
  {
    var all, ids := im.newInfos + im.triedInfos, newIds + triedIds;
    forall i | 0 <= i < |all| ensures ids[i] in info && all[i].service.net == info[ids[i]].service.net {
    }
    forall i, j | 0 <= i < j < |all| ensures ids[i] != ids[j] {
      if i < |newIds| <= j {
        assert newIds[i] in newIds && triedIds[j - |newIds|] in triedIds;
      }
    }
    hide Written;
  }

  /** The listed tried ids of one bucket. */
  ghost function OfBucket(o: Oracle, info: InfoMap, ids: seq<int>, b: int): set<int> {
    set id | id in ids && id in info && o.TriedBucket(info[id].service) == b
  }

  lemma {:induction false} OfBucketStep(o: Oracle, info: InfoMap, ids: seq<int>, id: int, b: int)
    requires id in info && id !in ids
    ensures var before := OfBucket(o, info, ids, b);
            && id !in before
            && OfBucket(o, info, ids + [id], b) == if o.TriedBucket(info[id].service) == b then before + {id}
               else before
  {
    var before := OfBucket(o, info, ids, b);
    var after := if o.TriedBucket(info[id].service) == b then before + {id} else before;
    forall x ensures x in OfBucket(o, info, ids + [id], b) <==> x in after {
      assert x in ids + [id] <==> x in ids || x == id;
    }
    assert OfBucket(o, info, ids + [id], b) == after;
  }

  lemma {:induction false} CountOfBucket(o: Oracle, info: InfoMap, ids: seq<int>, infos: seq<AddrInfo>, b: int)
    requires Persists(info, ids, infos) && Distinct(ids)
    ensures TriedCount(o, infos, b) == |OfBucket(o, info, ids, b)|
    decreases |ids|
  {
    if ids == [] {
      assert OfBucket(o, info, ids, b) == {};
    } else {
      var n := |ids| - 1;
      var id := ids[n];
      CountOfBucket(o, info, ids[..n], infos[..n], b);
      assert ids == ids[..n] + [id];
      assert id !in ids[..n] && infos[n].service == info[id].service;
      hide Persists, Distinct, OfBucket;
      OfBucketStep(o, info, ids[..n], id, b);
    }
  }

  lemma {:induction false} WrittenFits(o: Oracle, info: InfoMap, vvTried: seq<seq<int>>, vvNew: seq<set<int>>,
                                       im: Image, newIds: seq<int>, triedIds: seq<int>, b: int)
    requires TriedOk(o, info, vvTried) && Written(info, vvNew, im, newIds, triedIds) && 0 <= b < TRIED_BUCKET_COUNT
    ensures TriedCount(o, im.triedInfos, b) <= TRIED_BUCKET_SIZE
  {
    CountOfBucket(o, info, triedIds, im.triedInfos, b);
    forall id | id in OfBucket(o, info, triedIds, b) ensures id in Elements(vvTried[b]) {
      assert id in Tried(info);
    }
    SubsetCard(OfBucket(o, info, triedIds, b), Elements(vvTried[b]));
    ElementsCard(vvTried[b]);
  }

  /** The buckets that list an entry are those that hold its id. */
  lemma {:induction false} WrittenHolders(info: InfoMap, vvNew: seq<set<int>>, im: Image, newIds: seq<int>,
                                          triedIds: seq<int>, k: int)
    requires Written(info, vvNew, im, newIds, triedIds) && 0 <= k < |newIds|
    ensures ListedIn(im.buckets, k) == Holders(vvNew, newIds[k])
  {
    forall b ensures b in ListedIn(im.buckets, k) <==> b in Holders(vvNew, newIds[k]) {
      if 0 <= b < |vvNew| {
        assert BucketIs(im.buckets[b], vvNew[b], newIds);
      }
    }
  }

  lemma {:induction false} WrittenBuckets(info: InfoMap, vvNew: seq<set<int>>, im: Image, newIds: seq<int>,
                                          triedIds: seq<int>)
    requires NewOk(info, vvNew, -1) && Written(info, vvNew, im, newIds, triedIds) && forall id :: id in info ==> id >= 0
    ensures BucketsListed(im)
  {
    forall b | 0 <= b < |im.buckets| ensures |im.buckets[b]| <= NEW_BUCKET_SIZE && Distinct(im.buckets[b]) {
      assert BucketIs(im.buckets[b], vvNew[b], newIds);
    }
    forall b, k | 0 <= b < |im.buckets| && k in im.buckets[b] ensures 0 <= k < im.nNew {
      assert BucketIs(im.buckets[b], vvNew[b], newIds);
    }
    forall k | 0 <= k < im.nNew ensures 1 <= |ListedIn(im.buckets, k)| <= NEW_BUCKETS_PER_ADDRESS {
      WrittenHolders(info, vvNew, im, newIds, triedIds, k);
      assert newIds[k] in Untried(info);
    }
  }

  /** What a consistent manager writes is a consistent image. */
  lemma {:induction false} WrittenIsOk(o: Oracle, info: InfoMap, addr: map<NetAddr, int>, rnd: seq<int>,
                                       vvTried: seq<seq<int>>, vvNew: seq<set<int>>, nNew: int, nTried: int,
                                       nIdCount: int, im: Image, newIds: seq<int>, triedIds: seq<int>)
    requires TablesOk(o, info, addr, rnd, vvTried, vvNew, nNew, nTried, nIdCount, -1) &&
             Written(info, vvNew, im, newIds, triedIds)
    ensures ImageOk(o, im)
  {
    assert forall id :: id in info ==> id >= 0;
    hide RandomOk, AddrOk, NewOk, TriedOk, CountsOk, Written, NetsDistinct, BucketsListed, TriedCount;
    WrittenNets(info, addr, vvNew, im, newIds, triedIds);
    WrittenBuckets(info, vvNew, im, newIds, triedIds);
    forall b | 0 <= b < TRIED_BUCKET_COUNT ensures TriedCount(o, im.triedInfos, b) <= TRIED_BUCKET_SIZE {
      WrittenFits(o, info, vvTried, vvNew, im, newIds, triedIds, b);
    }
    WrittenLengths(info, vvNew, im, newIds, triedIds);
  }

  lemma {:induction false} WrittenLengths(info: InfoMap, vvNew: seq<set<int>>, im: Image, newIds: seq<int>,
                                          triedIds: seq<int>)
    requires Written(info, vvNew, im, newIds, triedIds)
    ensures |im.newInfos| == im.nNew && |im.triedInfos| == im.nTried && PersistedOnly(im.newInfos) &&
            PersistedOnly(im.triedInfos)
  {
  }

  // ----- the round trip -----

  function Index(s: seq<int>, x: int): (i: int)
    requires x in s
    ensures 0 <= i < |s| && s[i] == x
  {
    if s[0] == x then 0 else 1 + Index(s[1..], x)
  }

  /** The number that reading gives to an id. */
  function NewId(newIds: seq<int>, triedIds: seq<int>, id: int): int {
    if id in newIds then Index(newIds, id) else if id in triedIds then |newIds| + Index(triedIds, id) else -1
  }

  /** The two managers hold the same addresses under other ids: ren maps the ids of the first
      one to one onto those of the second; entries agree in what is written of them, in their
      table and their number of references, and have forgotten the last try; and corresponding
      ids are in the same buckets. */
  ghost predicate SameUpToIds(info: InfoMap, vvTried: seq<seq<int>>, vvNew: seq<set<int>>,
                              info': InfoMap, vvTried': seq<seq<int>>, vvNew': seq<set<int>>, ren: map<int, int>)
  {
    && OneToOne(ren) && Onto(ren, info') && SameEntries(info, info', ren)
    && SameNewBuckets(vvNew, vvNew', ren) && SameTriedBuckets(vvTried, vvTried', ren)
  }

  ghost predicate SameEntries(info: InfoMap, info': InfoMap, ren: map<int, int>) {
    ren.Keys == info.Keys && forall x :: x in ren ==> SameEntry(info, info', x, ren[x])
  }

  ghost predicate SameNewBuckets(vvNew: seq<set<int>>, vvNew': seq<set<int>>, ren: map<int, int>) {
    && |vvNew'| == |vvNew|
    && forall b, x :: 0 <= b < |vvNew| && x in ren ==> (ren[x] in vvNew'[b] <==> x in vvNew[b])
  }

  ghost predicate SameTriedBuckets(vvTried: seq<seq<int>>, vvTried': seq<seq<int>>, ren: map<int, int>) {
    && |vvTried'| == |vvTried|
    && forall b, x :: 0 <= b < |vvTried| && x in ren ==> (ren[x] in vvTried'[b] <==> x in vvTried[b])
  }

  ghost predicate OneToOne(ren: map<int, int>) {
    forall x, y :: x in ren && y in ren && x != y ==> ren[x] != ren[y]
  }

  ghost predicate Onto(ren: map<int, int>, info': InfoMap) {
    forall z :: z in info' <==> exists x :: x in ren && ren[x] == z
  }

  ghost predicate SameEntry(info: InfoMap, info': InfoMap, x: int, z: int) {
    && x in info && z in info' && info'[z].Persisted() == info[x].Persisted()
    && info'[z].fInTried == info[x].fInTried && info'[z].nRefCount == info[x].nRefCount && info'[z].nLastTry == 0
  }

  lemma {:induction false} IndexAt(s: seq<int>, k: int)
    requires Distinct(s) && 0 <= k < |s|
    ensures s[k] in s && Index(s, s[k]) == k
  {
    var i := Index(s, s[k]);
    hide Index;
  }

  /** The renaming that writing and reading amounts to. */
  function Renaming(info: InfoMap, newIds: seq<int>, triedIds: seq<int>): map<int, int> {
    map id | id in info :: NewId(newIds, triedIds, id)
  }

  /** An id of the manager and its number. */
  lemma {:induction false} NewIdOf(info: InfoMap, vvNew: seq<set<int>>, im: Image, newIds: seq<int>, triedIds: seq<int>,
                                   x: int)
    requires Written(info, vvNew, im, newIds, triedIds) && x in info
    ensures var z := NewId(newIds, triedIds, x);
            && 0 <= z < im.nNew + im.nTried && im.nNew == |newIds| && im.nTried == |triedIds|
            && if info[x].fInTried then im.nNew <= z && triedIds[z - im.nNew] == x else z < im.nNew && newIds[z] == x
  {
    assert x in (if info[x].fInTried then Tried(info) else Untried(info));
    assert x in Untried(info) <==> !info[x].fInTried;
  }

  /** The id behind a number. */
  lemma {:induction false} NumberOf(info: InfoMap, vvNew: seq<set<int>>, im: Image, newIds: seq<int>,
                                    triedIds: seq<int>, z: int) returns (x: int)
    requires Written(info, vvNew, im, newIds, triedIds) && 0 <= z < im.nNew + im.nTried
    ensures x in info && NewId(newIds, triedIds, x) == z
  {
    x := if z < im.nNew then newIds[z] else triedIds[z - im.nNew];
    if z < im.nNew {
      IndexAt(newIds, z);
      assert newIds[z] in Untried(info);
    } else {
      IndexAt(triedIds, z - im.nNew);
      assert triedIds[z - im.nNew] in Tried(info);
      assert triedIds[z - im.nNew] !in Untried(info);
    }
  }

  lemma {:induction false} RenamingIsOneToOne(info: InfoMap, vvNew: seq<set<int>>, im: Image, newIds: seq<int>,
                                              triedIds: seq<int>)
    requires Written(info, vvNew, im, newIds, triedIds)
    ensures OneToOne(Renaming(info, newIds, triedIds))
  {
    forall x, y | x in info && y in info && x != y ensures NewId(newIds, triedIds, x) != NewId(newIds, triedIds, y) {
      NewIdOf(info, vvNew, im, newIds, triedIds, x);
      NewIdOf(info, vvNew, im, newIds, triedIds, y);
      hide NewId, Written;
    }
  }

  lemma {:induction false} RenamingIsOnto(info: InfoMap, vvNew: seq<set<int>>, im: Image, newIds: seq<int>,
                                          triedIds: seq<int>, info': InfoMap)
    requires Written(info, vvNew, im, newIds, triedIds) && EntriesAs(im, info')
    ensures Onto(Renaming(info, newIds, triedIds), info')
  {
    var ren := Renaming(info, newIds, triedIds);
    hide NewId, Written, EntryAs;
    forall z | z in info' ensures exists x :: x in ren && ren[x] == z {
      var x := NumberOf(info, vvNew, im, newIds, triedIds, z);
      assert x in ren && ren[x] == z;
    }
    forall x | x in ren ensures ren[x] in info' {
      NewIdOf(info, vvNew, im, newIds, triedIds, x);
    }
  }

  /** An id is in a bucket as read exactly when it was in the bucket as written. */
  lemma {:induction false} SameNewBucket(info: InfoMap, vvNew: seq<set<int>>, im: Image, newIds: seq<int>,
                                         triedIds: seq<int>, vvNew': seq<set<int>>, x: int, b: int)
    requires Written(info, vvNew, im, newIds, triedIds) && NewOk(info, vvNew, -1) && BucketsAs(im, vvNew')
    requires x in info && 0 <= b < |vvNew|
    ensures |vvNew'| == |vvNew| && (NewId(newIds, triedIds, x) in vvNew'[b] <==> x in vvNew[b])
  {
    NewIdOf(info, vvNew, im, newIds, triedIds, x);
    assert BucketIs(im.buckets[b], vvNew[b], newIds);
    hide Written, NewId;
  }

  /** The entry behind a number is the one that was written. */
  lemma {:induction false} SameFields(info: InfoMap, vvNew: seq<set<int>>, im: Image, newIds: seq<int>,
                                      triedIds: seq<int>, info': InfoMap, x: int)
    requires Written(info, vvNew, im, newIds, triedIds) && EntriesAs(im, info') && x in info
    ensures var z := NewId(newIds, triedIds, x);
            z in info' && info'[z].fInTried == info[x].fInTried && info'[z].Persisted() == info[x].Persisted() &&
              info'[z].nLastTry == 0
  {
    NewIdOf(info, vvNew, im, newIds, triedIds, x);
    var z := NewId(newIds, triedIds, x);
    hide NewId;
    if info[x].fInTried {
      assert EntryAs(info', im.nNew + (z - im.nNew), im.triedInfos[z - im.nNew], true);
    } else {
      assert EntryAs(info', z, im.newInfos[z], false);
    }
  }

  lemma {:induction false} SameRefs(o: Oracle, info: InfoMap, vvTried: seq<seq<int>>, vvNew: seq<set<int>>,
                                    info': InfoMap, vvTried': seq<seq<int>>, vvNew': seq<set<int>>, x: int, z: int)
    requires NewOk(info, vvNew, -1) && TriedOk(o, info, vvTried) && NewOk(info', vvNew', -1) &&
             TriedOk(o, info', vvTried')
    requires x in info && z in info' && info'[z].fInTried == info[x].fInTried && x != -1 && z != -1
    requires |vvNew'| == |vvNew| && forall b :: 0 <= b < |vvNew| ==> (z in vvNew'[b] <==> x in vvNew[b])
    ensures info'[z].nRefCount == info[x].nRefCount
  {
    forall b ensures b in Holders(vvNew', z) <==> b in Holders(vvNew, x) {
    }
    assert Holders(vvNew', z) == Holders(vvNew, x);
  }

  lemma {:induction false} SameEntryRead(o: Oracle, info: InfoMap, vvTried: seq<seq<int>>, vvNew: seq<set<int>>,
                                         im: Image, newIds: seq<int>, triedIds: seq<int>, info': InfoMap,
                                         vvTried': seq<seq<int>>, vvNew': seq<set<int>>, x: int)
    requires Written(info, vvNew, im, newIds, triedIds) && EntriesAs(im, info') && BucketsAs(im, vvNew')
    requires NewOk(info, vvNew, -1) && TriedOk(o, info, vvTried) && NewOk(info', vvNew', -1) &&
             TriedOk(o, info', vvTried')
    requires x in info && x >= 0
    ensures SameEntry(info, info', x, NewId(newIds, triedIds, x))
  {
    hide Written, EntriesAs, BucketsAs, NewOk, TriedOk;
    var z := NewId(newIds, triedIds, x);
    SameFields(info, vvNew, im, newIds, triedIds, info', x);
    NewIdOf(info, vvNew, im, newIds, triedIds, x);
    LengthsKept(im, info, vvNew, newIds, triedIds, vvNew');
    hide NewId;
    forall b | 0 <= b < |vvNew| ensures z in vvNew'[b] <==> x in vvNew[b] {
      SameNewBucket(info, vvNew, im, newIds, triedIds, vvNew', x, b);
    }
    SameRefs(o, info, vvTried, vvNew, info', vvTried', vvNew', x, z);
  }

  lemma {:induction false} LengthsKept(im: Image, info: InfoMap, vvNew: seq<set<int>>, newIds: seq<int>,
                                       triedIds: seq<int>, vvNew': seq<set<int>>)
    requires Written(info, vvNew, im, newIds, triedIds) && BucketsAs(im, vvNew')
    ensures |vvNew'| == |vvNew|
  {
  }

  lemma {:induction false} AllEntriesRead(o: Oracle, info: InfoMap, vvTried: seq<seq<int>>, vvNew: seq<set<int>>,
                                          nNew: int, nTried: int, nIdCount: int, im: Image, newIds: seq<int>,
                                          triedIds: seq<int>, info': InfoMap, vvTried': seq<seq<int>>,
                                          vvNew': seq<set<int>>)
    requires Written(info, vvNew, im, newIds, triedIds) && EntriesAs(im, info') && BucketsAs(im, vvNew') &&
             CountsOk(info, nNew, nTried, nIdCount)
    requires NewOk(info, vvNew, -1) && TriedOk(o, info, vvTried) && NewOk(info', vvNew', -1) &&
             TriedOk(o, info', vvTried')
    ensures SameEntries(info, info', Renaming(info, newIds, triedIds))
  {
    hide Written, EntriesAs, BucketsAs, NewOk, TriedOk, SameEntry, NewId, CountsOk;
    forall x | x in info ensures SameEntry(info, info', x, NewId(newIds, triedIds, x)) {
      IdIsNumber(info, nNew, nTried, nIdCount, x);
      SameEntryRead(o, info, vvTried, vvNew, im, newIds, triedIds, info', vvTried', vvNew', x);
    }
  }

  /** Tried buckets are determined by the addresses alone. */
  lemma {:induction false} SameTriedBucket(o: Oracle, info: InfoMap, vvTried: seq<seq<int>>, info': InfoMap,
                                           vvTried': seq<seq<int>>, x: int, z: int, b: int)
    requires TriedOk(o, info, vvTried) && TriedOk(o, info', vvTried') && SameEntry(info, info', x, z) &&
             0 <= b < |vvTried|
    ensures |vvTried'| == |vvTried| && (z in vvTried'[b] <==> x in vvTried[b])
  {
    assert info'[z].service == info[x].service;
  }

  lemma {:induction false} NewBucketsRead(info: InfoMap, vvNew: seq<set<int>>, im: Image, newIds: seq<int>,
                                          triedIds: seq<int>, vvNew': seq<set<int>>)
    requires Written(info, vvNew, im, newIds, triedIds) && NewOk(info, vvNew, -1) && BucketsAs(im, vvNew')
    ensures SameNewBuckets(vvNew, vvNew', Renaming(info, newIds, triedIds))
  {
    LengthsKept(im, info, vvNew, newIds, triedIds, vvNew');
    hide Written, NewOk, BucketsAs, NewId;
    forall b, x | 0 <= b < |vvNew| && x in info ensures NewId(newIds, triedIds, x) in vvNew'[b] <==> x in vvNew[b] {
      SameNewBucket(info, vvNew, im, newIds, triedIds, vvNew', x, b);
    }
  }

  lemma {:induction false} TriedBucketsRead(o: Oracle, info: InfoMap, vvTried: seq<seq<int>>, info': InfoMap,
                                            vvTried': seq<seq<int>>, newIds: seq<int>, triedIds: seq<int>)
    requires TriedOk(o, info, vvTried) && TriedOk(o, info', vvTried')
    requires SameEntries(info, info', Renaming(info, newIds, triedIds))
    ensures SameTriedBuckets(vvTried, vvTried', Renaming(info, newIds, triedIds))
  {
    assert |vvTried'| == |vvTried|;
    hide TriedOk, NewId, SameEntry, Renaming;
    var ren := Renaming(info, newIds, triedIds);
    forall b, x | 0 <= b < |vvTried| && x in ren ensures ren[x] in vvTried'[b] <==> x in vvTried[b] {
      SameTriedBucket(o, info, vvTried, info', vvTried', x, ren[x], b);
    }
  }

  lemma {:induction false} IdIsNumber(info: InfoMap, nNew: int, nTried: int, nIdCount: int, x: int)
    requires CountsOk(info, nNew, nTried, nIdCount) && x in info
    ensures x >= 0
  {
  }

  lemma {:induction false} WrittenCounts(info: InfoMap, vvNew: seq<set<int>>, im: Image, newIds: seq<int>,
                                         triedIds: seq<int>, nNew: int, nTried: int, nIdCount: int)
    requires Written(info, vvNew, im, newIds, triedIds) && CountsOk(info, nNew, nTried, nIdCount)
    ensures im.nNew == nNew && im.nTried == nTried
  {
    ListLength(newIds, Untried(info));
    ListLength(triedIds, Tried(info));
  }

  /** Writing a consistent manager and building the tables from what was written yields the
      same manager up to ids. */
  lemma {:induction false} RoundTrip(o: Oracle, info: InfoMap, addr: map<NetAddr, int>, rnd: seq<int>,
                                     vvTried: seq<seq<int>>, vvNew: seq<set<int>>, nNew: int, nTried: int,
                                     nIdCount: int, im: Image, newIds: seq<int>, triedIds: seq<int>, info': InfoMap,
                                     addr': map<NetAddr, int>, rnd': seq<int>, vvTried': seq<seq<int>>,
                                     vvNew': seq<set<int>>)
    requires TablesOk(o, info, addr, rnd, vvTried, vvNew, nNew, nTried, nIdCount, -1) &&
             Written(info, vvNew, im, newIds, triedIds)
    requires Loaded(o, im, info', addr', rnd', vvTried', vvNew')
    ensures SameUpToIds(info, vvTried, vvNew, info', vvTried', vvNew', Renaming(info, newIds, triedIds))
    ensures im.nNew == nNew && im.nTried == nTried
  {
    WrittenCounts(info, vvNew, im, newIds, triedIds, nNew, nTried, nIdCount);
    hide RandomOk, AddrOk, CountsOk, Written, EntriesAs, BucketsAs, NewOk, TriedOk, Renaming, OneToOne, Onto,
      SameEntries, SameNewBuckets, SameTriedBuckets;
    RenamingIsOneToOne(info, vvNew, im, newIds, triedIds);
    RenamingIsOnto(info, vvNew, im, newIds, triedIds, info');
    NewBucketsRead(info, vvNew, im, newIds, triedIds, vvNew');
    AllEntriesRead(o, info, vvTried, vvNew, nNew, nTried, nIdCount, im, newIds, triedIds, info', vvTried', vvNew');
    TriedBucketsRead(o, info, vvTried, info', vvTried', newIds, triedIds);
  }
}
