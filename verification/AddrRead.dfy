/** Reading an address manager from disk.  Any image is read, also one that this program did not
    write: tried buckets that overflow lose entries, references beyond the fourth are dropped, and
    with another number of "new" buckets every entry goes to its home bucket. */
module AddrRead {
  import opened AddrTables
  import opened AddrDisk

  // ----- what is kept of an image -----

  /** The file has as many entries as its counters say; what is not written has its default. */
  ghost predicate Format(im: Image) {
    && |im.newInfos| == (if im.nNew < 0 then 0 else im.nNew)
    && |im.triedInfos| == (if im.nTried < 0 then 0 else im.nTried)
    && PersistedOnly(im.newInfos) && PersistedOnly(im.triedInfos) && |im.buckets| <= NEW_BUCKET_COUNT
  }

  /** The image was written with the present number of "new" buckets. */
  predicate SameCount(im: Image) {
    |im.buckets| == NEW_BUCKET_COUNT
  }

  /** The tried entries that find room in their buckets. */
  function KeptTried(o: Oracle, infos: seq<AddrInfo>): seq<AddrInfo> {
    if infos == [] then []
    else
      var kept, e := KeptTried(o, infos[..|infos| - 1]), infos[|infos| - 1];
      if TriedCount(o, kept, o.TriedBucket(e.service)) < TRIED_BUCKET_SIZE then kept + [e] else kept
  }

  /** How often the buckets name x. */
  function Refs(buckets: seq<seq<int>>, x: int): nat {
    if buckets == [] then 0
    else Refs(buckets[..|buckets| - 1], x) + multiset(buckets[|buckets| - 1])[x]
  }

  /** The part of a bucket that is kept after other buckets: of every number the first four names. */
  function KeptBucket(before: seq<seq<int>>, bucket: seq<int>): seq<int> {
    if bucket == [] then []
    else
      var kept, x := KeptBucket(before, bucket[..|bucket| - 1]), bucket[|bucket| - 1];
      if Refs(before, x) + multiset(kept)[x] < NEW_BUCKETS_PER_ADDRESS then kept + [x] else kept
  }

  function KeptBuckets(buckets: seq<seq<int>>): (kept: seq<seq<int>>)
    ensures |kept| == |buckets|
  {
    if buckets == [] then []
    else
      var kept := KeptBuckets(buckets[..|buckets| - 1]);
      kept + [KeptBucket(kept, buckets[|buckets| - 1])]
  }

  /** Every untried entry in the bucket of its own address and source. */
  function HomeBuckets(o: Oracle, infos: seq<AddrInfo>): (home: seq<seq<int>>)
    ensures |home| == NEW_BUCKET_COUNT
  {
    if infos == [] then seq(NEW_BUCKET_COUNT, _ => [])
    else
      var n := |infos| - 1;
      var home, c := HomeBuckets(o, infos[..n]), o.NewBucket(infos[n].service, infos[n].source);
      home[c := home[c] + [n]]
  }

  /** The image that reading goes by. */
  function Kept(o: Oracle, im: Image): Image {
    var tried := KeptTried(o, im.triedInfos);
    Image(im.nNew, im.nTried - (|im.triedInfos| - |tried|), im.newInfos, tried,
          if SameCount(im) then KeptBuckets(im.buckets) else HomeBuckets(o, im.newInfos))
  }

  /** Every number in the file is that of an entry. */
  ghost predicate NumbersExist(o: Oracle, im: Image) {
    forall b, x :: 0 <= b < |im.buckets| && x in im.buckets[b] ==> 0 <= x < im.nNew + |KeptTried(o, im.triedInfos)|
  }

  /** What is kept of the image is consistent, and every number is that of an entry. */
  ghost predicate Readable(o: Oracle, im: Image) {
    ImageOk(o, Kept(o, im)) && NumbersExist(o, im)
  }

  // ----- the entries as read -----

  /** An entry made up for a number that no entry has. */
  const BLANK := AddrInfo(Service(NetAddr(0), 0), 1, 100000000, 0, NetAddr(0), 0, 0, 0, false, -1)

  predicate IsPlaced(im: Image, kept: seq<AddrInfo>, id: int) {
    0 <= id < |im.newInfos| || im.nNew <= id < im.nNew + |kept|
  }

  /** The entry that gets an id, but for its references. */
  function Origin(im: Image, kept: seq<AddrInfo>, id: int): AddrInfo {
    if 0 <= id < |im.newInfos| then im.newInfos[id].(nRandomPos := id)
    else if im.nNew <= id < im.nNew + |kept| then
      kept[id - im.nNew].(nRandomPos := |im.newInfos| + (id - im.nNew), fInTried := true)
    else BLANK
  }

  /** The entries read so far, and those made up for numbers named so far, with their references. */
  ghost predicate EntriesAre(im: Image, kept: seq<AddrInfo>, named: seq<seq<int>>, buckets: seq<seq<int>>,
                             info: InfoMap)
  {
    && (forall id :: id in info <==> IsPlaced(im, kept, id) || Refs(named, id) > 0)
    && forall id :: id in info ==> info[id] == Origin(im, kept, id).(nRefCount := Refs(buckets, id))
  }

  /** The address map leads from every address to an entry that has it. */
  ghost predicate Covers(info: InfoMap, addr: map<NetAddr, int>, n: int, base: int, m: int) {
    && (forall a :: a in addr ==>
        addr[a] in info && info[addr[a]].service.net == a && (0 <= addr[a] < n || base <= addr[a] < base + m))
    && forall id :: id in info && (0 <= id < n || base <= id < base + m) ==> info[id].service.net in addr
  }

  ghost predicate RandomIs(im: Image, m: nat, rnd: seq<int>) {
    && |rnd| == |im.newInfos| + m
    && forall i :: 0 <= i < |rnd| ==> rnd[i] == if i < |im.newInfos| then i else im.nNew + (i - |im.newInfos|)
  }

  /** The tried buckets hold the kept entries, numbered from base on. */
  ghost predicate TriedFiled(o: Oracle, base: int, kept: seq<AddrInfo>, vvTried: seq<seq<int>>) {
    && |vvTried| == TRIED_BUCKET_COUNT
    && (forall c :: 0 <= c < |vvTried| ==> |vvTried[c]| == TriedCount(o, kept, c) <= TRIED_BUCKET_SIZE)
    && (forall c :: 0 <= c < |vvTried| ==> Distinct(vvTried[c]))
    && forall c, id :: 0 <= c < |vvTried| ==>
         (id in vvTried[c] <==> base <= id < base + |kept| && o.TriedBucket(kept[id - base].service) == c)
  }

  ghost predicate BucketsAre(buckets: seq<seq<int>>, vvNew: seq<set<int>>) {
    && |vvNew| == NEW_BUCKET_COUNT
    && forall c :: 0 <= c < |vvNew| ==> vvNew[c] == if c < |buckets| then Elements(buckets[c]) else {}
  }

  // ----- untried entries -----

  lemma {:induction false} RefsAdd(buckets: seq<seq<int>>, c: nat, x: int, id: int)
    requires c < |buckets|
    ensures Refs(buckets[c := buckets[c] + [x]], id) == Refs(buckets, id) + if id == x then 1 else 0
    decreases |buckets|
  {
    var m := |buckets| - 1;
    var after := buckets[c := buckets[c] + [x]];
    if c < m {
      assert after[..m] == buckets[..m][c := buckets[..m][c] + [x]];
      RefsAdd(buckets[..m], c, x, id);
    } else {
      assert after[..m] == buckets[..m];
    }
  }

  lemma {:induction false} RefsNone(buckets: seq<seq<int>>, id: int)
    requires forall c :: 0 <= c < |buckets| ==> buckets[c] == []
    ensures Refs(buckets, id) == 0
    decreases |buckets|
  {
    if buckets != [] {
      RefsNone(buckets[..|buckets| - 1], id);
    }
  }

  /** The buckets of the first n untried entries, as far as they are filled while these are read. */
  ghost function Early(o: Oracle, im: Image, n: nat): seq<seq<int>>
    requires n <= |im.newInfos|
  {
    if SameCount(im) then [] else HomeBuckets(o, im.newInfos[..n])
  }

  lemma {:induction false} EarlyStep(o: Oracle, im: Image, n: nat)
    requires n < |im.newInfos| && !SameCount(im)
    ensures var c := o.NewBucket(im.newInfos[n].service, im.newInfos[n].source);
            Early(o, im, n + 1) == Early(o, im, n)[c := Early(o, im, n)[c] + [n]]
  {
    assert im.newInfos[..n + 1][..n] == im.newInfos[..n];
  }

  lemma {:induction false} EarlyNone(o: Oracle, im: Image)
    ensures BucketsAre(Early(o, im, 0), seq(NEW_BUCKET_COUNT, _ => {})) && forall id :: Refs(Early(o, im, 0), id) == 0
  {
    assert im.newInfos[..0] == [];
    forall id ensures Refs(Early(o, im, 0), id) == 0 {
      RefsNone(Early(o, im, 0), id);
    }
  }

  /** The first n untried entries are read. */
  ghost predicate NewRead(o: Oracle, im: Image, n: nat, info: InfoMap, addr: map<NetAddr, int>, rnd: seq<int>,
                          vvNew: seq<set<int>>)
  {
    && n <= |im.newInfos| && EntriesAre(FirstOf(im, n), [], [], Early(o, im, n), info)
    && Covers(info, addr, n, im.nNew, 0) && RandomIs(FirstOf(im, n), 0, rnd) && BucketsAre(Early(o, im, n), vvNew)
  }

  ghost function FirstOf(im: Image, n: nat): Image
    requires n <= |im.newInfos|
  {
    im.(newInfos := im.newInfos[..n])
  }

  lemma {:induction false} ReadOneNew(o: Oracle, im: Image, n: nat, info: InfoMap, info': InfoMap, home: bool)
    requires n < |im.newInfos| && EntriesAre(FirstOf(im, n), [], [], Early(o, im, n), info) &&
             PersistedOnly(im.newInfos)
    requires home == !SameCount(im)
    requires info' == info[n := im.newInfos[n].(nRandomPos := n, nRefCount := if home then 1 else 0)]
    ensures EntriesAre(FirstOf(im, n + 1), [], [], Early(o, im, n + 1), info')
  {
    hide Early, Refs;
    NextRefs(o, im, n);
    assert Refs([], n) == 0 by {
      RefsNone([], n);
    }
    var a, b := FirstOf(im, n), FirstOf(im, n + 1);
    forall id ensures id in info' <==> IsPlaced(b, [], id) || Refs([], id) > 0 {
      RefsNone([], id);
    }
    forall id | id in info' ensures info'[id] == Origin(b, [], id).(nRefCount := Refs(Early(o, im, n + 1), id)) {
      if id == n {
        assert b.newInfos[n] == im.newInfos[n];
      } else {
        assert id in info && Origin(b, [], id) == Origin(a, [], id);
      }
    }
  }

  lemma {:induction false} NextRefs(o: Oracle, im: Image, n: nat)
    requires n < |im.newInfos|
    ensures Refs(Early(o, im, n + 1), n) == if SameCount(im) then 0 else 1
    ensures forall id :: id != n ==> Refs(Early(o, im, n + 1), id) == Refs(Early(o, im, n), id)
  {
    if !SameCount(im) {
      EarlyStep(o, im, n);
      NoRefsYet(o, im, n);
      forall id ensures Refs(Early(o, im, n + 1), id) == Refs(Early(o, im, n), id) + if id == n then 1 else 0 {
        RefsAdd(Early(o, im, n), o.NewBucket(im.newInfos[n].service, im.newInfos[n].source), n, id);
      }
      assert Refs(Early(o, im, n), n) == 0;
    } else {
      RefsNone(Early(o, im, n + 1), n);
    }
  }

  /** No bucket names an entry that has not been read. */
  lemma {:induction false} NoRefsYet(o: Oracle, im: Image, n: nat)
    requires n <= |im.newInfos|
    ensures forall id :: id >= n || id < 0 ==> Refs(Early(o, im, n), id) == 0
    decreases n
  {
    if n == 0 {
      EarlyNone(o, im);
    } else if !SameCount(im) {
      NoRefsYet(o, im, n - 1);
      EarlyStep(o, im, n - 1);
      forall id | id >= n || id < 0 ensures Refs(Early(o, im, n), id) == 0 {
        RefsAdd(Early(o, im, n - 1), o.NewBucket(im.newInfos[n - 1].service, im.newInfos[n - 1].source), n - 1, id);
      }
    }
  }

  lemma {:induction false} CoversNext(info: InfoMap, addr: map<NetAddr, int>, n: nat, base: int, e: AddrInfo)
    requires Covers(info, addr, n, base, 0) && n !in info
    ensures Covers(info[n := e], addr[e.service.net := n], n + 1, base, 0)
  {
    forall a | a in addr && a != e.service.net ensures addr[a] in info && addr[a] != n {
    }
  }

  lemma {:induction false} BucketNext(o: Oracle, im: Image, n: nat, vvNew: seq<set<int>>)
    requires n < |im.newInfos| && BucketsAre(Early(o, im, n), vvNew)
    ensures var c := o.NewBucket(im.newInfos[n].service, im.newInfos[n].source);
            && |vvNew| == NEW_BUCKET_COUNT
            && BucketsAre(Early(o, im, n + 1), if SameCount(im) then vvNew else vvNew[c := vvNew[c] + {n}])
  {
    if !SameCount(im) {
      EarlyStep(o, im, n);
      var c := o.NewBucket(im.newInfos[n].service, im.newInfos[n].source);
      assert Elements(Early(o, im, n)[c] + [n]) == Elements(Early(o, im, n)[c]) + {n};
      hide HomeBuckets, Oracle.NewBucket;
    }
  }

  lemma {:induction false} ReadNextNew(o: Oracle, im: Image, n: nat, info: InfoMap, addr: map<NetAddr, int>,
                                       rnd: seq<int>, vvNew: seq<set<int>>, e: AddrInfo, vvNew': seq<set<int>>)
    requires NewRead(o, im, n, info, addr, rnd, vvNew) && n < |im.newInfos| && PersistedOnly(im.newInfos)
    requires e == im.newInfos[n].(nRandomPos := |rnd|, nRefCount := if SameCount(im) then 0 else 1)
    requires var c := o.NewBucket(e.service, e.source);
             |vvNew| == NEW_BUCKET_COUNT && vvNew' == if SameCount(im) then vvNew else vvNew[c := vvNew[c] + {n}]
    ensures NewRead(o, im, n + 1, info[n := e], addr[e.service.net := n], rnd + [n], vvNew')
  {
    ReadOneNew(o, im, n, info, info[n := e], !SameCount(im));
    NotReadYet(o, im, n, info);
    CoversNext(info, addr, n, im.nNew, e);
    BucketNext(o, im, n, vvNew);
    hide EntriesAre, Covers, BucketsAre, Early, Oracle.NewBucket;
  }

  lemma {:induction false} NotReadYet(o: Oracle, im: Image, n: nat, info: InfoMap)
    requires n < |im.newInfos| && EntriesAre(FirstOf(im, n), [], [], Early(o, im, n), info)
    ensures n !in info
  {
  }

  /** The buckets as they are when all entries have been read. */
  ghost function Start(o: Oracle, im: Image): seq<seq<int>> {
    if SameCount(im) then [] else HomeBuckets(o, im.newInfos)
  }

  lemma {:induction false} NewDone(o: Oracle, im: Image, info: InfoMap, addr: map<NetAddr, int>, rnd: seq<int>,
                                   vvNew: seq<set<int>>)
    requires NewRead(o, im, |im.newInfos|, info, addr, rnd, vvNew)
    ensures TriedRead(o, im, 0, info, addr, rnd, seq(TRIED_BUCKET_COUNT, _ => []))
    ensures BucketsAre(Start(o, im), vvNew)
  {
    assert im.newInfos[..|im.newInfos|] == im.newInfos && im.triedInfos[..0] == [];
    assert FirstOf(im, |im.newInfos|) == im;
    assert Early(o, im, |im.newInfos|) == Start(o, im);
    hide Start, EntriesAre, Covers;
  }

  method LoadNew(o: Oracle, im: Image)
    returns (info: InfoMap, addr: map<NetAddr, int>, rnd: seq<int>, vvNew: seq<set<int>>)
    requires Format(im)
    ensures TriedRead(o, im, 0, info, addr, rnd, seq(TRIED_BUCKET_COUNT, _ => []))
    ensures BucketsAre(Start(o, im), vvNew)
  {
    info, addr, rnd, vvNew := map[], map[], [], seq(NEW_BUCKET_COUNT, _ => {});
    EarlyNone(o, im);
    for n := 0 to |im.newInfos|
      invariant NewRead(o, im, n, info, addr, rnd, vvNew)
    {
      NewLengths(o, im, n, info, addr, rnd, vvNew);
      hide NewRead, Format, Oracle.NewBucket;
      var e := im.newInfos[n].(nRandomPos := |rnd|);
      ghost var before := vvNew;
      if !SameCount(im) {
        var c := o.NewBucket(e.service, e.source);
        vvNew := vvNew[c := vvNew[c] + {n}];
        e := e.(nRefCount := e.nRefCount + 1);
      }
      ReadNextNew(o, im, n, info, addr, rnd, before, e, vvNew);
      info, addr, rnd := info[n := e], addr[e.service.net := n], rnd + [n];
    }
    NewDone(o, im, info, addr, rnd, vvNew);
  }

  lemma {:induction false} NewLengths(o: Oracle, im: Image, n: nat, info: InfoMap, addr: map<NetAddr, int>,
                                      rnd: seq<int>, vvNew: seq<set<int>>)
    requires NewRead(o, im, n, info, addr, rnd, vvNew) && Format(im)
    ensures |rnd| == n && |vvNew| == NEW_BUCKET_COUNT && PersistedOnly(im.newInfos)
    ensures n < |im.newInfos| ==> im.newInfos[n].nRefCount == 0
  {
    if n < |im.newInfos| {
      assert im.newInfos[n] == im.newInfos[n].Persisted();
    }
  }

  // ----- tried entries -----

  /** All untried entries, and the kept ones among the first n tried entries, are read. */
  ghost predicate TriedRead(o: Oracle, im: Image, n: nat, info: InfoMap, addr: map<NetAddr, int>, rnd: seq<int>,
                            vvTried: seq<seq<int>>)
  {
    && n <= |im.triedInfos|
    && var kept := KeptTried(o, im.triedInfos[..n]);
       && EntriesAre(im, kept, [], Start(o, im), info) && Covers(info, addr, |im.newInfos|, im.nNew, |kept|)
       && RandomIs(im, |kept|, rnd) && TriedFiled(o, im.nNew, kept, vvTried)
  }

  lemma {:induction false} TriedCountAdd(o: Oracle, kept: seq<AddrInfo>, e: AddrInfo, c: int)
    ensures TriedCount(o, kept + [e], c) == TriedCount(o, kept, c) + if o.TriedBucket(e.service) == c then 1 else 0
  {
    assert (kept + [e])[..|kept|] == kept;
  }

  lemma {:induction false} FileOneTried(o: Oracle, base: int, kept: seq<AddrInfo>, vvTried: seq<seq<int>>, e: AddrInfo)
    requires TriedFiled(o, base, kept, vvTried)
    requires TriedCount(o, kept, o.TriedBucket(e.service)) < TRIED_BUCKET_SIZE
    ensures var c := o.TriedBucket(e.service);
            TriedFiled(o, base, kept + [e], vvTried[c := vvTried[c] + [base + |kept|]])
  {
    var c, id := o.TriedBucket(e.service), base + |kept|;
    assert id !in vvTried[c];
    hide TriedCount, Oracle.TriedBucket;
    forall d | 0 <= d < |vvTried|
      ensures TriedCount(o, kept + [e], d) == TriedCount(o, kept, d) + if c == d then 1 else 0
    {
      TriedCountAdd(o, kept, e, d);
    }
  }

  lemma {:induction false} StartRefs(o: Oracle, im: Image, id: int)
    requires !(0 <= id < |im.newInfos|)
    ensures Refs(Start(o, im), id) == 0
  {
    NoRefsYet(o, im, |im.newInfos|);
    assert im.newInfos[..|im.newInfos|] == im.newInfos;
    assert Early(o, im, |im.newInfos|) == Start(o, im);
  }

  lemma {:induction false} ReadOneTried(o: Oracle, im: Image, kept: seq<AddrInfo>, info: InfoMap, e: AddrInfo, id: int)
    requires Format(im) && EntriesAre(im, kept, [], Start(o, im), info) && e.nRefCount == 0 && id == im.nNew + |kept|
    ensures id !in info
    ensures EntriesAre(im, kept + [e], [], Start(o, im),
                       info[id := e.(nRandomPos := |im.newInfos| + |kept|, fInTried := true)])
  {
    hide Start;
    forall x ensures Refs([], x) == 0 {
      RefsNone([], x);
    }
    StartRefs(o, im, id);
    var info' := info[id := e.(nRandomPos := |im.newInfos| + |kept|, fInTried := true)];
    hide Refs;
    forall x | x in info' ensures info'[x] == Origin(im, kept + [e], x).(nRefCount := Refs(Start(o, im), x)) {
      if x != id {
        assert x in info && Origin(im, kept + [e], x) == Origin(im, kept, x);
      }
    }
  }

  lemma {:induction false} CoversTried(info: InfoMap, addr: map<NetAddr, int>, n: nat, base: int, m: nat, e: AddrInfo)
    requires Covers(info, addr, n, base, m) && base + m !in info
    ensures Covers(info[base + m := e], addr[e.service.net := base + m], n, base, m + 1)
  {
    forall a | a in addr && a != e.service.net ensures addr[a] in info && addr[a] != base + m {
    }
  }

  lemma {:induction false} RandomNext(im: Image, m: nat, rnd: seq<int>)
    requires RandomIs(im, m, rnd)
    ensures RandomIs(im, m + 1, rnd + [im.nNew + m])
  {
  }

  /** What is kept of one more tried entry. */
  lemma {:induction false} KeptNext(o: Oracle, infos: seq<AddrInfo>, n: nat)
    requires n < |infos|
    ensures var kept := KeptTried(o, infos[..n]);
            KeptTried(o, infos[..n + 1]) ==
              if TriedCount(o, kept, o.TriedBucket(infos[n].service)) < TRIED_BUCKET_SIZE then kept + [infos[n]]
              else kept
  {
    assert infos[..n + 1][..n] == infos[..n];
  }

  lemma {:induction false} FileNextTried(o: Oracle, im: Image, kept: seq<AddrInfo>, info: InfoMap,
                                         addr: map<NetAddr, int>, rnd: seq<int>, vvTried: seq<seq<int>>, d: AddrInfo,
                                         id: int, e: AddrInfo)
    requires Format(im) && EntriesAre(im, kept, [], Start(o, im), info) && d in im.triedInfos
    requires Covers(info, addr, |im.newInfos|, im.nNew, |kept|) && RandomIs(im, |kept|, rnd)
    requires TriedFiled(o, im.nNew, kept, vvTried) && TriedCount(o, kept, o.TriedBucket(d.service)) < TRIED_BUCKET_SIZE
    requires id == im.nNew + |kept| && e == d.(nRandomPos := |rnd|, fInTried := true)
    ensures EntriesAre(im, kept + [d], [], Start(o, im), info[id := e])
    ensures Covers(info[id := e], addr[e.service.net := id], |im.newInfos|, im.nNew, |kept| + 1)
    ensures RandomIs(im, |kept| + 1, rnd + [id])
    ensures var c := o.TriedBucket(d.service);
            |vvTried| == TRIED_BUCKET_COUNT &&
            TriedFiled(o, im.nNew, kept + [d], vvTried[c := vvTried[c] + [id]])
  {
    hide EntriesAre, Covers, TriedCount, Start, Oracle.TriedBucket;
    var k :| 0 <= k < |im.triedInfos| && im.triedInfos[k] == d;
    assert im.triedInfos[k] == im.triedInfos[k].Persisted();
    FileOneTried(o, im.nNew, kept, vvTried, d);
    hide TriedFiled, Format;
    ReadOneTried(o, im, kept, info, d, id);
    CoversTried(info, addr, |im.newInfos|, im.nNew, |kept|, e);
    RandomNext(im, |kept|, rnd);
    assert |rnd| == |im.newInfos| + |kept|;
    hide RandomIs;
  }

  lemma {:induction false} ReadNextTried(o: Oracle, im: Image, n: nat, info: InfoMap, addr: map<NetAddr, int>,
                                         rnd: seq<int>, vvTried: seq<seq<int>>, id: int, e: AddrInfo, c: int)
    requires Format(im) && TriedRead(o, im, n, info, addr, rnd, vvTried) && n < |im.triedInfos|
    requires id == im.nNew + |KeptTried(o, im.triedInfos[..n])| && c == o.TriedBucket(e.service)
    requires e == im.triedInfos[n].(nRandomPos := |rnd|, fInTried := true)
    ensures |vvTried| == TRIED_BUCKET_COUNT
    ensures if |vvTried[c]| < TRIED_BUCKET_SIZE then
              TriedRead(o, im, n + 1, info[id := e], addr[e.service.net := id], rnd + [id],
                        vvTried[c := vvTried[c] + [id]])
            else
              TriedRead(o, im, n + 1, info, addr, rnd, vvTried)
    ensures |KeptTried(o, im.triedInfos[..n + 1])| ==
              |KeptTried(o, im.triedInfos[..n])| + if |vvTried[c]| < TRIED_BUCKET_SIZE then 1 else 0
  {
    var kept := KeptTried(o, im.triedInfos[..n]);
    hide *;
    TriedParts(o, im, n, info, addr, rnd, vvTried);
    KeptNext(o, im.triedInfos, n);
    BucketLength(o, im.nNew, kept, vvTried, c);
    RandomLength(im, |kept|, rnd);
    if |vvTried[c]| < TRIED_BUCKET_SIZE {
      FileNextTried(o, im, kept, info, addr, rnd, vvTried, im.triedInfos[n], id, e);
      TriedPutTogether(o, im, n + 1, info[id := e], addr[e.service.net := id], rnd + [id],
                       vvTried[c := vvTried[c] + [id]]);
    } else {
      TriedPutTogether(o, im, n + 1, info, addr, rnd, vvTried);
    }
  }

  lemma {:induction false} TriedParts(o: Oracle, im: Image, n: nat, info: InfoMap, addr: map<NetAddr, int>,
                                      rnd: seq<int>, vvTried: seq<seq<int>>)
    requires TriedRead(o, im, n, info, addr, rnd, vvTried)
    ensures var kept := KeptTried(o, im.triedInfos[..n]);
            && EntriesAre(im, kept, [], Start(o, im), info) && Covers(info, addr, |im.newInfos|, im.nNew, |kept|)
            && RandomIs(im, |kept|, rnd) && TriedFiled(o, im.nNew, kept, vvTried)
  {
  }

  lemma {:induction false} TriedPutTogether(o: Oracle, im: Image, n: nat, info: InfoMap, addr: map<NetAddr, int>,
                                            rnd: seq<int>, vvTried: seq<seq<int>>)
    requires n <= |im.triedInfos|
    requires var kept := KeptTried(o, im.triedInfos[..n]);
             && EntriesAre(im, kept, [], Start(o, im), info) && Covers(info, addr, |im.newInfos|, im.nNew, |kept|)
             && RandomIs(im, |kept|, rnd) && TriedFiled(o, im.nNew, kept, vvTried)
    ensures TriedRead(o, im, n, info, addr, rnd, vvTried)
  {
  }

  lemma {:induction false} BucketLength(o: Oracle, base: int, kept: seq<AddrInfo>, vvTried: seq<seq<int>>, c: int)
    requires TriedFiled(o, base, kept, vvTried) && 0 <= c < TRIED_BUCKET_COUNT
    ensures |vvTried| == TRIED_BUCKET_COUNT && |vvTried[c]| == TriedCount(o, kept, c)
  {
  }

  lemma {:induction false} RandomLength(im: Image, m: nat, rnd: seq<int>)
    requires RandomIs(im, m, rnd)
    ensures |rnd| == |im.newInfos| + m
  {
  }

  method LoadTried(o: Oracle, im: Image, info: InfoMap, addr: map<NetAddr, int>, rnd: seq<int>)
    returns (info': InfoMap, addr': map<NetAddr, int>, rnd': seq<int>, vvTried: seq<seq<int>>, nIdCount: int,
             nLost: int)
    requires Format(im) && TriedRead(o, im, 0, info, addr, rnd, seq(TRIED_BUCKET_COUNT, _ => []))
    ensures TriedRead(o, im, |im.triedInfos|, info', addr', rnd', vvTried)
    ensures nIdCount == im.nNew + |im.triedInfos| - nLost && nLost == |im.triedInfos| - |KeptTried(o, im.triedInfos)|
  {
    info', addr', rnd', vvTried := info, addr, rnd, seq(TRIED_BUCKET_COUNT, _ => []);
    nIdCount, nLost := im.nNew, 0;
    assert im.triedInfos[..0] == [] && im.triedInfos[..|im.triedInfos|] == im.triedInfos;
    for n := 0 to |im.triedInfos|
      invariant TriedRead(o, im, n, info', addr', rnd', vvTried)
      invariant nIdCount == im.nNew + n - nLost && nLost == n - |KeptTried(o, im.triedInfos[..n])|
    {
      hide TriedRead, Format, KeptTried;
      var e := im.triedInfos[n];
      var c := o.TriedBucket(e.service);
      ReadNextTried(o, im, n, info', addr', rnd', vvTried, nIdCount, e.(nRandomPos := |rnd'|, fInTried := true), c);
      if |vvTried[c]| < TRIED_BUCKET_SIZE {
        e := e.(nRandomPos := |rnd'|, fInTried := true);
        rnd', info', addr' := rnd' + [nIdCount], info'[nIdCount := e], addr'[e.service.net := nIdCount];
        vvTried := vvTried[c := vvTried[c] + [nIdCount]];
        nIdCount := nIdCount + 1;
      } else {
        nLost := nLost + 1;
      }
    }
  }

  // ----- buckets -----

  /** The "new" buckets after the names in raw have been read. */
  ghost function After(o: Oracle, im: Image, raw: seq<seq<int>>): seq<seq<int>> {
    if SameCount(im) then KeptBuckets(raw) else Start(o, im)
  }

  /** The names in raw have been read. */
  ghost predicate NamesRead(o: Oracle, im: Image, raw: seq<seq<int>>, info: InfoMap, vvNew: seq<set<int>>) {
    && EntriesAre(im, KeptTried(o, im.triedInfos), raw, After(o, im, raw), info)
    && BucketsAre(After(o, im, raw), vvNew)
  }

  /** One more name in the last bucket. */
  ghost function Named(raw: seq<seq<int>>, x: int): (raw': seq<seq<int>>)
    requires raw != []
    ensures |raw'| == |raw|
  {
    raw[|raw| - 1 := raw[|raw| - 1] + [x]]
  }

  /** What is kept after one more name. */
  lemma {:induction false} KeptStep(raw: seq<seq<int>>, x: int)
    requires raw != []
    ensures KeptBuckets(Named(raw, x)) ==
              if Refs(KeptBuckets(raw), x) < NEW_BUCKETS_PER_ADDRESS then Named(KeptBuckets(raw), x)
                else KeptBuckets(raw)
  {
    var m, kb, raw' := |raw| - 1, KeptBuckets(raw), Named(raw, x);
    assert raw'[..m] == raw[..m] && raw'[m][..|raw[m]|] == raw[m];
    var k := KeptBuckets(raw[..m]);
    assert kb == k + [KeptBucket(k, raw[m])] && kb[..m] == k;
    assert KeptBuckets(raw') == k + [KeptBucket(k, raw'[m])];
  }

  /** The name is counted. */
  ghost predicate OneMore(raw: seq<seq<int>>, raw': seq<seq<int>>, x: int) {
    forall id :: Refs(raw', id) == Refs(raw, id) + if id == x then 1 else 0
  }

  lemma {:induction false} NamedOneMore(raw: seq<seq<int>>, x: int)
    requires raw != []
    ensures OneMore(raw, Named(raw, x), x)
  {
    forall id ensures Refs(Named(raw, x), id) == Refs(raw, id) + if id == x then 1 else 0 {
      RefsAdd(raw, |raw| - 1, x, id);
    }
  }

  lemma {:induction false} EntriesNamed(im: Image, kept: seq<AddrInfo>, raw: seq<seq<int>>, kb: seq<seq<int>>,
                                        info: InfoMap, raw': seq<seq<int>>, kb': seq<seq<int>>, x: int, e: AddrInfo)
    requires EntriesAre(im, kept, raw, kb, info) && OneMore(raw, raw', x) && (kb' == kb || OneMore(kb, kb', x))
    requires e == (if x in info then info[x] else BLANK).(nRefCount := Refs(kb', x))
    ensures EntriesAre(im, kept, raw', kb', info[x := e])
  {
    hide Refs;
  }

  lemma {:induction false} NoneOfMissing(o: Oracle, im: Image, raw: seq<seq<int>>, info: InfoMap, x: int)
    requires EntriesAre(im, KeptTried(o, im.triedInfos), raw, After(o, im, raw), info)
    ensures (if x in info then info[x].nRefCount else 0) == Refs(After(o, im, raw), x)
  {
    if x !in info {
      StartRefs(o, im, x);
      KeptRefsExactly(raw, x);
    }
    hide Refs;
  }

  lemma {:induction false} BucketNamed(kb: seq<seq<int>>, vvNew: seq<set<int>>, x: int)
    requires BucketsAre(kb, vvNew) && 0 < |kb| <= NEW_BUCKET_COUNT
    ensures |vvNew| == NEW_BUCKET_COUNT
    ensures BucketsAre(Named(kb, x), vvNew[|kb| - 1 := vvNew[|kb| - 1] + {x}])
  {
    var m := |kb| - 1;
    assert Elements(kb[m] + [x]) == Elements(kb[m]) + {x};
  }

  lemma {:induction false} NewBucketCount(o: Oracle, im: Image, raw: seq<seq<int>>, info: InfoMap, vvNew: seq<set<int>>)
    requires NamesRead(o, im, raw, info, vvNew)
    ensures |vvNew| == NEW_BUCKET_COUNT
  {
  }

  /** One more name is read. */
  lemma {:induction false} ReadName(o: Oracle, im: Image, raw: seq<seq<int>>, info: InfoMap, vvNew: seq<set<int>>,
                                    x: int, e: AddrInfo)
    requires NamesRead(o, im, raw, info, vvNew) && 0 < |raw| <= |im.buckets| <= NEW_BUCKET_COUNT
    requires e == (if x in info then info[x] else BLANK)
    ensures |vvNew| == NEW_BUCKET_COUNT
    ensures if SameCount(im) && e.nRefCount < NEW_BUCKETS_PER_ADDRESS then
              NamesRead(o, im, Named(raw, x), info[x := e.(nRefCount := e.nRefCount + 1)],
                        vvNew[|raw| - 1 := vvNew[|raw| - 1] + {x}])
            else
              NamesRead(o, im, Named(raw, x), info[x := e], vvNew)
  {
    var kb := After(o, im, raw);
    hide EntriesAre, Refs, KeptTried, BucketsAre, OneMore, Named, KeptBuckets, Start;
    NamedOneMore(raw, x);
    NoneOfMissing(o, im, raw, info, x);
    NewBucketCount(o, im, raw, info, vvNew);
    if SameCount(im) {
      KeptStep(raw, x);
    }
    if SameCount(im) && e.nRefCount < NEW_BUCKETS_PER_ADDRESS {
      NamedOneMore(kb, x);
      assert Refs(Named(kb, x), x) == e.nRefCount + 1 by {
        OneMoreAt(kb, Named(kb, x), x);
      }
      EntriesNamed(im, KeptTried(o, im.triedInfos), raw, kb, info, Named(raw, x), Named(kb, x), x,
                   e.(nRefCount := e.nRefCount + 1));
      BucketNamed(kb, vvNew, x);
    } else {
      EntriesNamed(im, KeptTried(o, im.triedInfos), raw, kb, info, Named(raw, x), kb, x, e);
    }
  }

  lemma {:induction false} OneMoreAt(raw: seq<seq<int>>, raw': seq<seq<int>>, x: int)
    requires OneMore(raw, raw', x)
    ensures Refs(raw', x) == Refs(raw, x) + 1
  {
  }

  /** The names before the n-th of bucket b. */
  ghost function Before(im: Image, b: nat, n: nat): (raw: seq<seq<int>>)
    requires b < |im.buckets| && n <= |im.buckets[b]|
    ensures |raw| == b + 1
  {
    im.buckets[..b] + [im.buckets[b][..n]]
  }

  /** An empty bucket has no names. */
  lemma {:induction false} EmptyBucket(raw: seq<seq<int>>)
    ensures KeptBuckets(raw + [[]]) == KeptBuckets(raw) + [[]]
    ensures forall id :: Refs(raw + [[]], id) == Refs(raw, id)
  {
    assert (raw + [[]])[..|raw|] == raw;
    forall id ensures Refs(raw + [[]], id) == Refs(raw, id) {
      assert multiset([])[id] == 0;
    }
  }

  lemma {:induction false} EntriesSame(im: Image, kept: seq<AddrInfo>, raw: seq<seq<int>>, kb: seq<seq<int>>,
                                       info: InfoMap, raw': seq<seq<int>>, kb': seq<seq<int>>)
    requires EntriesAre(im, kept, raw, kb, info)
    requires forall id :: Refs(raw', id) == Refs(raw, id) && Refs(kb', id) == Refs(kb, id)
    ensures EntriesAre(im, kept, raw', kb', info)
  {
    hide Refs;
  }

  lemma {:induction false} OpenBucket(o: Oracle, im: Image, b: nat, info: InfoMap, vvNew: seq<set<int>>)
    requires b < |im.buckets| <= NEW_BUCKET_COUNT && NamesRead(o, im, im.buckets[..b], info, vvNew)
    ensures NamesRead(o, im, Before(im, b, 0), info, vvNew)
  {
    var raw := im.buckets[..b];
    assert Before(im, b, 0) == raw + [[]];
    hide EntriesAre, KeptTried, Refs, KeptBuckets, Start, Before;
    EmptyBucket(raw);
    EmptyBucket(KeptBuckets(raw));
    assert Elements([]) == {};
    EntriesSame(im, KeptTried(o, im.triedInfos), raw, After(o, im, raw), info, raw + [[]], After(o, im, raw + [[]]));
  }

  lemma {:induction false} NextName(im: Image, b: nat, n: nat)
    requires b < |im.buckets| && n < |im.buckets[b]|
    ensures Before(im, b, n + 1) == Named(Before(im, b, n), im.buckets[b][n])
  {
    assert im.buckets[b][..n + 1] == im.buckets[b][..n] + [im.buckets[b][n]];
    assert im.buckets[..b + 1][..b] == im.buckets[..b];
  }

  lemma {:induction false} CloseBucket(im: Image, b: nat)
    requires b < |im.buckets|
    ensures Before(im, b, |im.buckets[b]|) == im.buckets[..b + 1]
  {
    assert im.buckets[b][..|im.buckets[b]|] == im.buckets[b];
    assert im.buckets[..b + 1] == im.buckets[..b] + [im.buckets[b]];
  }

  /** Reads the buckets. */
  method LoadBuckets(ghost o: Oracle, im: Image, info: InfoMap, vvNew: seq<set<int>>)
    returns (info': InfoMap, vvNew': seq<set<int>>)
    requires |im.buckets| <= NEW_BUCKET_COUNT && NamesRead(o, im, [], info, vvNew)
    ensures NamesRead(o, im, im.buckets, info', vvNew')
  {
    info', vvNew' := info, vvNew;
    assert im.buckets[..0] == [] && im.buckets[..|im.buckets|] == im.buckets;
    hide *;
    for b := 0 to |im.buckets|
      invariant NamesRead(o, im, im.buckets[..b], info', vvNew')
    {
      OpenBucket(o, im, b, info', vvNew');
      for n := 0 to |im.buckets[b]|
        invariant NamesRead(o, im, Before(im, b, n), info', vvNew')
      {
        var nIndex := im.buckets[b][n];
        NextName(im, b, n);
        var e := if nIndex in info' then info'[nIndex] else BLANK;
        ReadName(o, im, Before(im, b, n), info', vvNew', nIndex, e);
        if SameCount(im) && e.nRefCount < NEW_BUCKETS_PER_ADDRESS {
          e := e.(nRefCount := e.nRefCount + 1);
          vvNew' := vvNew'[b := vvNew'[b] + {nIndex}];
        }
        info' := info'[nIndex := e];
      }
      CloseBucket(im, b);
    }
  }

  // ----- all of it -----

  /** What reading an image yields, whatever the image. */
  ghost predicate ReadState(o: Oracle, im: Image, info: InfoMap, addr: map<NetAddr, int>, rnd: seq<int>,
                            vvTried: seq<seq<int>>, vvNew: seq<set<int>>)
  {
    var k := Kept(o, im);
    && EntriesAre(im, k.triedInfos, im.buckets, k.buckets, info)
    && Covers(info, addr, |im.newInfos|, im.nNew, |k.triedInfos|) && RandomIs(im, |k.triedInfos|, rnd)
    && TriedFiled(o, im.nNew, k.triedInfos, vvTried) && BucketsAre(k.buckets, vvNew)
  }

  lemma {:induction false} NothingNamed(o: Oracle, im: Image, info: InfoMap, vvNew: seq<set<int>>)
    requires EntriesAre(im, KeptTried(o, im.triedInfos), [], Start(o, im), info) && BucketsAre(Start(o, im), vvNew)
    ensures NamesRead(o, im, [], info, vvNew)
  {
    assert After(o, im, []) == Start(o, im);
    hide EntriesAre, BucketsAre, After, Start, KeptTried;
  }

  lemma {:induction false} CoversStill(im: Image, kept: seq<AddrInfo>, before: seq<seq<int>>, info: InfoMap,
                                       named: seq<seq<int>>, buckets: seq<seq<int>>, info': InfoMap,
                                       addr: map<NetAddr, int>)
    requires EntriesAre(im, kept, [], before, info) && EntriesAre(im, kept, named, buckets, info')
    requires Covers(info, addr, |im.newInfos|, im.nNew, |kept|)
    ensures Covers(info', addr, |im.newInfos|, im.nNew, |kept|)
  {
    hide Refs;
    forall id | IsPlaced(im, kept, id) ensures id in info && id in info' && info'[id].service == info[id].service {
    }
  }

  lemma {:induction false} ReadAll(o: Oracle, im: Image, info0: InfoMap, addr: map<NetAddr, int>, rnd: seq<int>,
                                   vvTried: seq<seq<int>>, info: InfoMap, vvNew: seq<set<int>>)
    requires TriedRead(o, im, |im.triedInfos|, info0, addr, rnd, vvTried) && NamesRead(o, im, im.buckets, info, vvNew)
    ensures ReadState(o, im, info, addr, rnd, vvTried, vvNew)
  {
    var kept := KeptTried(o, im.triedInfos);
    assert im.triedInfos[..|im.triedInfos|] == im.triedInfos;
    assert After(o, im, im.buckets) == Kept(o, im).buckets && Kept(o, im).triedInfos == kept;
    hide EntriesAre, Covers, RandomIs, TriedFiled, BucketsAre, After, Start, KeptTried, Kept;
    CoversStill(im, kept, Start(o, im), info0, im.buckets, Kept(o, im).buckets, info, addr);
  }

  /** Builds the tables from an image. */
  method ReadImage(o: Oracle, im: Image)
    returns (info: InfoMap, addr: map<NetAddr, int>, rnd: seq<int>, vvTried: seq<seq<int>>, vvNew: seq<set<int>>,
             nNew: int, nTried: int, nIdCount: int, nLost: int)
    requires Format(im)
    ensures ReadState(o, im, info, addr, rnd, vvTried, vvNew)
    ensures nNew == im.nNew && nTried == im.nTried - nLost && nLost == |im.triedInfos| - |KeptTried(o, im.triedInfos)|
    ensures nIdCount == im.nNew + |KeptTried(o, im.triedInfos)|
  {
    assert |im.buckets| <= NEW_BUCKET_COUNT;
    hide *;
    info, addr, rnd, vvNew := LoadNew(o, im);
    info, addr, rnd, vvTried, nIdCount, nLost := LoadTried(o, im, info, addr, rnd);
    nNew, nTried := im.nNew, im.nTried - nLost;
    ghost var info0 := info;
    TriedParts(o, im, |im.triedInfos|, info, addr, rnd, vvTried);
    assert im.triedInfos[..|im.triedInfos|] == im.triedInfos;
    NothingNamed(o, im, info, vvNew);
    info, vvNew := LoadBuckets(o, im, info, vvNew);
    ReadAll(o, im, info0, addr, rnd, vvTried, info, vvNew);
  }

  // ----- when the result is consistent -----

  lemma {:induction false} KeptParts(o: Oracle, im: Image)
    ensures var k := Kept(o, im);
            && k.nNew == im.nNew && k.triedInfos == KeptTried(o, im.triedInfos)
            && k.nTried == im.nTried - (|im.triedInfos| - |k.triedInfos|)
  {
  }

  lemma {:induction false} KeptPersisted(o: Oracle, infos: seq<AddrInfo>)
    requires PersistedOnly(infos)
    ensures PersistedOnly(KeptTried(o, infos))
    decreases |infos|
  {
    if infos != [] {
      KeptPersisted(o, infos[..|infos| - 1]);
    }
  }

  /** No bucket names x twice. */
  ghost predicate NeverTwice(buckets: seq<seq<int>>, x: int) {
    forall b :: 0 <= b < |buckets| ==> multiset(buckets[b])[x] <= 1
  }

  /** The buckets that list an entry are as many as its names, unless one of them names it twice. */
  lemma {:induction false} RefsListed(buckets: seq<seq<int>>, x: int)
    ensures |ListedIn(buckets, x)| <= Refs(buckets, x)
    ensures Refs(buckets, x) == |ListedIn(buckets, x)| <==> NeverTwice(buckets, x)
    decreases |buckets|
  {
    if buckets == [] {
      assert ListedIn(buckets, x) == {};
    } else {
      var m := |buckets| - 1;
      RefsListed(buckets[..m], x);
      ListedStep(buckets, x);
      assert x in buckets[m] <==> multiset(buckets[m])[x] > 0;
      assert NeverTwice(buckets, x) <==> NeverTwice(buckets[..m], x) && multiset(buckets[m])[x] <= 1;
      hide ListedIn, NeverTwice;
    }
  }

  lemma {:induction false} ListedStep(buckets: seq<seq<int>>, x: int)
    requires buckets != []
    ensures var m := |buckets| - 1;
            |ListedIn(buckets, x)| == |ListedIn(buckets[..m], x)| + if x in buckets[m] then 1 else 0
  {
    var m := |buckets| - 1;
    var before := ListedIn(buckets[..m], x);
    assert m !in before;
    assert ListedIn(buckets, x) == if x in buckets[m] then before + {m} else before;
  }

  lemma {:induction false} NamedSomewhere(buckets: seq<seq<int>>, x: int)
    ensures Refs(buckets, x) > 0 <==> exists b :: 0 <= b < |buckets| && x in buckets[b]
    decreases |buckets|
  {
    if buckets != [] {
      var m := |buckets| - 1;
      NamedSomewhere(buckets[..m], x);
      assert x in buckets[m] <==> multiset(buckets[m])[x] > 0;
    }
  }

  lemma {:induction false} DistinctExactly(s: seq<int>)
    ensures Distinct(s) <==> forall x :: multiset(s)[x] <= 1
    decreases |s|
  {
    if s != [] {
      var m := |s| - 1;
      DistinctExactly(s[..m]);
      assert s == s[..m] + [s[m]];
      assert multiset(s) == multiset(s[..m]) + multiset{s[m]};
      if Distinct(s) {
        assert s[m] !in s[..m];
      } else if Distinct(s[..m]) {
        assert s[m] in s[..m];
        assert multiset(s)[s[m]] >= 2;
      } else {
        var x :| multiset(s[..m])[x] > 1;
        assert multiset(s)[x] > 1;
      }
    }
  }

  /** Every entry is one that was read. */
  ghost predicate AllPlaced(im: Image, kept: seq<AddrInfo>, buckets: seq<seq<int>>, info: InfoMap) {
    && im.nNew == |im.newInfos| && (forall id :: id in info <==> 0 <= id < im.nNew + |kept|)
    && forall id :: id in info ==> info[id] == Origin(im, kept, id).(nRefCount := Refs(buckets, id))
  }

  lemma {:induction false} NoneMadeUp(o: Oracle, im: Image, buckets: seq<seq<int>>, info: InfoMap)
    requires EntriesAre(im, KeptTried(o, im.triedInfos), im.buckets, buckets, info) && im.nNew == |im.newInfos|
    ensures NumbersExist(o, im) <==> AllPlaced(im, KeptTried(o, im.triedInfos), buckets, info)
  {
    var kept := KeptTried(o, im.triedInfos);
    hide Refs, KeptTried;
    forall x ensures Refs(im.buckets, x) > 0 <==> exists b :: 0 <= b < |im.buckets| && x in im.buckets[b] {
      NamedSomewhere(im.buckets, x);
    }
    if AllPlaced(im, kept, buckets, info) {
      forall b, x | 0 <= b < |im.buckets| && x in im.buckets[b] ensures 0 <= x < im.nNew + |kept| {
        assert Refs(im.buckets, x) > 0;
        assert x in info;
      }
    }
  }

  lemma {:induction false} RandomOfPlaced(im: Image, kept: seq<AddrInfo>, buckets: seq<seq<int>>, info: InfoMap,
                                          rnd: seq<int>)
    requires AllPlaced(im, kept, buckets, info) && RandomIs(im, |kept|, rnd)
    ensures RandomOk(info, rnd)
  {
    hide Refs;
  }

  lemma {:induction false} NetsOfPlaced(im: Image, kept: seq<AddrInfo>, buckets: seq<seq<int>>, info: InfoMap,
                                        addr: map<NetAddr, int>)
    requires AllPlaced(im, kept, buckets, info) && Covers(info, addr, |im.newInfos|, im.nNew, |kept|)
    ensures AddrOk(info, addr) <==> NetsDistinct(im.newInfos + kept)
  {
    var all := im.newInfos + kept;
    forall id | id in info ensures 0 <= id < |all| && info[id].service == all[id].service {
    }
    hide Refs, Origin;
    assert forall id :: id in info <==> 0 <= id < |all|;
    if AddrOk(info, addr) {
      forall i, j | 0 <= i < j < |all| ensures all[i].service.net != all[j].service.net {
        assert i in info && j in info;
      }
    } else if NetsDistinct(all) {
      forall id | id in info ensures info[id].service.net in addr && addr[info[id].service.net] == id {
        var x := addr[info[id].service.net];
        assert x in info && all[x].service.net == all[id].service.net;
      }
      assert false;
    }
  }

  /** No bucket names a tried entry. */
  ghost predicate TriedUnnamed(im: Image, kept: seq<AddrInfo>, buckets: seq<seq<int>>) {
    forall x :: im.nNew <= x < im.nNew + |kept| ==> Refs(buckets, x) == 0
  }

  lemma {:induction false} TriedOfPlaced(o: Oracle, im: Image, kept: seq<AddrInfo>, buckets: seq<seq<int>>,
                                         info: InfoMap, vvTried: seq<seq<int>>)
    requires AllPlaced(im, kept, buckets, info) && TriedFiled(o, im.nNew, kept, vvTried)
    requires PersistedOnly(im.newInfos)
    ensures TriedOk(o, info, vvTried) <==> TriedUnnamed(im, kept, buckets)
  {
    hide Refs, TriedCount, Oracle.TriedBucket;
    UntriedOfPlaced(im, kept, buckets, info);
    forall id | im.nNew <= id < im.nNew + |kept|
      ensures id in info && info[id].nRefCount == Refs(buckets, id) && info[id].service == kept[id - im.nNew].service
    {
    }
    hide AllPlaced;
    if TriedOk(o, info, vvTried) {
      forall x | im.nNew <= x < im.nNew + |kept| ensures Refs(buckets, x) == 0 {
        assert x in info && info[x].fInTried;
      }
    } else if TriedUnnamed(im, kept, buckets) {
      forall b, id | 0 <= b < |vvTried| && id in vvTried[b]
        ensures id in info && info[id].fInTried && o.TriedBucket(info[id].service) == b
      {
      }
      forall id | id in info && info[id].fInTried
        ensures info[id].nRefCount == 0 && id in vvTried[o.TriedBucket(info[id].service)]
      {
        assert im.nNew <= id < im.nNew + |kept|;
      }
      assert false;
    }
  }

  lemma {:induction false} UntriedOfPlaced(im: Image, kept: seq<AddrInfo>, buckets: seq<seq<int>>, info: InfoMap)
    requires AllPlaced(im, kept, buckets, info) && PersistedOnly(im.newInfos)
    ensures forall id :: id in info ==> 0 <= id < im.nNew + |kept| && (!info[id].fInTried <==> id < im.nNew)
  {
    forall id | id in info ensures !info[id].fInTried <==> id < im.nNew {
      if id < im.nNew {
        assert im.newInfos[id] == im.newInfos[id].Persisted();
      }
    }
    hide Refs;
  }

  lemma {:induction false} SameHolders(buckets: seq<seq<int>>, vvNew: seq<set<int>>, x: int)
    requires BucketsAre(buckets, vvNew) && |buckets| == NEW_BUCKET_COUNT
    ensures Holders(vvNew, x) == ListedIn(buckets, x)
  {
    forall b ensures b in Holders(vvNew, x) <==> b in ListedIn(buckets, x) {
    }
  }

  /** Untried entries are in place when every one has as many references as buckets that hold it. */
  ghost predicate RefsMatch(nNew: int, buckets: seq<seq<int>>) {
    forall x :: 0 <= x < nNew ==> 1 <= Refs(buckets, x) == |ListedIn(buckets, x)| <= NEW_BUCKETS_PER_ADDRESS
  }

  ghost predicate NamesUntried(nNew: int, buckets: seq<seq<int>>) {
    forall b, k :: 0 <= b < |buckets| && k in buckets[b] ==> 0 <= k < nNew
  }

  ghost predicate SmallSets(buckets: seq<seq<int>>) {
    forall b :: 0 <= b < |buckets| ==> |Elements(buckets[b])| <= NEW_BUCKET_SIZE
  }

  lemma {:induction false} NewOfPlaced(im: Image, kept: seq<AddrInfo>, buckets: seq<seq<int>>, info: InfoMap,
                                       vvNew: seq<set<int>>)
    requires AllPlaced(im, kept, buckets, info) && BucketsAre(buckets, vvNew) && |buckets| == NEW_BUCKET_COUNT
    requires PersistedOnly(im.newInfos)
    ensures NewOk(info, vvNew, -1) <==>
            RefsMatch(im.nNew, buckets) && NamesUntried(im.nNew, buckets) && SmallSets(buckets)
  {
    hide Refs, Holders, ListedIn;
    UntriedOfPlaced(im, kept, buckets, info);
    forall x ensures Holders(vvNew, x) == ListedIn(buckets, x) {
      SameHolders(buckets, vvNew, x);
    }
    forall id | 0 <= id < im.nNew ensures id in info && info[id].nRefCount == Refs(buckets, id) {
    }
    hide AllPlaced;
    if NewOk(info, vvNew, -1) {
      forall b, k | 0 <= b < |buckets| && k in buckets[b] ensures 0 <= k < im.nNew {
        assert vvNew[b] == Elements(buckets[b]);
        assert k in info && !info[k].fInTried;
      }
      forall b | 0 <= b < |buckets| ensures |Elements(buckets[b])| <= NEW_BUCKET_SIZE {
        assert vvNew[b] == Elements(buckets[b]);
      }
    }
  }

  /** The closed form of the same. */
  lemma {:induction false} ListedExactly(im: Image)
    requires |im.buckets| == NEW_BUCKET_COUNT
    ensures BucketsListed(im) <==>
            RefsMatch(im.nNew, im.buckets) && NamesUntried(im.nNew, im.buckets) && SmallSets(im.buckets)
  {
    var buckets := im.buckets;
    hide Refs, ListedIn, Distinct;
    forall x ensures Refs(buckets, x) == |ListedIn(buckets, x)| <==> NeverTwice(buckets, x) {
      RefsListed(buckets, x);
    }
    forall b | 0 <= b < |buckets| ensures Distinct(buckets[b]) <==> forall x :: multiset(buckets[b])[x] <= 1 {
      DistinctExactly(buckets[b]);
    }
    if BucketsListed(im) {
      forall b | 0 <= b < |buckets| ensures |Elements(buckets[b])| <= NEW_BUCKET_SIZE {
        ElementsCard(buckets[b]);
      }
    } else if RefsMatch(im.nNew, im.buckets) && NamesUntried(im.nNew, im.buckets) && SmallSets(im.buckets) {
      forall b | 0 <= b < |buckets| ensures |buckets[b]| <= NEW_BUCKET_SIZE && Distinct(buckets[b]) {
        forall x ensures multiset(buckets[b])[x] <= 1 {
          if x in buckets[b] {
            assert Refs(buckets, x) == |ListedIn(buckets, x)|;
          }
        }
        DistinctCard(buckets[b]);
      }
      assert false;
    }
  }

  lemma {:induction false} RandomPlaces(im: Image, kept: seq<AddrInfo>, named: seq<seq<int>>, buckets: seq<seq<int>>,
                                        info: InfoMap, rnd: seq<int>)
    requires EntriesAre(im, kept, named, buckets, info) && RandomIs(im, |kept|, rnd) && RandomOk(info, rnd)
    requires im.nNew == |im.newInfos|
    ensures AllPlaced(im, kept, buckets, info)
  {
    hide Refs;
  }

  /** Tables and image agree part by part, when all entries are ones that were read. */
  lemma {:induction false} PlacedExactly(o: Oracle, im: Image, info: InfoMap, addr: map<NetAddr, int>, rnd: seq<int>,
                                         vvTried: seq<seq<int>>, vvNew: seq<set<int>>)
    requires Format(im) && ReadState(o, im, info, addr, rnd, vvTried, vvNew) && im.nTried >= 0
    requires AllPlaced(im, KeptTried(o, im.triedInfos), Kept(o, im).buckets, info)
    ensures var k := Kept(o, im);
            TablesOk(o, info, addr, rnd, vvTried, vvNew, im.nNew, k.nTried, im.nNew + |k.triedInfos|, -1) <==>
            ImageOk(o, k)
  {
    var k := Kept(o, im);
    var kept := KeptTried(o, im.triedInfos);
    assert k.triedInfos == kept && |k.buckets| == NEW_BUCKET_COUNT && k.newInfos == im.newInfos && k.nNew == im.nNew;
    hide KeptTried, Kept, EntriesAre, RandomOk, AddrOk, NewOk, TriedOk, CountsOk, AllPlaced, NetsDistinct,
      BucketsListed, PersistedOnly, TriedFiled, BucketsAre, Covers, RandomIs, RefsMatch, NamesUntried, SmallSets,
      TriedUnnamed, TriedCount;
    RandomOfPlaced(im, kept, k.buckets, info, rnd);
    NetsOfPlaced(im, kept, k.buckets, info, addr);
    NewOfPlaced(im, kept, k.buckets, info, vvNew);
    ListedExactly(k);
    TriedOfPlaced(o, im, kept, k.buckets, info, vvTried);
    if NamesUntried(im.nNew, k.buckets) {
      OnlyUntriedNamed(im, kept, k.buckets);
    }
    CountsOfPlaced(im, kept, k.buckets, info);
    KeptPersisted(o, im.triedInfos);
    forall b ensures TriedCount(o, kept, b) <= TRIED_BUCKET_SIZE {
      KeptTriedCount(o, im.triedInfos, b);
    }
  }

  lemma {:induction false} OnlyUntriedNamed(im: Image, kept: seq<AddrInfo>, buckets: seq<seq<int>>)
    requires NamesUntried(im.nNew, buckets)
    ensures TriedUnnamed(im, kept, buckets)
  {
    forall x | im.nNew <= x < im.nNew + |kept| ensures Refs(buckets, x) == 0 {
      NamedSomewhere(buckets, x);
    }
  }

  function Range(lo: int, n: nat): set<int> {
    if n == 0 then {} else Range(lo, n - 1) + {lo + n - 1}
  }

  lemma {:induction false} RangeCard(lo: int, n: nat)
    ensures |Range(lo, n)| == n && forall x :: x in Range(lo, n) <==> lo <= x < lo + n
  {
    if n > 0 {
      RangeCard(lo, n - 1);
    }
  }

  lemma {:induction false} CountsRead(info: InfoMap, nNew: nat, nTried: nat)
    requires (forall id :: id in info <==> 0 <= id < nNew + nTried) && forall id :: id in info ==>
             (!info[id].fInTried <==> id < nNew)
    ensures CountsOk(info, nNew, nTried, nNew + nTried)
  {
    RangeCard(0, nNew);
    RangeCard(nNew, nTried);
    forall id ensures id in Untried(info) <==> id in Range(0, nNew) {
    }
    forall id ensures id in Tried(info) <==> id in Range(nNew, nTried) {
    }
    assert Untried(info) == Range(0, nNew) && Tried(info) == Range(nNew, nTried);
  }

  lemma {:induction false} CountsOfPlaced(im: Image, kept: seq<AddrInfo>, buckets: seq<seq<int>>, info: InfoMap)
    requires AllPlaced(im, kept, buckets, info) && PersistedOnly(im.newInfos)
    ensures CountsOk(info, im.nNew, |kept|, im.nNew + |kept|)
  {
    UntriedOfPlaced(im, kept, buckets, info);
    CountsRead(info, im.nNew, |kept|);
  }

  /** Any image yields consistent tables if and only if what is kept of it is consistent and every
      number in it is that of an entry. */
  lemma {:induction false} ReadExactly(o: Oracle, im: Image, info: InfoMap, addr: map<NetAddr, int>, rnd: seq<int>,
                                       vvTried: seq<seq<int>>, vvNew: seq<set<int>>)
    requires Format(im) && ReadState(o, im, info, addr, rnd, vvTried, vvNew)
    ensures var k := Kept(o, im);
            TablesOk(o, info, addr, rnd, vvTried, vvNew, im.nNew, k.nTried, im.nNew + |k.triedInfos|, -1) <==>
            Readable(o, im)
  {
    var k := Kept(o, im);
    if im.nNew >= 0 && im.nTried >= 0 {
      hide EntriesAre, RandomOk, AddrOk, NewOk, TriedOk, CountsOk, AllPlaced, NetsDistinct, BucketsListed,
        PersistedOnly, TriedFiled, BucketsAre, Covers, RandomIs, TriedCount, NumbersExist, ImageOk;
      NoneMadeUp(o, im, k.buckets, info);
      if AllPlaced(im, k.triedInfos, k.buckets, info) {
        PlacedExactly(o, im, info, addr, rnd, vvTried, vvNew);
      } else if RandomOk(info, rnd) {
        RandomPlaces(im, k.triedInfos, im.buckets, k.buckets, info, rnd);
      }
    } else {
      hide Refs, TriedCount, HomeBuckets, KeptBuckets;
    }
  }

  /** A readable image yields the tables of what is kept of it. */
  lemma {:induction false} ReadIsLoaded(o: Oracle, im: Image, info: InfoMap, addr: map<NetAddr, int>, rnd: seq<int>,
                                        vvTried: seq<seq<int>>, vvNew: seq<set<int>>)
    requires Format(im) && ReadState(o, im, info, addr, rnd, vvTried, vvNew) && Readable(o, im)
    ensures Loaded(o, Kept(o, im), info, addr, rnd, vvTried, vvNew)
  {
    var k := Kept(o, im);
    ReadExactly(o, im, info, addr, rnd, vvTried, vvNew);
    assert im.nNew == |im.newInfos| && k.nTried == |k.triedInfos|;
    hide EntriesAre, RandomOk, AddrOk, NewOk, TriedOk, CountsOk, AllPlaced, NetsDistinct, BucketsListed, PersistedOnly,
      TriedFiled, BucketsAre, Covers, RandomIs, TriedCount, NumbersExist, EntriesAs, BucketsAs, KeptTried;
    NoneMadeUp(o, im, k.buckets, info);
    KeptPersisted(o, im.triedInfos);
    EntriesOfPlaced(im, k, info);
    BucketsOfPlaced(k, vvNew);
  }

  lemma {:induction false} EntriesOfPlaced(im: Image, k: Image, info: InfoMap)
    requires AllPlaced(im, k.triedInfos, k.buckets, info) && k.nNew == im.nNew && k.newInfos == im.newInfos
    requires k.nTried == |k.triedInfos| && PersistedOnly(im.newInfos) && PersistedOnly(k.triedInfos)
    ensures EntriesAs(k, info)
  {
    hide Refs;
    forall x | 0 <= x < |k.newInfos| ensures EntryAs(info, x, k.newInfos[x], false) {
      assert x in info && k.newInfos[x] == k.newInfos[x].Persisted();
    }
    forall x | 0 <= x < |k.triedInfos| ensures EntryAs(info, k.nNew + x, k.triedInfos[x], true) {
      assert k.nNew + x in info && k.triedInfos[x] == k.triedInfos[x].Persisted();
    }
  }

  lemma {:induction false} BucketsOfPlaced(k: Image, vvNew: seq<set<int>>)
    requires BucketsAre(k.buckets, vvNew) && |k.buckets| == NEW_BUCKET_COUNT
    ensures BucketsAs(k, vvNew)
  {
  }

  // ----- what is kept -----

  /** Of the entries of every tried bucket, as many are kept as fit. */
  lemma {:induction false} KeptTriedCount(o: Oracle, infos: seq<AddrInfo>, b: int)
    ensures var n := TriedCount(o, infos, b);
            TriedCount(o, KeptTried(o, infos), b) == if n < TRIED_BUCKET_SIZE then n else TRIED_BUCKET_SIZE
    decreases |infos|
  {
    if infos != [] {
      var kept, e := KeptTried(o, infos[..|infos| - 1]), infos[|infos| - 1];
      KeptTriedCount(o, infos[..|infos| - 1], b);
      TriedCountAdd(o, kept, e, b);
    }
  }

  lemma {:induction false} KeptAllTried(o: Oracle, infos: seq<AddrInfo>)
    requires forall b :: 0 <= b < TRIED_BUCKET_COUNT ==> TriedCount(o, infos, b) <= TRIED_BUCKET_SIZE
    ensures KeptTried(o, infos) == infos
    decreases |infos|
  {
    if infos != [] {
      var n := |infos| - 1;
      var b := o.TriedBucket(infos[n].service);
      forall c ensures TriedCount(o, infos[..n], c) <= TriedCount(o, infos, c) {
      }
      KeptAllTried(o, infos[..n]);
      assert TriedCount(o, infos, b) == TriedCount(o, infos[..n], b) + 1;
      assert infos == infos[..n] + [infos[n]];
    }
  }

  lemma {:induction false} KeptBucketRefs(before: seq<seq<int>>, bucket: seq<int>, x: int)
    requires Refs(before, x) <= NEW_BUCKETS_PER_ADDRESS
    ensures var n := Refs(before, x) + multiset(bucket)[x];
            Refs(before, x) + multiset(KeptBucket(before, bucket))[x] ==
              if n < NEW_BUCKETS_PER_ADDRESS then n else NEW_BUCKETS_PER_ADDRESS
    decreases |bucket|
  {
    if bucket != [] {
      var m := |bucket| - 1;
      KeptBucketRefs(before, bucket[..m], x);
      assert bucket == bucket[..m] + [bucket[m]];
      hide Refs;
    }
  }

  /** Of the references to an entry, the first four are kept. */
  lemma {:induction false} KeptRefsExactly(raw: seq<seq<int>>, x: int)
    ensures var n := Refs(raw, x);
            Refs(KeptBuckets(raw), x) == if n < NEW_BUCKETS_PER_ADDRESS then n else NEW_BUCKETS_PER_ADDRESS
    decreases |raw|
  {
    if raw != [] {
      var m := |raw| - 1;
      KeptRefsExactly(raw[..m], x);
      KeptBucketRefs(KeptBuckets(raw[..m]), raw[m], x);
      assert KeptBuckets(raw)[..m] == KeptBuckets(raw[..m]);
    }
  }

  lemma {:induction false} KeptWholeBucket(before: seq<seq<int>>, bucket: seq<int>)
    requires forall x :: Refs(before, x) + multiset(bucket)[x] <= NEW_BUCKETS_PER_ADDRESS
    ensures KeptBucket(before, bucket) == bucket
    decreases |bucket|
  {
    if bucket != [] {
      var m := |bucket| - 1;
      assert bucket == bucket[..m] + [bucket[m]];
      hide Refs;
      forall x ensures Refs(before, x) + multiset(bucket[..m])[x] <= NEW_BUCKETS_PER_ADDRESS {
        assert Refs(before, x) + multiset(bucket)[x] <= NEW_BUCKETS_PER_ADDRESS;
      }
      KeptWholeBucket(before, bucket[..m]);
      assert Refs(before, bucket[m]) + multiset(bucket)[bucket[m]] <= NEW_BUCKETS_PER_ADDRESS;
    }
  }

  /** No entry has more than four references. */
  ghost predicate FewRefs(raw: seq<seq<int>>) {
    forall x :: Refs(raw, x) <= NEW_BUCKETS_PER_ADDRESS
  }

  lemma {:induction false} FewRefsBefore(raw: seq<seq<int>>)
    requires FewRefs(raw) && raw != []
    ensures var m := |raw| - 1;
            && FewRefs(raw[..m])
            && forall x :: Refs(raw[..m], x) + multiset(raw[m])[x] <= NEW_BUCKETS_PER_ADDRESS
  {
    var m := |raw| - 1;
    forall x ensures Refs(raw[..m], x) + multiset(raw[m])[x] <= NEW_BUCKETS_PER_ADDRESS {
      assert Refs(raw, x) <= NEW_BUCKETS_PER_ADDRESS;
    }
  }

  lemma {:induction false} KeptAllBuckets(raw: seq<seq<int>>)
    requires FewRefs(raw)
    ensures KeptBuckets(raw) == raw
    decreases |raw|
  {
    if raw != [] {
      var m := |raw| - 1;
      hide *;
      FewRefsBefore(raw);
      KeptAllBuckets(raw[..m]);
      KeptWholeBucket(raw[..m], raw[m]);
      KeptLast(raw);
      assert raw == raw[..m] + [raw[m]];
    }
  }

  lemma {:induction false} KeptLast(raw: seq<seq<int>>)
    requires raw != []
    ensures var m := |raw| - 1;
            KeptBuckets(raw) == KeptBuckets(raw[..m]) + [KeptBucket(KeptBuckets(raw[..m]), raw[m])]
  {
  }

  /** Nothing of a consistent image is dropped, so that it is readable as it is. */
  lemma {:induction false} KeptIsAll(o: Oracle, im: Image)
    requires ImageOk(o, im)
    ensures Format(im) && Kept(o, im) == im && Readable(o, im)
  {
    KeptAllTried(o, im.triedInfos);
    ListedExactly(im);
    assert FewRefs(im.buckets) by {
      forall x ensures Refs(im.buckets, x) <= NEW_BUCKETS_PER_ADDRESS {
        NamedSomewhere(im.buckets, x);
      }
    }
    KeptAllBuckets(im.buckets);
    hide KeptTried, KeptBuckets, TriedCount, NetsDistinct, PersistedOnly, RefsMatch, SmallSets;
  }

  // ----- after a change of the number of buckets -----

  /** How many of the untried entries have bucket b as their own. */
  function HomeCount(o: Oracle, infos: seq<AddrInfo>, b: int): nat {
    if infos == [] then 0
    else
      var e := infos[|infos| - 1];
      HomeCount(o, infos[..|infos| - 1], b) + if o.NewBucket(e.service, e.source) == b then 1 else 0
  }

  /** Every bucket has room for the entries whose own bucket it is. */
  ghost predicate RoomAtHome(o: Oracle, infos: seq<AddrInfo>) {
    forall b :: 0 <= b < NEW_BUCKET_COUNT ==> HomeCount(o, infos, b) <= NEW_BUCKET_SIZE
  }

  /** Every untried entry is in its own bucket and in no other. */
  lemma {:induction false} AllAtHome(o: Oracle, infos: seq<AddrInfo>, b: nat)
    requires b < NEW_BUCKET_COUNT
    ensures var bucket := HomeBuckets(o, infos)[b];
            && |bucket| == HomeCount(o, infos, b) && Distinct(bucket)
            && forall k :: k in bucket <==>
                 0 <= k < |infos| && o.NewBucket(infos[k].service, infos[k].source) == b
    decreases |infos|
  {
    if infos != [] {
      var n := |infos| - 1;
      AllAtHome(o, infos[..n], b);
      assert n !in HomeBuckets(o, infos[..n])[b];
      hide Oracle.NewBucket;
    }
  }

  lemma {:induction false} HomeListed(o: Oracle, infos: seq<AddrInfo>, k: int)
    requires 0 <= k < |infos|
    ensures ListedIn(HomeBuckets(o, infos), k) == {o.NewBucket(infos[k].service, infos[k].source)}
  {
    forall b | 0 <= b < NEW_BUCKET_COUNT
      ensures k in HomeBuckets(o, infos)[b] <==> o.NewBucket(infos[k].service, infos[k].source) == b
    {
      AllAtHome(o, infos, b);
    }
    hide HomeBuckets;
  }

  /** An image written with another number of "new" buckets is readable exactly when addresses and
      numbers are in order and every bucket has room for the entries whose own bucket it is. */
  lemma {:induction false} OtherCountExactly(o: Oracle, im: Image)
    requires Format(im) && !SameCount(im) && im.nNew >= 0 && im.nTried >= 0
    ensures Readable(o, im) <==>
            && NetsDistinct(im.newInfos + KeptTried(o, im.triedInfos)) && NumbersExist(o, im)
            && RoomAtHome(o, im.newInfos)
  {
    var k := Kept(o, im);
    KeptPersisted(o, im.triedInfos);
    forall b ensures TriedCount(o, k.triedInfos, b) <= TRIED_BUCKET_SIZE {
      KeptTriedCount(o, im.triedInfos, b);
    }
    HomesListed(o, im, k);
    hide KeptTried, TriedCount, NetsDistinct, PersistedOnly, BucketsListed, NumbersExist, HomeBuckets;
  }

  lemma {:induction false} HomesListed(o: Oracle, im: Image, k: Image)
    requires k.buckets == HomeBuckets(o, im.newInfos) && k.nNew == |im.newInfos|
    ensures BucketsListed(k) <==> RoomAtHome(o, im.newInfos)
  {
    forall b | 0 <= b < NEW_BUCKET_COUNT
      ensures |k.buckets[b]| == HomeCount(o, im.newInfos, b) && Distinct(k.buckets[b])
      ensures forall x :: x in k.buckets[b] ==> 0 <= x < k.nNew
    {
      AllAtHome(o, im.newInfos, b);
    }
    forall x | 0 <= x < k.nNew ensures |ListedIn(k.buckets, x)| == 1 {
      HomeListed(o, im.newInfos, x);
    }
    hide HomeBuckets, ListedIn, HomeCount;
  }

  // ----- an image that is not readable -----

  /** n different addresses from one source. */
  function Crowd(n: nat): (infos: seq<AddrInfo>)
    ensures |infos| == n
    ensures forall i :: 0 <= i < n ==> infos[i] == BLANK.(service := Service(NetAddr(i), 0))
  {
    seq(n, i requires 0 <= i => BLANK.(service := Service(NetAddr(i), 0)))
  }

  /** Hashes that put everything into the first bucket. */
  const SAME := Oracle(_ => 0, (_, _) => 0, (_, _) => 0, (_, _) => 0, _ => true)

  lemma {:induction false} CrowdedBucket(n: nat)
    ensures HomeCount(SAME, Crowd(n), 0) == n
  {
    if n > 0 {
      CrowdedBucket(n - 1);
      assert Crowd(n)[..n - 1] == Crowd(n - 1);
    }
  }

  /** 65 entries in three buckets of the image can be too many for one bucket afterwards. */
  lemma {:induction false} CrowdedExample()
    ensures var im := Image(65, 0, Crowd(65), [], [Counting(0, 30), Counting(30, 60), Counting(60, 65)]);
            Format(im) && NetsDistinct(im.newInfos + KeptTried(SAME, im.triedInfos)) && NumbersExist(SAME, im) &&
              !Readable(SAME, im)
  {
    var im := Image(65, 0, Crowd(65), [], [Counting(0, 30), Counting(30, 60), Counting(60, 65)]);
    CrowdedBucket(65);
    OtherCountExactly(SAME, im);
  }

  function Counting(lo: int, hi: int): (s: seq<int>)
    requires lo <= hi
    ensures |s| == hi - lo && forall i :: 0 <= i < |s| ==> s[i] == lo + i
  {
    seq(hi - lo, i => lo + i)
  }

  // ----- what is kept, entry by entry -----

  ghost function Members(o: Oracle, infos: seq<AddrInfo>, b: int): set<int> {
    set j | 0 <= j < |infos| && o.TriedBucket(infos[j].service) == b
  }

  lemma OneMoreMember(o: Oracle, infos: seq<AddrInfo>, b: int)
    requires infos != []
    ensures var n := |infos| - 1;
            && Members(o, infos, b) == Members(o, infos[..n], b) +
               (if o.TriedBucket(infos[n].service) == b then {n} else {})
            && n !in Members(o, infos[..n], b)
  {
    var n := |infos| - 1;
    hide Oracle.TriedBucket;
    assert forall j :: 0 <= j < n ==> infos[..n][j] == infos[j];
  }

  lemma {:induction false} CountIs(o: Oracle, infos: seq<AddrInfo>, b: int)
    ensures TriedCount(o, infos, b) == |Members(o, infos, b)|
    decreases |infos|
  {
    if infos != [] {
      OneMoreMember(o, infos, b);
      hide Members, Oracle.TriedBucket;
      CountIs(o, infos[..|infos| - 1], b);
    }
  }

  /** One more tried entry is kept exactly when fewer than 64 of those before it belong to the same bucket. */
  lemma {:induction false} KeptTriedExactly(o: Oracle, infos: seq<AddrInfo>, e: AddrInfo)
    ensures KeptTried(o, []) == []
    ensures var rivals := set j | 0 <= j < |infos| && o.TriedBucket(infos[j].service) == o.TriedBucket(e.service);
            && (|rivals| < 64 ==> KeptTried(o, infos + [e]) == KeptTried(o, infos) + [e])
            && (|rivals| >= 64 ==> KeptTried(o, infos + [e]) == KeptTried(o, infos))
  {
    CountIs(o, infos, o.TriedBucket(e.service));
    KeptTriedCount(o, infos, o.TriedBucket(e.service));
    assert (infos + [e])[..|infos + [e]| - 1] == infos;
    hide TriedCount;
  }

  /** One more number in the last bucket is kept exactly when it was kept fewer than four times before. */
  lemma {:induction false} KeptNameExactly(raw: seq<seq<int>>, bucket: seq<int>, x: int)
    ensures KeptBuckets([]) == [] && KeptBuckets(raw + [[]]) == KeptBuckets(raw) + [[]]
    ensures var kept, kept' := KeptBuckets(raw + [bucket]), KeptBuckets(raw + [bucket + [x]]);
            && |kept| == |kept'| == |raw| + 1 && kept[..|raw|] == kept'[..|raw|] == KeptBuckets(raw)
            && (Refs(raw + [bucket], x) < 4 ==> kept'[|raw|] == kept[|raw|] + [x])
            && (Refs(raw + [bucket], x) >= 4 ==> kept'[|raw|] == kept[|raw|])
  {
    OneMoreBucket(raw, []);
    OneMoreBucket(raw, bucket);
    OneMoreBucket(raw, bucket + [x]);
    KeptRefsExactly(raw + [bucket], x);
    RefsOfLast(raw, bucket, x);
    assert (bucket + [x])[..|bucket + [x]| - 1] == bucket;
    hide KeptBuckets, Refs;
  }

  lemma OneMoreBucket(raw: seq<seq<int>>, bucket: seq<int>)
    ensures KeptBuckets(raw + [bucket]) == KeptBuckets(raw) + [KeptBucket(KeptBuckets(raw), bucket)]
  {
    assert (raw + [bucket])[..|raw + [bucket]| - 1] == raw;
    hide KeptBucket;
  }

  lemma RefsOfLast(raw: seq<seq<int>>, bucket: seq<int>, x: int)
    ensures Refs(KeptBuckets(raw + [bucket]), x) ==
            Refs(KeptBuckets(raw), x) + multiset(KeptBucket(KeptBuckets(raw), bucket))[x]
  {
    OneMoreBucket(raw, bucket);
    var kept, last := KeptBuckets(raw), KeptBucket(KeptBuckets(raw), bucket);
    hide KeptBuckets, KeptBucket;
    assert (kept + [last])[..|kept + [last]| - 1] == kept;
  }

  /** The home bucket of every entry lists it, and no other bucket does; those of a bucket are in
      the order of the file. */
  lemma {:induction false} HomesAre(o: Oracle, infos: seq<AddrInfo>, c: nat)
    requires c < 256
    ensures |HomeBuckets(o, infos)| == 256
    ensures forall k :: k in HomeBuckets(o, infos)[c] <==>
              0 <= k < |infos| && o.NewBucket(infos[k].service, infos[k].source) == c
    ensures forall i, j :: 0 <= i < j < |HomeBuckets(o, infos)[c]| ==>
            HomeBuckets(o, infos)[c][i] < HomeBuckets(o, infos)[c][j]
    decreases |infos|
  {
    if infos != [] {
      var n := |infos| - 1;
      HomesAre(o, infos[..n], c);
      hide Oracle.NewBucket;
      var before, home := HomeBuckets(o, infos[..n])[c], HomeBuckets(o, infos)[c];
      assert home == if o.NewBucket(infos[n].service, infos[n].source) == c then before + [n] else before;
      forall i | 0 <= i < |before| ensures before[i] < n {
        assert before[i] in before;
      }
    }
  }

  /** What is kept of a file: all untried entries; the tried ones that find room, with the count of
      them less the lost ones; and the numbers that find room in the buckets of the file, if there
      are 256 of these, and otherwise every untried entry in its home bucket. */
  lemma KeptIs(o: Oracle, im: Image)
    ensures var k := Kept(o, im);
            && k.nNew == im.nNew && k.newInfos == im.newInfos && k.triedInfos == KeptTried(o, im.triedInfos)
            && im.nTried - k.nTried == |im.triedInfos| - |k.triedInfos|
            && (|im.buckets| == 256 ==> k.buckets == KeptBuckets(im.buckets))
            && (|im.buckets| != 256 ==> k.buckets == HomeBuckets(o, im.newInfos))
  {
    hide KeptTried, KeptBuckets, HomeBuckets;
  }
}
