/** The values the address manager's tables hold, and the invariants that tie the
    tables together.  Every predicate here is about values, so that the proofs of the
    class in AddrMan.dfy can change one table at a time. */
module AddrTables {

  const TRIED_BUCKET_COUNT := 64
  const TRIED_BUCKET_SIZE := 64
  const NEW_BUCKET_COUNT := 256
  const NEW_BUCKET_SIZE := 64
  const TRIED_BUCKETS_PER_GROUP := 4
  const NEW_BUCKETS_PER_SOURCE_GROUP := 32
  const NEW_BUCKETS_PER_ADDRESS := 4
  const TRIED_ENTRIES_INSPECT_ON_EVICT := 4
  const HORIZON_DAYS := 30
  const RETRIES := 3
  const MAX_FAILURES := 10
  const MIN_FAIL_DAYS := 7
  const GETADDR_MAX_PCT := 23
  const GETADDR_MAX := 2500

  /** The unsigned 32-bit type that holds an address's last-seen time. */
  type uint32 = x: int | 0 <= x < 0x1_0000_0000

  /** Assigning a wider integer to an unsigned 32-bit field wraps around. */
  function ToUint32(x: int): uint32 {
    x % 0x1_0000_0000
  }

  datatype NetAddr = NetAddr(ip: nat)
  datatype Service = Service(net: NetAddr, port: nat)
  datatype Address = Address(service: Service, nServices: bv64, nTime: uint32)

  datatype AddrInfo = AddrInfo(
    service: Service,
    nServices: bv64,
    nTime: uint32,
    nLastTry: int,
    source: NetAddr,
    nLastSuccess: int,
    nAttempts: int,
    nRefCount: int,
    fInTried: bool,
    nRandomPos: int)
  {
    /** The part of an entry that is written to disk. */
    function Persisted(): AddrInfo {
      this.(nLastTry := 0, nRefCount := 0, fInTried := false, nRandomPos := -1)
    }

    /** The entry after a connection that worked. */
    function Succeeded(nTime: int): AddrInfo {
      this.(nLastSuccess := nTime, nLastTry := nTime, nTime := ToUint32(nTime), nAttempts := 0)
    }

    /** The statistics are bad enough for the entry to be deleted. */
    predicate IsTerrible(nNow: int) {
      if nLastTry != 0 && nLastTry >= nNow - 60 then false
      else
        || nTime > nNow + 10 * 60
        || nTime == 0
        || nNow - nTime > HORIZON_DAYS * 86400
        || (nLastSuccess == 0 && nAttempts >= RETRIES)
        || (nNow - nLastSuccess > MIN_FAIL_DAYS * 86400 && nAttempts >= MAX_FAILURES)
    }
  }

  function NewInfo(addr: Address, source: NetAddr): AddrInfo {
    AddrInfo(addr.service, addr.nServices, addr.nTime, 0, source, 0, 0, 0, false, -1)
  }

  /** The keyed hashes (the secret key is part of each function) and the routability
      test, which this model leaves uninterpreted. */
  datatype Oracle = Oracle(
    hash1Tried: Service -> nat,
    hash2Tried: (NetAddr, nat) -> nat,
    hash1New: (NetAddr, NetAddr) -> nat,
    hash2New: (NetAddr, nat) -> nat,
    isRoutable: NetAddr -> bool)
  {
    function TriedBucket(service: Service): (b: int)
      ensures 0 <= b < TRIED_BUCKET_COUNT
    {
      hash2Tried(service.net, hash1Tried(service) % TRIED_BUCKETS_PER_GROUP) % TRIED_BUCKET_COUNT
    }

    function NewBucket(service: Service, source: NetAddr): (b: int)
      ensures 0 <= b < NEW_BUCKET_COUNT
    {
      hash2New(source, hash1New(service.net, source) % NEW_BUCKETS_PER_SOURCE_GROUP) % NEW_BUCKET_COUNT
    }
  }

  type InfoMap = map<int, AddrInfo>

  /** The "new" buckets that hold id. */
  function Holders(vvNew: seq<set<int>>, id: int): set<int> {
    set b | 0 <= b < |vvNew| && id in vvNew[b]
  }

  function Untried(info: InfoMap): set<int> {
    set id | id in info && !info[id].fInTried
  }

  function Tried(info: InfoMap): set<int> {
    set id | id in info && info[id].fInTried
  }

  /** vRandom is a permutation of the ids, and nRandomPos is its inverse. */
  ghost predicate RandomOk(info: InfoMap, rnd: seq<int>) {
    && (forall i :: 0 <= i < |rnd| ==> rnd[i] in info && info[rnd[i]].nRandomPos == i)
    && (forall id :: id in info ==> 0 <= info[id].nRandomPos < |rnd| && rnd[info[id].nRandomPos] == id)
  }

  /** mapAddr and mapInfo are inverse. */
  ghost predicate AddrOk(info: InfoMap, addr: map<NetAddr, int>) {
    && (forall id :: id in info ==> info[id].service.net in addr && addr[info[id].service.net] == id)
    && (forall a :: a in addr ==> addr[a] in info && info[addr[a]].service.net == a)
  }

  /** The "new" buckets hold untried ids only, none is over-full, and the reference
      count of an untried id is the number of buckets holding it.  The id `pending`
      (if any) has already been counted once for a bucket it is about to enter. */
  ghost predicate NewOk(info: InfoMap, vvNew: seq<set<int>>, pending: int) {
    && |vvNew| == NEW_BUCKET_COUNT
    && (forall b :: 0 <= b < |vvNew| ==> |vvNew[b]| <= NEW_BUCKET_SIZE)
    && (forall b, id :: 0 <= b < |vvNew| && id in vvNew[b] ==> id in info && !info[id].fInTried)
    && (forall id :: id in info && !info[id].fInTried ==>
          && 1 <= info[id].nRefCount <= NEW_BUCKETS_PER_ADDRESS
          && info[id].nRefCount == |Holders(vvNew, id)| + (if id == pending then 1 else 0))
  }

  ghost predicate Distinct(s: seq<int>) {
    forall i, j :: 0 <= i < j < |s| ==> s[i] != s[j]
  }

  /** A tried id has no references and sits exactly once in its own tried bucket. */
  ghost predicate TriedOk(o: Oracle, info: InfoMap, vvTried: seq<seq<int>>) {
    && |vvTried| == TRIED_BUCKET_COUNT
    && (forall b :: 0 <= b < |vvTried| ==> |vvTried[b]| <= TRIED_BUCKET_SIZE && Distinct(vvTried[b]))
    && (forall b, id :: 0 <= b < |vvTried| && id in vvTried[b] ==>
          id in info && info[id].fInTried && o.TriedBucket(info[id].service) == b)
    && (forall id :: id in info && info[id].fInTried ==>
          info[id].nRefCount == 0 && id in vvTried[o.TriedBucket(info[id].service)])
  }

  ghost predicate CountsOk(info: InfoMap, nNew: int, nTried: int, nIdCount: int) {
    && nNew == |Untried(info)|
    && nTried == |Tried(info)|
    && 0 <= nIdCount
    && (forall id :: id in info ==> 0 <= id < nIdCount)
  }

  ghost predicate TablesOk(o: Oracle, info: InfoMap, addr: map<NetAddr, int>, rnd: seq<int>,
                           vvTried: seq<seq<int>>, vvNew: seq<set<int>>,
                           nNew: int, nTried: int, nIdCount: int, pending: int)
  {
    && RandomOk(info, rnd)
    && AddrOk(info, addr)
    && NewOk(info, vvNew, pending)
    && TriedOk(o, info, vvTried)
    && CountsOk(info, nNew, nTried, nIdCount)
  }

  /** The two maps have the same ids and differ at most in statistics and positions:
      address, source, reference count and table stay. */
  ghost predicate SameLinks(info: InfoMap, info': InfoMap) {
    && (forall id :: id in info' <==> id in info)
    && forall id :: id in info' ==>
         && info'[id].service == info[id].service
         && info'[id].source == info[id].source
         && info'[id].nRefCount == info[id].nRefCount
         && info'[id].fInTried == info[id].fInTried
  }

  /** The two maps have the same ids and differ at most in nRandomPos. */
  ghost predicate SameButRandomPos(info: InfoMap, info': InfoMap) {
    && (forall id :: id in info' <==> id in info)
    && forall id :: id in info' ==> info'[id] == info[id].(nRandomPos := info'[id].nRandomPos)
  }

  lemma SameLinksCounts(info: InfoMap, info': InfoMap)
    requires SameLinks(info, info')
    ensures Untried(info') == Untried(info) && Tried(info') == Tried(info)
  {
    forall id ensures id in Untried(info') <==> id in Untried(info) {}
    forall id ensures id in Tried(info') <==> id in Tried(info) {}
  }

  lemma SameLinksAddr(info: InfoMap, info': InfoMap, addr: map<NetAddr, int>)
    requires SameLinks(info, info') && AddrOk(info, addr)
    ensures AddrOk(info', addr)
  {
    forall a | a in addr ensures addr[a] in info' && info'[addr[a]].service.net == a {
      var id := addr[a];
      assert id in info && id in info';
    }
  }

  lemma SameLinksBuckets(o: Oracle, info: InfoMap, info': InfoMap, vvTried: seq<seq<int>>, vvNew: seq<set<int>>,
                         pending: int)
    requires SameLinks(info, info') && NewOk(info, vvNew, pending) && TriedOk(o, info, vvTried)
    ensures NewOk(info', vvNew, pending) && TriedOk(o, info', vvTried)
  {
  }

  /** Statistics, and positions that keep vRandom a permutation, may change without
      touching any invariant. */
  lemma SameLinksKeeps(o: Oracle, info: InfoMap, info': InfoMap, addr: map<NetAddr, int>, rnd: seq<int>, rnd': seq<int>,
                       vvTried: seq<seq<int>>, vvNew: seq<set<int>>, nNew: int, nTried: int, nIdCount: int,
                         pending: int)
    requires SameLinks(info, info') && RandomOk(info', rnd')
    requires TablesOk(o, info, addr, rnd, vvTried, vvNew, nNew, nTried, nIdCount, pending)
    ensures TablesOk(o, info', addr, rnd', vvTried, vvNew, nNew, nTried, nIdCount, pending)
  {
    SameLinksCounts(info, info');
    SameLinksAddr(info, info', addr);
    SameLinksBuckets(o, info, info', vvTried, vvNew, pending);
  }

  /** Taking id out of bucket b takes b out of id's holders and nothing else. */
  lemma HoldersRemove(vvNew: seq<set<int>>, b: int, id: int)
    requires 0 <= b < |vvNew| && id in vvNew[b]
    ensures var v := vvNew[b := vvNew[b] - {id}];
            && Holders(v, id) == Holders(vvNew, id) - {b}
            && b in Holders(vvNew, id)
            && |Holders(v, id)| == |Holders(vvNew, id)| - 1
            && forall x :: x != id ==> Holders(v, x) == Holders(vvNew, x)
  {
    var v := vvNew[b := vvNew[b] - {id}];
    forall x ensures Holders(v, x) == if x == id then Holders(vvNew, x) - {b} else Holders(vvNew, x) {
      forall c ensures c in Holders(v, x) <==> c in (if x == id then Holders(vvNew, x) - {b} else Holders(vvNew, x)) {
      }
    }
  }

  /** Putting id into bucket b adds b to id's holders and nothing else. */
  lemma HoldersInsert(vvNew: seq<set<int>>, b: int, id: int)
    requires 0 <= b < |vvNew| && id !in vvNew[b]
    ensures var v := vvNew[b := vvNew[b] + {id}];
            && |Holders(v, id)| == |Holders(vvNew, id)| + 1
            && forall x :: x != id ==> Holders(v, x) == Holders(vvNew, x)
  {
    var v := vvNew[b := vvNew[b] + {id}];
    HoldersRemove(v, b, id);
    assert v[b := v[b] - {id}] == vvNew by {
      assert v[b] - {id} == vvNew[b];
    }
    assert vvNew[b := vvNew[b] + {id}] == v;
  }

  // ----- visiting an ordered set -----

  lemma AnyElement<T>(s: set<T>) returns (x: T)
    requires s != {}
    ensures x in s
  {
    x :| x in s;
  }

  lemma {:induction false} LeastExists(s: set<int>)
    requires s != {}
    ensures exists x :: x in s && forall y :: y in s ==> x <= y
    decreases |s|
  {
    var x := AnyElement(s);
    if r :| r in s && r < x {
      var t := s - {x};
      assert r in t;
      LeastExists(t);
      var z :| z in t && forall y :: y in t ==> z <= y;
      forall y | y in s ensures z <= y {
        assert y == x || y in t;
      }
      assert z in s;
    } else {
      assert forall y :: y in s ==> x <= y;
    }
  }

  /** The first element an ordered visit of s meets. */
  function Least(s: set<int>): (x: int)
    requires s != {}
    ensures x in s && forall y :: y in s ==> x <= y
  {
    LeastExists(s);
    var x :| x in s && forall y :: y in s ==> x <= y;
    x
  }

  /** The elements of s in the order in which an ordered set is visited. */
  function Ascending(s: set<int>): (r: seq<int>)
    ensures |r| == |s| && (forall x :: x in s <==> x in r)
    ensures forall i, j :: 0 <= i < j < |r| ==> r[i] < r[j]
    decreases |s|
  {
    if s == {} then []
    else
      var x := Least(s);
      [x] + Ascending(s - {x})
  }

  /** t has the entries of s in some order, none of them twice. */
  ghost predicate Shuffled(s: seq<int>, t: seq<int>) {
    |t| == |s| && multiset(t) == multiset(s) && Distinct(t)
  }

  lemma ShuffledMember(s: seq<int>, t: seq<int>, j: int, x: int)
    requires Shuffled(s, t) && 0 <= j < |t|
    ensures t[j] in s && multiset(t[j := x]) == multiset(s) - multiset{t[j]} + multiset{x}
  {
    assert t[j] in multiset(t);
  }

  lemma SwapShuffled(s: seq<int>, t: seq<int>, i: int, j: int)
    requires Shuffled(s, t) && 0 <= i <= j < |t|
    ensures Shuffled(s, t[j := t[i]][i := t[j]])
  {
  }

  // ----- a fresh entry -----

  lemma CreateRandom(info: InfoMap, rnd: seq<int>, id: int, e: AddrInfo)
    requires RandomOk(info, rnd) && id !in info && e.nRandomPos == |rnd|
    ensures RandomOk(info[id := e], rnd + [id])
  {
  }

  lemma CreateAddr(info: InfoMap, addr: map<NetAddr, int>, id: int, e: AddrInfo)
    requires AddrOk(info, addr) && id !in info && e.service.net !in addr
    ensures AddrOk(info[id := e], addr[e.service.net := id])
  {
    var info', addr' := info[id := e], addr[e.service.net := id];
    forall a | a in addr' ensures addr'[a] in info' && info'[addr'[a]].service.net == a {
      if a != e.service.net {
        var x := addr[a];
        assert x in info && x != id;
      }
    }
  }

  lemma CreateBuckets(o: Oracle, info: InfoMap, vvTried: seq<seq<int>>, vvNew: seq<set<int>>, id: int, e: AddrInfo)
    requires NewOk(info, vvNew, -1) && TriedOk(o, info, vvTried) && id !in info && -1 !in info
    requires !e.fInTried && e.nRefCount == 1
    ensures NewOk(info[id := e], vvNew, id) && TriedOk(o, info[id := e], vvTried)
  {
    assert Holders(vvNew, id) == {};
  }

  lemma CreateCounts(info: InfoMap, nNew: int, nTried: int, id: int, e: AddrInfo)
    requires CountsOk(info, nNew, nTried, id) && id !in info && 0 <= id && !e.fInTried
    ensures CountsOk(info[id := e], nNew + 1, nTried, id + 1)
  {
    assert Untried(info[id := e]) == Untried(info) + {id};
    assert Tried(info[id := e]) == Tried(info);
  }

  // ----- an entry that loses its reference from bucket b -----

  function DropRef(info: InfoMap, id: int): InfoMap
    requires id in info
  {
    info[id := info[id].(nRefCount := info[id].nRefCount - 1)]
  }

  lemma DropRefAddr(info: InfoMap, addr: map<NetAddr, int>, id: int)
    requires AddrOk(info, addr) && id in info
    ensures AddrOk(DropRef(info, id), addr)
  {
    var info' := DropRef(info, id);
    forall a | a in addr ensures addr[a] in info' && info'[addr[a]].service.net == a {
      var x := addr[a];
      assert x in info && x in info';
    }
  }

  lemma DropRefCounts(info: InfoMap, id: int)
    requires id in info
    ensures Untried(DropRef(info, id)) == Untried(info) && Tried(DropRef(info, id)) == Tried(info)
  {
    var info' := DropRef(info, id);
    forall x ensures x in Untried(info') <==> x in Untried(info) {}
    forall x ensures x in Tried(info') <==> x in Tried(info) {}
  }

  /** The id table after id loses one reference: an entry without references is gone. */
  function Released(info: InfoMap, id: int): InfoMap
    requires id in info
  {
    if info[id].nRefCount == 1 then info - {id} else DropRef(info, id)
  }

  /** id has lost its reference from bucket b; without references it is gone everywhere. */
  ghost predicate ReleaseStep(info: InfoMap, addr: map<NetAddr, int>, vvNew: seq<set<int>>, nNew: int,
                              info': InfoMap, addr': map<NetAddr, int>, vvNew': seq<set<int>>, nNew': int, id: int,
                                b: int)
  {
    && 0 <= b < |vvNew| && id in vvNew[b] && id in info
    && vvNew' == vvNew[b := vvNew[b] - {id}]
    && SameButRandomPos(Released(info, id), info')
    && addr' == (if info[id].nRefCount == 1 then addr - {info[id].service.net} else addr)
    && nNew' == (if info[id].nRefCount == 1 then nNew - 1 else nNew)
  }

  lemma ReleaseReady(o: Oracle, info: InfoMap, addr: map<NetAddr, int>, rnd: seq<int>, vvTried: seq<seq<int>>,
                     vvNew: seq<set<int>>, nNew: int, nTried: int, nIdCount: int, pending: int, id: int, b: int)
    requires TablesOk(o, info, addr, rnd, vvTried, vvNew, nNew, nTried, nIdCount, pending)
    requires 0 <= b < |vvNew| && id in vvNew[b] && id != pending
    ensures id in info && !info[id].fInTried && 1 <= info[id].nRefCount
    ensures RandomOk(DropRef(info, id), rnd) && AddrOk(DropRef(info, id), addr)
    ensures DropRef(info, id) - {id} == info - {id}
  {
    DropRefAddr(info, addr, id);
  }

  lemma ReleaseTables(o: Oracle, info: InfoMap, addr: map<NetAddr, int>, rnd: seq<int>, vvTried: seq<seq<int>>,
                      vvNew: seq<set<int>>, nNew: int, nTried: int, nIdCount: int, pending: int, id: int, b: int,
                      info': InfoMap, addr': map<NetAddr, int>, rnd': seq<int>, vvNew': seq<set<int>>, nNew': int)
    requires TablesOk(o, info, addr, rnd, vvTried, vvNew, nNew, nTried, nIdCount, pending) && id != pending
    requires ReleaseStep(info, addr, vvNew, nNew, info', addr', vvNew', nNew', id, b)
    requires RandomOk(info', rnd') && AddrOk(info', addr')
    ensures TablesOk(o, info', addr', rnd', vvTried, vvNew', nNew', nTried, nIdCount, pending)
  {
    ReleasedBuckets(o, info, vvTried, vvNew, b, id, pending);
    SameLinksBuckets(o, Released(info, id), info', vvTried, vvNew', pending);
    ReleasedCounts(info, id);
    SameLinksCounts(Released(info, id), info');
  }

  lemma ReleasedCounts(info: InfoMap, id: int)
    requires id in info && !info[id].fInTried
    ensures |Untried(Released(info, id))| == |Untried(info)| - (if info[id].nRefCount == 1 then 1 else 0)
    ensures Tried(Released(info, id)) == Tried(info)
  {
    if info[id].nRefCount == 1 {
      RemoveCounts(info, id);
    } else {
      DropRefCounts(info, id);
    }
  }

  /** An entry outside bucket b survives a release from b, and b then has room. */
  lemma ReleaseKeepsOthers(info: InfoMap, addr: map<NetAddr, int>, vvNew: seq<set<int>>, nNew: int,
                           info': InfoMap, addr': map<NetAddr, int>, vvNew': seq<set<int>>, nNew': int, victim: int,
                             b: int, id: int)
    requires ReleaseStep(info, addr, vvNew, nNew, info', addr', vvNew', nNew', victim, b)
    requires id in info && id !in vvNew[b] && -1 !in info && |vvNew[b]| <= NEW_BUCKET_SIZE
    ensures victim != id && id in info' && info'[id] == info[id].(nRandomPos := info'[id].nRandomPos) && -1 !in info'
    ensures |vvNew'| == |vvNew| && id !in vvNew'[b] && |vvNew'[b]| < NEW_BUCKET_SIZE
  {
    assert -1 !in Released(info, victim);
  }

  lemma ReleasedBuckets(o: Oracle, info: InfoMap, vvTried: seq<seq<int>>, vvNew: seq<set<int>>, b: int, id: int,
                        pending: int)
    requires NewOk(info, vvNew, pending) && 0 <= b < |vvNew| && id in vvNew[b] && id != pending
    requires TriedOk(o, info, vvTried)
    ensures NewOk(Released(info, id), vvNew[b := vvNew[b] - {id}], pending) && TriedOk(o, Released(info, id), vvTried)
  {
    HoldersRemove(vvNew, b, id);
    var v, info' := vvNew[b := vvNew[b] - {id}], Released(info, id);
    forall c, x | 0 <= c < |v| && x in v[c] ensures x in info' && !info'[x].fInTried {
      assert x in vvNew[c];
      if x == id {
        assert c in Holders(v, id);
      }
    }
  }

  lemma RemoveCounts(info: InfoMap, id: int)
    requires id in info && !info[id].fInTried
    ensures |Untried(info - {id})| == |Untried(info)| - 1 && Tried(info - {id}) == Tried(info)
  {
    assert Untried(info - {id}) == Untried(info) - {id};
    forall x ensures x in Tried(info - {id}) <==> x in Tried(info) {}
  }

  lemma RemoveAddr(info: InfoMap, addr: map<NetAddr, int>, id: int)
    requires AddrOk(info, addr) && id in info
    ensures AddrOk(info - {id}, addr - {info[id].service.net})
  {
    var info', addr' := info - {id}, addr - {info[id].service.net};
    forall a | a in addr' ensures addr'[a] in info' && info'[addr'[a]].service.net == a {
      var x := addr[a];
      assert x in info;
    }
  }

  /** The ids can be deleted from the permutation once they are last in it. */
  lemma RemoveLastRandom(info: InfoMap, rnd: seq<int>, id: int)
    requires RandomOk(info, rnd) && id in info && info[id].nRandomPos == |rnd| - 1
    ensures RandomOk(info - {id}, rnd[..|rnd| - 1])
  {
  }

  /** The permutation is as long as there are ids. */
  lemma {:induction false} RandomLength(info: InfoMap, rnd: seq<int>)
    requires RandomOk(info, rnd)
    ensures |rnd| == |info|
    decreases |rnd|
  {
    if rnd == [] {
      assert forall id :: id !in info;
      assert info == map[];
    } else {
      var id := rnd[|rnd| - 1];
      RemoveLastRandom(info, rnd, id);
      RandomLength(info - {id}, rnd[..|rnd| - 1]);
      assert (info - {id}).Keys == info.Keys - {id};
    }
  }

  /** Every id is either tried or not: the two counters add up to the permutation's length. */
  lemma CountersAddUp(info: InfoMap, rnd: seq<int>, nNew: int, nTried: int, nIdCount: int)
    requires RandomOk(info, rnd) && CountsOk(info, nNew, nTried, nIdCount)
    ensures |rnd| == nNew + nTried
  {
    RandomLength(info, rnd);
    assert Untried(info) + Tried(info) == info.Keys;
    assert Untried(info) !! Tried(info);
  }

  // ----- an entry that moves from the "new" buckets to its tried bucket -----

  function Without(vvNew: seq<set<int>>, id: int): (v: seq<set<int>>)
    ensures |v| == |vvNew| && forall b :: 0 <= b < |v| ==> v[b] == vvNew[b] - {id}
  {
    seq(|vvNew|, b requires 0 <= b < |vvNew| => vvNew[b] - {id})
  }

  function Promoted(info: InfoMap, id: int): InfoMap
    requires id in info
  {
    info[id := info[id].(nRefCount := 0, fInTried := true)]
  }

  function Demoted(info: InfoMap, id: int): InfoMap
    requires id in info
  {
    info[id := info[id].(nRefCount := 1, fInTried := false)]
  }

  lemma HoldersWithout(vvNew: seq<set<int>>, id: int, x: int)
    ensures Holders(Without(vvNew, id), x) == if x == id then {} else Holders(vvNew, x)
  {
    forall b ensures b in Holders(Without(vvNew, id), x) <==> b in (if x == id then {} else Holders(vvNew, x)) {}
  }

  lemma PromoteNew(info: InfoMap, vvNew: seq<set<int>>, id: int)
    requires NewOk(info, vvNew, -1) && id in info
    ensures NewOk(Promoted(info, id), Without(vvNew, id), -1)
  {
    var info', v := Promoted(info, id), Without(vvNew, id);
    forall b | 0 <= b < |v| ensures |v[b]| <= NEW_BUCKET_SIZE {
      SubsetCard(v[b], vvNew[b]);
    }
    forall x | x in info' && !info'[x].fInTried
      ensures info'[x].nRefCount == |Holders(v, x)| + (if x == -1 then 1 else 0)
    {
      HoldersWithout(vvNew, id, x);
    }
  }

  lemma SubsetCard<T>(a: set<T>, b: set<T>)
    requires a <= b
    ensures |a| <= |b|
  {
    assert b == a + (b - a);
  }

  lemma PromoteTried(o: Oracle, info: InfoMap, vvTried: seq<seq<int>>, id: int)
    requires TriedOk(o, info, vvTried) && id in info && !info[id].fInTried
    requires |vvTried[o.TriedBucket(info[id].service)]| < TRIED_BUCKET_SIZE
    ensures var k := o.TriedBucket(info[id].service);
            TriedOk(o, Promoted(info, id), vvTried[k := vvTried[k] + [id]])
  {
  }

  lemma PromoteCounts(info: InfoMap, id: int)
    requires id in info && !info[id].fInTried
    ensures |Untried(Promoted(info, id))| == |Untried(info)| - 1 && |Tried(Promoted(info, id))| == |Tried(info)| + 1
  {
    assert Untried(Promoted(info, id)) == Untried(info) - {id};
    assert Tried(Promoted(info, id)) == Tried(info) + {id};
  }

  lemma PromoteLinks(info: InfoMap, addr: map<NetAddr, int>, rnd: seq<int>, id: int, info': InfoMap)
    requires id in info && RandomOk(info, rnd) && AddrOk(info, addr)
    requires info' == Promoted(info, id) || info' == Demoted(info, id)
    ensures RandomOk(info', rnd) && AddrOk(info', addr)
  {
    forall a | a in addr ensures addr[a] in info' && info'[addr[a]].service.net == a {
      var x := addr[a];
      assert x in info && x in info';
    }
  }

  lemma ShuffleTried(o: Oracle, info: InfoMap, vvTried: seq<seq<int>>, k: int, bucket: seq<int>)
    requires TriedOk(o, info, vvTried) && 0 <= k < |vvTried|
    requires Shuffled(vvTried[k], bucket)
    ensures TriedOk(o, info, vvTried[k := bucket])
  {
    forall id ensures id in bucket <==> id in vvTried[k] {
      assert id in bucket <==> id in multiset(bucket);
    }
  }

  /** The entry at position pos of its tried bucket goes back to the "new" table. */
  lemma DemoteTried(o: Oracle, info: InfoMap, vvTried: seq<seq<int>>, k: int, pos: int, id: int)
    requires TriedOk(o, info, vvTried) && 0 <= k < |vvTried| && 0 <= pos < |vvTried[k]|
    requires id in info && !info[id].fInTried && o.TriedBucket(info[id].service) == k
    ensures vvTried[k][pos] in info && info[vvTried[k][pos]].fInTried && vvTried[k][pos] != id
    ensures TriedOk(o, Demoted(Promoted(info, id), vvTried[k][pos]), vvTried[k := vvTried[k][pos := id]])
  {
    var bucket := vvTried[k];
    var ev := bucket[pos];
    assert ev in bucket;
    var info', v := Demoted(Promoted(info, id), ev), vvTried[k := bucket[pos := id]];
    forall x | x in info' && info'[x].fInTried ensures x in v[o.TriedBucket(info'[x].service)] {
      if x == id {
        assert v[k][pos] == id;
      } else {
        assert x in vvTried[o.TriedBucket(info[x].service)];
        if o.TriedBucket(info[x].service) == k {
          var i :| 0 <= i < |bucket| && bucket[i] == x;
          assert v[k][i] == x;
        }
      }
    }
    forall c, x | 0 <= c < |v| && x in v[c]
      ensures x in info' && info'[x].fInTried && o.TriedBucket(info'[x].service) == c
    {
      if c == k && x != id {
        var i :| 0 <= i < |bucket| && v[k][i] == x;
        assert bucket[i] == x && x != ev;
      } else if c != k {
        assert x in vvTried[c];
      }
    }
  }

  lemma DemoteNew(info: InfoMap, vvNew: seq<set<int>>, c: int, id: int)
    requires NewOk(info, vvNew, -1) && id in info && info[id].fInTried && id != -1
    requires 0 <= c < |vvNew| && |vvNew[c]| < NEW_BUCKET_SIZE
    ensures NewOk(Demoted(info, id), vvNew[c := vvNew[c] + {id}], -1)
  {
    assert Holders(vvNew, id) == {};
    HoldersInsert(vvNew, c, id);
  }

  lemma DemoteCounts(info: InfoMap, id: int)
    requires id in info && info[id].fInTried
    ensures |Untried(Demoted(info, id))| == |Untried(info)| + 1 && |Tried(Demoted(info, id))| == |Tried(info)| - 1
  {
    assert Untried(Demoted(info, id)) == Untried(info) + {id};
    assert Tried(Demoted(info, id)) == Tried(info) - {id};
  }

  /** Promoting one entry and demoting another leaves positions, addresses and counters as they were. */
  lemma ReplacedRest(info: InfoMap, addr: map<NetAddr, int>, rnd: seq<int>, id: int, ev: int)
    requires RandomOk(info, rnd) && AddrOk(info, addr) && id in info && ev in info && id != ev
    requires !info[id].fInTried && info[ev].fInTried
    ensures var info' := Demoted(Promoted(info, id), ev);
            && RandomOk(info', rnd) && AddrOk(info', addr)
            && |Untried(info')| == |Untried(info)| && |Tried(info')| == |Tried(info)|
  {
    PromoteLinks(info, addr, rnd, id, Promoted(info, id));
    PromoteCounts(info, id);
    PromoteLinks(Promoted(info, id), addr, rnd, ev, Demoted(Promoted(info, id), ev));
    DemoteCounts(Promoted(info, id), ev);
  }

  lemma TriedMembers(o: Oracle, info: InfoMap, vvTried: seq<seq<int>>, k: int)
    requires TriedOk(o, info, vvTried) && 0 <= k < |vvTried|
    ensures |vvTried| == TRIED_BUCKET_COUNT && Distinct(vvTried[k])
    ensures forall j :: 0 <= j < |vvTried[k]| ==> vvTried[k][j] in info && info[vvTried[k][j]].fInTried
  {
    forall j | 0 <= j < |vvTried[k]| ensures vvTried[k][j] in info && info[vvTried[k][j]].fInTried {
      var id := vvTried[k][j];
      assert id in vvTried[k];
    }
  }

  lemma ReplaceInfo(info: InfoMap, id: int, ev: int)
    requires id in info && ev in info && id != ev
    ensures var info1 := info[id := info[id].(nRefCount := 0)];
            var info2 := info1[ev := info1[ev].(fInTried := false, nRefCount := 1)];
            info2[id := info2[id].(fInTried := true)] == Demoted(Promoted(info, id), ev)
  {
  }

  /** What MakeTried may rely on: id's references are all in the buckets it leaves, and its
      bucket of origin has room once it has left. */
  lemma MakeTriedReady(o: Oracle, info: InfoMap, addr: map<NetAddr, int>, rnd: seq<int>, vvTried: seq<seq<int>>,
                       vvNew: seq<set<int>>, nNew: int, nTried: int, nIdCount: int, id: int, nOrigin: int)
    requires TablesOk(o, info, addr, rnd, vvTried, vvNew, nNew, nTried, nIdCount, -1)
    requires id in info && !info[id].fInTried && 0 <= nOrigin < |vvNew| && id in vvNew[nOrigin]
    ensures -1 !in info && info[id].nRefCount == |Holders(vvNew, id)|
    ensures |vvTried| == TRIED_BUCKET_COUNT && |vvNew| == NEW_BUCKET_COUNT
    ensures |vvTried[o.TriedBucket(info[id].service)]| <= TRIED_BUCKET_SIZE
    ensures NewOk(Promoted(info, id), Without(vvNew, id), -1) && |Without(vvNew, id)[nOrigin]| < NEW_BUCKET_SIZE
  {
    PromoteNew(info, vvNew, id);
  }

  /** nId joins a tried bucket that has room. */
  lemma PromoteTables(o: Oracle, info: InfoMap, addr: map<NetAddr, int>, rnd: seq<int>, vvTried: seq<seq<int>>,
                      vvNew: seq<set<int>>, nNew: int, nTried: int, nIdCount: int, id: int)
    requires RandomOk(info, rnd) && AddrOk(info, addr) && TriedOk(o, info, vvTried) &&
             CountsOk(info, nNew + 1, nTried, nIdCount)
    requires id in info && !info[id].fInTried && NewOk(Promoted(info, id), vvNew, -1)
    requires |vvTried[o.TriedBucket(info[id].service)]| < TRIED_BUCKET_SIZE
    ensures var k := o.TriedBucket(info[id].service);
            TablesOk(o, Promoted(info, id), addr, rnd, vvTried[k := vvTried[k] + [id]], vvNew, nNew, nTried + 1,
                     nIdCount, -1)
  {
    PromoteTried(o, info, vvTried, id);
    PromoteCounts(info, id);
    PromoteLinks(info, addr, rnd, id, Promoted(info, id));
  }

  /** id takes the place of the entry at position pos of its full bucket k, and that entry
      goes to "new" bucket c. */
  lemma ReplaceTables(o: Oracle, info: InfoMap, addr: map<NetAddr, int>, rnd: seq<int>, vvTried: seq<seq<int>>,
                      vvNew: seq<set<int>>, nNew: int, nTried: int, nIdCount: int, k: int, pos: int, id: int, c: int)
    requires RandomOk(info, rnd) && AddrOk(info, addr) && TriedOk(o, info, vvTried) &&
             CountsOk(info, nNew + 1, nTried, nIdCount)
    requires id in info && !info[id].fInTried && NewOk(Promoted(info, id), vvNew, -1)
    requires k == o.TriedBucket(info[id].service) && 0 <= pos < |vvTried[k]|
    requires 0 <= c < |vvNew| && |vvNew[c]| < NEW_BUCKET_SIZE
    ensures vvTried[k][pos] in info && vvTried[k][pos] != id
    ensures TablesOk(o, Demoted(Promoted(info, id), vvTried[k][pos]), addr, rnd, vvTried[k := vvTried[k][pos := id]],
                     vvNew[c := vvNew[c] + {vvTried[k][pos]}], nNew + 1, nTried, nIdCount, -1)
  {
    var ev := vvTried[k][pos];
    DemoteTried(o, info, vvTried, k, pos, id);
    DemoteNew(Promoted(info, id), vvNew, c, ev);
    ReplacedRest(info, addr, rnd, id, ev);
  }

  /** The entry pending for bucket b enters it. */
  lemma EnterNew(info: InfoMap, vvNew: seq<set<int>>, b: int, id: int)
    requires NewOk(info, vvNew, id) && id in info && !info[id].fInTried && -1 !in info
    requires 0 <= b < |vvNew| && id !in vvNew[b] && |vvNew[b]| < NEW_BUCKET_SIZE
    ensures NewOk(info, vvNew[b := vvNew[b] + {id}], -1)
  {
    HoldersInsert(vvNew, b, id);
  }

  lemma BucketMembers(info: InfoMap, vvNew: seq<set<int>>, b: int, pending: int)
    requires NewOk(info, vvNew, pending) && 0 <= b < |vvNew| && -1 !in info
    ensures var order := Ascending(vvNew[b]); forall i :: 0 <= i < |order| ==> order[i] in info && order[i] != -1
  {
    var order := Ascending(vvNew[b]);
    forall i | 0 <= i < |order| ensures order[i] in info && order[i] != -1 {
      var id := order[i];
      assert id in order;
    }
  }

  /** An untried entry is in some bucket. */
  lemma HasHolder(info: InfoMap, vvNew: seq<set<int>>, id: int) returns (b: int)
    requires NewOk(info, vvNew, -1) && id in info && !info[id].fInTried && id != -1
    ensures 0 <= b < |vvNew| && id in vvNew[b]
  {
    b := AnyElement(Holders(vvNew, id));
  }

  /** Different positions of vRandom hold different network addresses. */
  lemma DistinctAddresses(info: InfoMap, addr: map<NetAddr, int>, rnd: seq<int>, i: int, j: int)
    requires RandomOk(info, rnd) && AddrOk(info, addr) && 0 <= i < j < |rnd|
    ensures info[rnd[i]].service.net != info[rnd[j]].service.net
  {
    var x, y := rnd[i], rnd[j];
    assert x in info && y in info && info[x].nRandomPos == i && info[y].nRandomPos == j;
  }

  lemma EnterReady(o: Oracle, info: InfoMap, addr: map<NetAddr, int>, rnd: seq<int>, vvTried: seq<seq<int>>,
                   vvNew: seq<set<int>>, nNew: int, nTried: int, nIdCount: int, id: int, b: int)
    requires TablesOk(o, info, addr, rnd, vvTried, vvNew, nNew, nTried, nIdCount, id) && 0 <= b < |vvNew|
    ensures -1 !in info && |vvNew| == NEW_BUCKET_COUNT && |vvNew[b]| <= NEW_BUCKET_SIZE
  {
  }

  lemma EnterTables(o: Oracle, info: InfoMap, addr: map<NetAddr, int>, rnd: seq<int>, vvTried: seq<seq<int>>,
                    vvNew: seq<set<int>>, nNew: int, nTried: int, nIdCount: int, id: int, b: int)
    requires TablesOk(o, info, addr, rnd, vvTried, vvNew, nNew, nTried, nIdCount, id)
    requires id in info && !info[id].fInTried && 0 <= b < |vvNew| && id !in vvNew[b] && |vvNew[b]| < NEW_BUCKET_SIZE
    ensures TablesOk(o, info, addr, rnd, vvTried, vvNew[b := vvNew[b] + {id}], nNew, nTried, nIdCount, -1)
  {
    EnterNew(info, vvNew, b, id);
  }

  /** id is counted for the bucket it is about to enter. */
  function Counted(info: InfoMap, id: int): InfoMap
    requires id in info
  {
    info[id := info[id].(nRefCount := info[id].nRefCount + 1)]
  }

  lemma CountedTables(o: Oracle, info: InfoMap, addr: map<NetAddr, int>, rnd: seq<int>, vvTried: seq<seq<int>>,
                      vvNew: seq<set<int>>, nNew: int, nTried: int, nIdCount: int, id: int)
    requires TablesOk(o, info, addr, rnd, vvTried, vvNew, nNew, nTried, nIdCount, -1)
    requires id in info && !info[id].fInTried && info[id].nRefCount < NEW_BUCKETS_PER_ADDRESS
    ensures TablesOk(o, Counted(info, id), addr, rnd, vvTried, vvNew, nNew, nTried, nIdCount, id)
  {
    var info' := Counted(info, id);
    CountedAddr(info, addr, id);
    CountedCounts(info, id);
    CountedBuckets(o, info, vvTried, vvNew, id);
  }

  lemma CountedCounts(info: InfoMap, id: int)
    requires id in info
    ensures Untried(Counted(info, id)) == Untried(info) && Tried(Counted(info, id)) == Tried(info)
  {
    forall x ensures x in Untried(Counted(info, id)) <==> x in Untried(info) {}
    forall x ensures x in Tried(Counted(info, id)) <==> x in Tried(info) {}
  }

  lemma CountedAddr(info: InfoMap, addr: map<NetAddr, int>, id: int)
    requires AddrOk(info, addr) && id in info
    ensures AddrOk(Counted(info, id), addr)
  {
    forall a | a in addr ensures addr[a] in Counted(info, id) && Counted(info, id)[addr[a]].service.net == a {
      var x := addr[a];
      assert x in info;
    }
  }

  lemma CountedBuckets(o: Oracle, info: InfoMap, vvTried: seq<seq<int>>, vvNew: seq<set<int>>, id: int)
    requires NewOk(info, vvNew, -1) && TriedOk(o, info, vvTried) && -1 !in info
    requires id in info && !info[id].fInTried && info[id].nRefCount < NEW_BUCKETS_PER_ADDRESS
    ensures NewOk(Counted(info, id), vvNew, id) && TriedOk(o, Counted(info, id), vvTried)
  {
  }

  lemma FreshIsOutside(info: InfoMap, vvNew: seq<set<int>>, id: int, b: int)
    requires NewOk(info, vvNew, -1) && id !in info && 0 <= b < NEW_BUCKET_COUNT
    ensures |vvNew| == NEW_BUCKET_COUNT && id !in vvNew[b]
  {
  }

  // ----- the tables are bounded -----

  function Elements(s: seq<int>): set<int> {
    set x | x in s
  }

  lemma {:induction false} ElementsCard(s: seq<int>)
    ensures |Elements(s)| <= |s|
  {
    if s == [] {
      assert Elements(s) == {};
    } else {
      var t := s[..|s| - 1];
      ElementsCard(t);
      assert Elements(s) == Elements(t) + {s[|s| - 1]};
    }
  }

  function Union(buckets: seq<set<int>>): set<int> {
    if buckets == [] then {} else Union(buckets[..|buckets| - 1]) + buckets[|buckets| - 1]
  }

  lemma {:induction false} UnionCovers(buckets: seq<set<int>>, b: int)
    requires 0 <= b < |buckets|
    ensures buckets[b] <= Union(buckets)
  {
    var init := buckets[..|buckets| - 1];
    if b < |init| {
      UnionCovers(init, b);
      assert init[b] == buckets[b];
    }
  }

  /** The union of n buckets of at most k elements has at most n * k elements. */
  lemma {:induction false} UnionCard(buckets: seq<set<int>>, k: nat)
    requires forall b :: 0 <= b < |buckets| ==> |buckets[b]| <= k
    ensures |Union(buckets)| <= |buckets| * k
  {
    if buckets != [] {
      var init := buckets[..|buckets| - 1];
      UnionCard(init, k);
      UnionOfTwo(Union(init), buckets[|buckets| - 1]);
      assert (|init| + 1) * k == |init| * k + k;
    }
  }

  lemma UnionOfTwo<T>(a: set<T>, b: set<T>)
    ensures |a + b| <= |a| + |b|
  {
    assert a + b == a + (b - a);
    SubsetCard(b - a, b);
  }

  /** Memory does not grow without bound: however many addresses a consistent manager has
      been told of, it keeps at most 256 * 64 untried and 64 * 64 tried ones. */
  lemma TablesAreBounded(o: Oracle, info: InfoMap, addr: map<NetAddr, int>, rnd: seq<int>, vvTried: seq<seq<int>>,
                         vvNew: seq<set<int>>, nNew: int, nTried: int, nIdCount: int)
    requires TablesOk(o, info, addr, rnd, vvTried, vvNew, nNew, nTried, nIdCount, -1)
    ensures nNew <= NEW_BUCKET_COUNT * NEW_BUCKET_SIZE && nTried <= TRIED_BUCKET_COUNT * TRIED_BUCKET_SIZE
    ensures |info| == |rnd| == nNew + nTried <= 20480
  {
    UnionCard(vvNew, NEW_BUCKET_SIZE);
    forall id | id in Untried(info) ensures id in Union(vvNew) {
      var b := HasHolder(info, vvNew, id);
      UnionCovers(vvNew, b);
    }
    SubsetCard(Untried(info), Union(vvNew));
    var tried := seq(|vvTried|, b requires 0 <= b < |vvTried| => Elements(vvTried[b]));
    forall b | 0 <= b < |tried| ensures |tried[b]| <= TRIED_BUCKET_SIZE {
      ElementsCard(vvTried[b]);
    }
    UnionCard(tried, TRIED_BUCKET_SIZE);
    forall id | id in Tried(info) ensures id in Union(tried) {
      UnionCovers(tried, o.TriedBucket(info[id].service));
      assert id in tried[o.TriedBucket(info[id].service)];
    }
    SubsetCard(Tried(info), Union(tried));
    RandomLength(info, rnd);
    CountersAddUp(info, rnd, nNew, nTried, nIdCount);
  }
}
