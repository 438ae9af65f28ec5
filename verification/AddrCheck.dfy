/** The address manager's self-check, on any state of the tables: the states it passes are
    exactly those that meet a closed condition, and the states the operations keep are
    among them as soon as the recorded times are sane. */
module AddrCheck {
  import opened AddrTables

  /** What a look-up that inserts a missing key finds. */
  function Lookup(addr: map<NetAddr, int>, net: NetAddr): int {
    if net in addr then addr[net] else 0
  }

  /** The first complaint about one entry, or 0. */
  function EntryCode(e: AddrInfo, n: int, addr: map<NetAddr, int>, rnd: seq<int>): int {
    if e.fInTried && e.nLastSuccess == 0 then -1
    else if e.fInTried && e.nRefCount != 0 then -2
    else if !e.fInTried && (e.nRefCount < 0 || e.nRefCount > NEW_BUCKETS_PER_ADDRESS) then -3
    else if !e.fInTried && e.nRefCount == 0 then -4
    else if Lookup(addr, e.service.net) != n then -5
    else if e.nRandomPos < 0 || e.nRandomPos >= |rnd| || rnd[e.nRandomPos] != n then -14
    else if e.nLastTry < 0 then -6
    else if e.nLastSuccess < 0 then -8
    else 0
  }

  ghost predicate EntriesPass(info: InfoMap, addr: map<NetAddr, int>, rnd: seq<int>) {
    forall n :: n in info ==> EntryCode(info[n], n, addr, rnd) == 0
  }

  /** All tried buckets as one sequence. */
  ghost function Flat(vvTried: seq<seq<int>>): seq<int> {
    if vvTried == [] then [] else Flat(vvTried[..|vvTried| - 1]) + vvTried[|vvTried| - 1]
  }

  /** In how many "new" buckets an id should be. */
  ghost function Owed(info: InfoMap, id: int): int {
    if id in info && !info[id].fInTried then info[id].nRefCount else 0
  }

  /** Every entry is sound; the counters are right; the tried buckets hold every tried id
      once and nothing else; and every id is in as many "new" buckets as it has references. */
  ghost predicate Consistent(info: InfoMap, addr: map<NetAddr, int>, rnd: seq<int>, vvTried: seq<seq<int>>,
                             vvNew: seq<set<int>>, nNew: int, nTried: int)
  {
    && |rnd| == nTried + nNew && EntriesPass(info, addr, rnd)
    && |Tried(info)| == nTried && |Untried(info)| == nNew
    && multiset(Flat(vvTried)) == multiset(Tried(info))
    && forall id :: |Holders(vvNew, id)| == Owed(info, id)
  }

  // ----- the entries -----

  /** What the first pass has collected from the entries with the given ids. */
  ghost predicate Collected(info: InfoMap, keys: seq<int>, setTried: set<int>, mapNew: map<int, int>) {
    && (forall id :: id in setTried <==> id in keys && id in info && info[id].fInTried)
    && (forall id :: id in mapNew <==> id in keys && id in info && !info[id].fInTried)
    && forall id :: id in mapNew ==> mapNew[id] == info[id].nRefCount
  }

  lemma {:induction false} CollectStep(info: InfoMap, keys: seq<int>, i: nat, setTried: set<int>, mapNew: map<int, int>)
    requires i < |keys| && keys[i] in info && Collected(info, keys[..i], setTried, mapNew)
    ensures var n := keys[i];
            if info[n].fInTried then Collected(info, keys[..i + 1], setTried + {n}, mapNew)
            else Collected(info, keys[..i + 1], setTried, mapNew[n := info[n].nRefCount])
  {
    assert keys[..i + 1] == keys[..i] + [keys[i]];
  }

  ghost predicate PassSoFar(info: InfoMap, addr: map<NetAddr, int>, rnd: seq<int>, keys: seq<int>, i: nat) {
    i <= |keys| && forall j :: 0 <= j < i ==> keys[j] in info && EntryCode(info[keys[j]], keys[j], addr, rnd) == 0
  }

  lemma {:induction false} PassStep(info: InfoMap, addr: map<NetAddr, int>, rnd: seq<int>, keys: seq<int>, i: nat)
    requires i < |keys| && keys[i] in info && PassSoFar(info, addr, rnd, keys, i)
    ensures if EntryCode(info[keys[i]], keys[i], addr, rnd) == 0 then PassSoFar(info, addr, rnd, keys, i + 1)
            else !EntriesPass(info, addr, rnd)
  {
    hide EntryCode;
  }

  lemma {:induction false} CollectedAll(info: InfoMap, addr: map<NetAddr, int>, rnd: seq<int>, keys: seq<int>,
                                        setTried: set<int>, mapNew: map<int, int>)
    requires (forall n :: n in info ==> n in keys) && PassSoFar(info, addr, rnd, keys, |keys|) &&
             Collected(info, keys[..|keys|], setTried, mapNew)
    ensures EntriesPass(info, addr, rnd)
    ensures setTried == Tried(info) && mapNew.Keys == Untried(info) && forall id :: id in mapNew ==>
            mapNew[id] == info[id].nRefCount
  {
    hide EntryCode;
    assert keys[..|keys|] == keys;
    forall n | n in info ensures EntryCode(info[n], n, addr, rnd) == 0 {
      assert n in keys;
    }
    hide PassSoFar;
    forall id ensures id in setTried <==> id in Tried(info) {
    }
    forall id ensures id in mapNew.Keys <==> id in Untried(info) {
    }
  }

  /** r is the complaint about the entry with the lowest id that there is one about. */
  ghost predicate FirstComplaint(info: InfoMap, addr: map<NetAddr, int>, rnd: seq<int>, r: int) {
    exists n :: n in info && EntryCode(info[n], n, addr, rnd) == r != 0 && NoneBefore(info, addr, rnd, n)
  }

  ghost predicate NoneBefore(info: InfoMap, addr: map<NetAddr, int>, rnd: seq<int>, n: int) {
    forall m :: m in info && m < n ==> EntryCode(info[m], m, addr, rnd) == 0
  }

  lemma {:induction false} FirstFails(info: InfoMap, addr: map<NetAddr, int>, rnd: seq<int>, keys: seq<int>, i: nat)
    requires keys == Ascending(info.Keys) && i < |keys| && keys[i] in info && PassSoFar(info, addr, rnd, keys, i)
    requires EntryCode(info[keys[i]], keys[i], addr, rnd) != 0
    ensures FirstComplaint(info, addr, rnd, EntryCode(info[keys[i]], keys[i], addr, rnd))
  {
    hide Ascending, EntryCode;
    forall m | m in info && m < keys[i] ensures EntryCode(info[m], m, addr, rnd) == 0 {
      assert m in info.Keys;
      assert m in keys;
      var j :| 0 <= j < |keys| && keys[j] == m;
      assert j < i;
    }
    assert NoneBefore(info, addr, rnd, keys[i]);
  }

  method CheckEntries(info: InfoMap, addr: map<NetAddr, int>, rnd: seq<int>)
    returns (r: int, setTried: set<int>, mapNew: map<int, int>)
    ensures r == 0 <==> EntriesPass(info, addr, rnd)
    ensures r != 0 ==> FirstComplaint(info, addr, rnd, r)
    ensures r == 0 ==> setTried == Tried(info) && mapNew.Keys == Untried(info) && forall id :: id in mapNew ==>
            mapNew[id] == info[id].nRefCount
  {
    var keys := Ascending(info.Keys);
    r, setTried, mapNew := 0, {}, map[];
    assert Collected(info, keys[..0], setTried, mapNew) && PassSoFar(info, addr, rnd, keys, 0);
    hide Collected, PassSoFar, EntriesPass, EntryCode, Tried, Untried, FirstComplaint, Ascending;
    for i := 0 to |keys|
      invariant Collected(info, keys[..i], setTried, mapNew) && PassSoFar(info, addr, rnd, keys, i)
    {
      var n := keys[i];
      assert n in info.Keys;
      CollectStep(info, keys, i, setTried, mapNew);
      PassStep(info, addr, rnd, keys, i);
      r := EntryCode(info[n], n, addr, rnd);
      if r != 0 {
        FirstFails(info, addr, rnd, keys, i);
        return;
      }
      if info[n].fInTried {
        setTried := setTried + {n};
      } else {
        mapNew := mapNew[n := info[n].nRefCount];
      }
    }
    r := 0;
    CollectedAll(info, addr, rnd, keys, setTried, mapNew);
  }

  // ----- the tried buckets -----

  /** Crosses the entries of one bucket off the set. */
  method CrossOff(setTried: set<int>, bucket: seq<int>) returns (ok: bool, rest: set<int>)
    ensures ok <==> multiset(bucket) <= multiset(setTried)
    ensures ok ==> multiset(rest) + multiset(bucket) == multiset(setTried)
  {
    rest := setTried;
    assert bucket[..0] == [];
    for j := 0 to |bucket|
      invariant multiset(rest) + multiset(bucket[..j]) == multiset(setTried)
    {
      assert bucket[..j + 1] == bucket[..j] + [bucket[j]];
      if bucket[j] !in rest {
        assert bucket == bucket[..j + 1] + bucket[j + 1..];
        assert multiset(bucket)[bucket[j]] > multiset(setTried)[bucket[j]];
        return false, rest;
      }
      rest := rest - {bucket[j]};
    }
    assert bucket[..|bucket|] == bucket;
    ok := true;
  }

  lemma {:induction false} FlatStep(vvTried: seq<seq<int>>, n: nat)
    requires n < |vvTried|
    ensures Flat(vvTried[..n + 1]) == Flat(vvTried[..n]) + vvTried[n]
  {
    assert vvTried[..n + 1][..n] == vvTried[..n];
  }

  lemma {:induction false} FlatPrefix(vvTried: seq<seq<int>>, n: nat)
    requires n <= |vvTried|
    ensures multiset(Flat(vvTried[..n])) <= multiset(Flat(vvTried))
    decreases |vvTried| - n
  {
    if n < |vvTried| {
      FlatStep(vvTried, n);
      FlatPrefix(vvTried, n + 1);
    } else {
      assert vvTried[..n] == vvTried;
    }
  }

  method CheckTried(setTried: set<int>, vvTried: seq<seq<int>>) returns (ok: bool, rest: set<int>)
    ensures ok <==> multiset(Flat(vvTried)) <= multiset(setTried)
    ensures ok ==> (rest == {} <==> multiset(Flat(vvTried)) == multiset(setTried))
  {
    rest := setTried;
    assert Flat(vvTried[..0]) == [];
    for n := 0 to |vvTried|
      invariant multiset(rest) + multiset(Flat(vvTried[..n])) == multiset(setTried)
    {
      ghost var before := rest;
      ok, rest := CrossOff(rest, vvTried[n]);
      FlatStep(vvTried, n);
      if !ok {
        FlatPrefix(vvTried, n + 1);
        TooMany(multiset(before), multiset(vvTried[n]), multiset(Flat(vvTried[..n])), multiset(setTried),
                multiset(Flat(vvTried)));
        return;
      }
    }
    assert vvTried[..|vvTried|] == vvTried;
    ok := true;
    NothingLeft(rest, multiset(Flat(vvTried)), multiset(setTried));
  }

  lemma {:induction false} TooMany(left: multiset<int>, next: multiset<int>, done: multiset<int>, whole: multiset<int>,
                                   flat: multiset<int>)
    requires left + done == whole && done + next <= flat
    ensures flat <= whole ==> next <= left
  {
    if flat <= whole {
      forall x ensures next[x] <= left[x] {
        assert (done + next)[x] <= whole[x];
      }
    }
  }

  lemma {:induction false} NothingLeft(rest: set<int>, flat: multiset<int>, whole: multiset<int>)
    requires multiset(rest) + flat == whole
    ensures flat <= whole && (rest == {} <==> flat == whole)
  {
    if rest != {} {
      var x := AnyElement(rest);
      assert whole[x] == flat[x] + 1;
    } else {
      assert multiset(rest) == multiset{};
    }
  }

  // ----- the "new" buckets -----

  ghost function Count(m: map<int, int>, id: int): int {
    if id in m then m[id] else 0
  }

  ghost predicate Positive(m: map<int, int>) {
    forall id :: id in m ==> m[id] >= 1
  }

  lemma {:induction false} IsNext(ids: seq<int>, j: nat)
    requires j < |ids| && Distinct(ids)
    ensures ids[j] !in ids[..j] && ids[..j + 1] == ids[..j] + [ids[j]]
  {
  }

  /** The given entries have each lost one reference. */
  ghost predicate CountedDown(mapNew: map<int, int>, ids: seq<int>, rest: map<int, int>) {
    Positive(rest) && forall id :: Count(rest, id) == Count(mapNew, id) - if id in ids then 1 else 0
  }

  /** One reference less, and no entry without references. */
  function Decremented(m: map<int, int>, id: int): map<int, int>
    requires id in m
  {
    if m[id] - 1 == 0 then m - {id} else m[id := m[id] - 1]
  }

  lemma {:induction false} CountDownStep(mapNew: map<int, int>, ids: seq<int>, rest: map<int, int>, id: int)
    requires CountedDown(mapNew, ids, rest) && id !in ids && Positive(mapNew)
    ensures id in rest <==> id in mapNew
    ensures id in rest ==> CountedDown(mapNew, ids + [id], Decremented(rest, id))
  {
    assert Count(rest, id) == Count(mapNew, id);
    if id in rest {
      var rest' := Decremented(rest, id);
      forall x ensures Count(rest', x) == Count(rest, x) - if x == id then 1 else 0 {
      }
      assert Positive(rest');
      hide Count, Positive;
      forall x ensures Count(rest', x) == Count(mapNew, x) - if x in ids + [id] then 1 else 0 {
        assert x in ids + [id] <==> x in ids || x == id;
      }
    }
  }

  /** Takes one reference from each of the given entries. */
  method CountDown(mapNew: map<int, int>, ids: seq<int>) returns (ok: bool, rest: map<int, int>)
    requires Positive(mapNew) && Distinct(ids)
    ensures ok <==> forall i :: 0 <= i < |ids| ==> ids[i] in mapNew
    ensures ok ==> CountedDown(mapNew, ids, rest)
  {
    rest := mapNew;
    assert CountedDown(mapNew, ids[..0], rest);
    hide CountedDown, Positive, Count, Decremented, Distinct;
    for j := 0 to |ids|
      invariant CountedDown(mapNew, ids[..j], rest) && forall i :: 0 <= i < j ==> ids[i] in mapNew
    {
      IsNext(ids, j);
      CountDownStep(mapNew, ids[..j], rest, ids[j]);
      if ids[j] !in rest {
        return false, rest;
      }
      rest := Decremented(rest, ids[j]);
    }
    assert ids[..|ids|] == ids;
    ok := true;
  }

  lemma {:induction false} AllIn(m: map<int, int>, vNew: set<int>, ids: seq<int>)
    requires forall x :: x in vNew <==> x in ids
    ensures (forall id :: id in vNew ==> id in m) <==> forall i :: 0 <= i < |ids| ==> ids[i] in m
  {
    if forall i :: 0 <= i < |ids| ==> ids[i] in m {
      forall id | id in vNew ensures id in m {
        assert id in ids;
      }
    }
    if forall id :: id in vNew ==> id in m {
      forall i | 0 <= i < |ids| ensures ids[i] in m {
        var id := ids[i];
        assert id in ids;
        assert id in vNew;
      }
    }
  }

  lemma {:induction false} CountedBucket(mapNew: map<int, int>, vNew: set<int>, ids: seq<int>, rest: map<int, int>)
    requires CountedDown(mapNew, ids, rest) && forall x :: x in vNew <==> x in ids
    ensures Positive(rest) && forall id :: Count(rest, id) == Count(mapNew, id) - if id in vNew then 1 else 0
  {
    hide Positive, Count;
  }

  lemma {:induction false} HoldersStep(vvNew: seq<set<int>>, b: nat, id: int)
    requires b < |vvNew|
    ensures |Holders(vvNew[..b + 1], id)| == |Holders(vvNew[..b], id)| + if id in vvNew[b] then 1 else 0
    ensures |Holders(vvNew[..b + 1], id)| <= |Holders(vvNew, id)|
  {
    var before, after := Holders(vvNew[..b], id), Holders(vvNew[..b + 1], id);
    assert after == if id in vvNew[b] then before + {b} else before;
    SubsetCard(after, Holders(vvNew, id));
  }

  /** After b buckets, what is left is what is still owed. */
  ghost predicate Owing(mapNew: map<int, int>, vvNew: seq<set<int>>, b: nat, rest: map<int, int>) {
    && b <= |vvNew| && Positive(rest)
    && forall id :: Count(rest, id) + |Holders(vvNew[..b], id)| == Count(mapNew, id)
  }

  lemma {:induction false} OwingStep(mapNew: map<int, int>, vvNew: seq<set<int>>, b: nat, rest: map<int, int>,
                                     rest': map<int, int>)
    requires Owing(mapNew, vvNew, b, rest) && b < |vvNew| && Positive(rest')
    requires forall id :: Count(rest', id) == Count(rest, id) - if id in vvNew[b] then 1 else 0
    ensures Owing(mapNew, vvNew, b + 1, rest')
  {
    hide Count;
    forall id ensures Count(rest', id) + |Holders(vvNew[..b + 1], id)| == Count(mapNew, id) {
      HoldersStep(vvNew, b, id);
    }
  }

  /** An entry of a bucket that is owed nothing has too many references. */
  lemma {:induction false} OwingFails(mapNew: map<int, int>, vvNew: seq<set<int>>, b: nat, rest: map<int, int>, id: int)
    requires Owing(mapNew, vvNew, b, rest) && b < |vvNew| && id in vvNew[b] && id !in rest
    ensures |Holders(vvNew, id)| > Count(mapNew, id)
  {
    HoldersStep(vvNew, b, id);
  }

  method CheckNew(mapNew: map<int, int>, vvNew: seq<set<int>>) returns (ok: bool, rest: map<int, int>)
    requires Positive(mapNew)
    ensures ok <==> forall id :: |Holders(vvNew, id)| <= Count(mapNew, id)
    ensures ok ==> (rest == map[] <==> forall id :: |Holders(vvNew, id)| == Count(mapNew, id))
  {
    rest := mapNew;
    NothingHeld(mapNew, vvNew);
    hide Owing, CountedDown, Positive, Count, Holders, Ascending;
    for n := 0 to |vvNew|
      invariant Owing(mapNew, vvNew, n, rest)
    {
      ghost var before := rest;
      var ids := Ascending(vvNew[n]);
      ok, rest := CountDown(rest, ids);
      AllIn(before, vvNew[n], ids);
      if !ok {
        ghost var id :| id in vvNew[n] && id !in before;
        OwingFails(mapNew, vvNew, n, before, id);
        return;
      }
      CountedBucket(before, vvNew[n], ids, rest);
      OwingStep(mapNew, vvNew, n, before, rest);
    }
    ok := true;
    OwingDone(mapNew, vvNew, rest);
  }

  lemma {:induction false} NothingHeld(mapNew: map<int, int>, vvNew: seq<set<int>>)
    requires Positive(mapNew)
    ensures Owing(mapNew, vvNew, 0, mapNew)
  {
    forall id ensures Holders(vvNew[..0], id) == {} {
    }
  }

  lemma {:induction false} OwingDone(mapNew: map<int, int>, vvNew: seq<set<int>>, rest: map<int, int>)
    requires Owing(mapNew, vvNew, |vvNew|, rest)
    ensures forall id :: |Holders(vvNew, id)| <= Count(mapNew, id)
    ensures rest == map[] <==> forall id :: |Holders(vvNew, id)| == Count(mapNew, id)
  {
    assert vvNew[..|vvNew|] == vvNew;
    hide Holders;
    assert forall id :: Count(rest, id) + |Holders(vvNew, id)| == Count(mapNew, id);
    if forall id :: |Holders(vvNew, id)| == Count(mapNew, id) {
      forall id ensures id !in rest {
        assert Count(rest, id) == 0;
      }
      assert rest == map[];
    }
  }

  // ----- the whole check -----

  lemma {:induction false} PassedRefs(info: InfoMap, addr: map<NetAddr, int>, rnd: seq<int>, mapNew: map<int, int>)
    requires EntriesPass(info, addr, rnd) && mapNew.Keys == Untried(info) && forall id :: id in mapNew ==>
             mapNew[id] == info[id].nRefCount
    ensures Positive(mapNew) && forall id :: Count(mapNew, id) == Owed(info, id)
    ensures |mapNew| == |Untried(info)|
  {
    forall id | id in mapNew ensures mapNew[id] >= 1 {
      assert id in Untried(info) && EntryCode(info[id], id, addr, rnd) == 0;
    }
    forall id ensures Count(mapNew, id) == Owed(info, id) {
      assert id in mapNew <==> id in Untried(info);
    }
  }

  /** The self-check passes exactly the consistent states. */
  method Check(info: InfoMap, addr: map<NetAddr, int>, rnd: seq<int>, vvTried: seq<seq<int>>, vvNew: seq<set<int>>,
               nNew: int, nTried: int)
    returns (r: int)
    ensures r == 0 <==> Consistent(info, addr, rnd, vvTried, vvNew, nNew, nTried)
    ensures |rnd| != nTried + nNew ==> r == -7
    ensures |rnd| == nTried + nNew && !EntriesPass(info, addr, rnd) ==> FirstComplaint(info, addr, rnd, r)
    ensures |rnd| == nTried + nNew && EntriesPass(info, addr, rnd) ==>
              r == (if |Tried(info)| != nTried then -9
                    else if |Untried(info)| != nNew then -10
                    else if !(multiset(Flat(vvTried)) <= multiset(Tried(info))) then -11
                    else if exists id :: |Holders(vvNew, id)| > Owed(info, id) then -12
                    else if multiset(Flat(vvTried)) != multiset(Tried(info)) then -13
                    else if exists id :: |Holders(vvNew, id)| != Owed(info, id) then -15
                    else 0)
  {
    if |rnd| != nTried + nNew {
      return -7;
    }
    hide EntryCode, EntriesPass, Tried, Untried, Holders, Flat, Count, Owed, Positive, FirstComplaint;
    var code, setTried, mapNew := CheckEntries(info, addr, rnd);
    if code != 0 {
      return code;
    }
    PassedRefs(info, addr, rnd, mapNew);
    if |setTried| != nTried {
      return -9;
    }
    if |mapNew| != nNew {
      return -10;
    }
    var ok;
    ok, setTried := CheckTried(setTried, vvTried);
    if !ok {
      return -11;
    }
    ok, mapNew := CheckNew(mapNew, vvNew);
    if !ok {
      return -12;
    }
    if |setTried| != 0 {
      return -13;
    }
    if |mapNew| != 0 {
      return -15;
    }
    r := 0;
  }

  // ----- the states the operations keep -----

  /** The times recorded for every entry are not before the epoch, and a tried entry has
      succeeded at some time other than 0. */
  ghost predicate TimesOk(info: InfoMap) {
    forall id :: id in info ==>
      (info[id].fInTried ==> info[id].nLastSuccess != 0) && info[id].nLastTry >= 0 && info[id].nLastSuccess >= 0
  }

  lemma {:induction false} EntriesOfTables(o: Oracle, info: InfoMap, addr: map<NetAddr, int>, rnd: seq<int>,
                                           vvTried: seq<seq<int>>, vvNew: seq<set<int>>)
    requires RandomOk(info, rnd) && AddrOk(info, addr) && NewOk(info, vvNew, -1) && TriedOk(o, info, vvTried)
    ensures EntriesPass(info, addr, rnd) <==> TimesOk(info)
  {
    forall n | n in info
      ensures EntryCode(info[n], n, addr, rnd) == 0 <==>
              (info[n].fInTried ==> info[n].nLastSuccess != 0) && info[n].nLastTry >= 0 && info[n].nLastSuccess >= 0
    {
    }
  }

  lemma {:induction false} OnceInOwn(o: Oracle, info: InfoMap, vvTried: seq<seq<int>>, b: int, x: int)
    requires TriedOk(o, info, vvTried) && 0 <= b < |vvTried|
    ensures multiset(vvTried[b])[x] == if x in info && info[x].fInTried && o.TriedBucket(info[x].service) == b then 1
            else 0
  {
    OnceIn(vvTried[b], x);
  }

  lemma {:induction false} CountOfConcat(a: seq<int>, b: seq<int>, x: int)
    ensures multiset(a + b)[x] == multiset(a)[x] + multiset(b)[x]
  {
  }

  /** The ids of the first n tried buckets, each once. */
  lemma {:induction false} FlatOfTables(o: Oracle, info: InfoMap, vvTried: seq<seq<int>>, n: nat, x: int)
    requires TriedOk(o, info, vvTried) && n <= |vvTried|
    ensures multiset(Flat(vvTried[..n]))[x] == if x in info && info[x].fInTried && o.TriedBucket(info[x].service) < n
            then 1 else 0
    decreases n
  {
    if n == 0 {
      assert Flat(vvTried[..0]) == [];
    } else {
      hide TriedOk, Flat, Oracle.TriedBucket;
      FlatStep(vvTried, n - 1);
      FlatOfTables(o, info, vvTried, n - 1, x);
      OnceInOwn(o, info, vvTried, n - 1, x);
      CountOfConcat(Flat(vvTried[..n - 1]), vvTried[n - 1], x);
    }
  }

  lemma {:induction false} OnceIn(s: seq<int>, x: int)
    requires Distinct(s)
    ensures multiset(s)[x] == if x in s then 1 else 0
    decreases |s|
  {
    if s != [] {
      var t := s[..|s| - 1];
      assert s == t + [s[|s| - 1]];
      OnceIn(t, x);
    }
  }

  /** A state the operations keep passes the self-check exactly when its times are sane. */
  lemma {:induction false} TablesPass(o: Oracle, info: InfoMap, addr: map<NetAddr, int>, rnd: seq<int>,
                                      vvTried: seq<seq<int>>, vvNew: seq<set<int>>, nNew: int, nTried: int,
                                      nIdCount: int)
    requires TablesOk(o, info, addr, rnd, vvTried, vvNew, nNew, nTried, nIdCount, -1)
    ensures Consistent(info, addr, rnd, vvTried, vvNew, nNew, nTried) <==> TimesOk(info)
  {
    CountersAddUp(info, rnd, nNew, nTried, nIdCount);
    EntriesOfTables(o, info, addr, rnd, vvTried, vvNew);
    TriedOfTables(o, info, vvTried);
    forall id ensures |Holders(vvNew, id)| == Owed(info, id) {
      HeldOfTables(info, vvNew, nNew, nTried, nIdCount, id);
    }
  }

  lemma {:induction false} TriedOfTables(o: Oracle, info: InfoMap, vvTried: seq<seq<int>>)
    requires TriedOk(o, info, vvTried)
    ensures multiset(Flat(vvTried)) == multiset(Tried(info))
  {
    assert vvTried[..|vvTried|] == vvTried;
    forall x ensures multiset(Flat(vvTried))[x] == multiset(Tried(info))[x] {
      FlatOfTables(o, info, vvTried, |vvTried|, x);
    }
  }

  lemma {:induction false} HeldOfTables(info: InfoMap, vvNew: seq<set<int>>, nNew: int, nTried: int, nIdCount: int,
                                        id: int)
    requires NewOk(info, vvNew, -1) && CountsOk(info, nNew, nTried, nIdCount)
    ensures |Holders(vvNew, id)| == Owed(info, id)
  {
    if !(id in info && !info[id].fInTried) {
      assert Holders(vvNew, id) == {};
    }
  }
}
