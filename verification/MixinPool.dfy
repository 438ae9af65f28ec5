/** Anonymous outputs by transaction, from which ring members are picked. */
module MixinPool {

  datatype OutKey = OutKey(n: nat, pubKey: nat)
  datatype TxMixins = TxMixins(txHash: nat, vOutPubKeys: seq<OutKey>)

  /** Transactions in random-access order, each hash once. */
  type Container = seq<TxMixins>

  datatype ContainerId = OLD | RECENT

  datatype Containers = Containers(old_: Container, recent: Container) {
    function Get(id: ContainerId): Container {
      if id == RECENT then recent else old_
    }

    function Set(id: ContainerId, c: Container): Containers {
      if id == RECENT then Containers(old_, c) else Containers(c, recent)
    }
  }

  const EMPTY := Containers([], [])

  ghost predicate NoEmptyTx(c: Container) {
    forall k :: 0 <= k < |c| ==> c[k].vOutPubKeys != []
  }

  ghost predicate UniqueTx(c: Container) {
    forall i, j :: 0 <= i < j < |c| ==> c[i].txHash != c[j].txHash
  }

  ghost predicate ContainerOk(c: Container) {
    NoEmptyTx(c) && UniqueTx(c)
  }

  // ----- the keys of a container -----

  function KeysOf(s: seq<OutKey>): multiset<nat> {
    if s == [] then multiset{} else KeysOf(s[..|s| - 1]) + multiset{s[|s| - 1].pubKey}
  }

  function Pool(c: Container): multiset<nat> {
    if c == [] then multiset{} else Pool(c[..|c| - 1]) + KeysOf(c[|c| - 1].vOutPubKeys)
  }

  function Without(s: seq<OutKey>, a: nat): seq<OutKey>
    requires a < |s|
  {
    s[..a] + s[a + 1..]
  }

  lemma {:induction false} KeysOfWithout(s: seq<OutKey>, a: nat)
    requires a < |s|
    ensures KeysOf(s) == KeysOf(Without(s, a)) + multiset{s[a].pubKey}
    decreases |s|
  {
    var last := |s| - 1;
    if a == last {
      assert Without(s, a) == s[..last];
    } else {
      KeysOfWithout(s[..last], a);
      assert Without(s, a)[..last - 1] == Without(s[..last], a);
      assert Without(s, a)[last - 1] == s[last];
    }
  }

  lemma {:induction false} Exchanged(p: multiset<nat>, a: multiset<nat>, b: multiset<nat>)
    ensures p + a + b == p + b + a
  {
  }

  lemma {:induction false} AddedToBoth(x: multiset<nat>, k: multiset<nat>, p: multiset<nat>, e: multiset<nat>,
                                       l: multiset<nat>)
    requires x + k == p + e
    ensures (x + l) + k == (p + l) + e
  {
    assert (x + l) + k == (x + k) + l;
  }

  lemma {:induction false} PoolOfUpdate(c: Container, k: nat, e: TxMixins)
    requires k < |c|
    ensures Pool(c[k := e]) + KeysOf(c[k].vOutPubKeys) == Pool(c) + KeysOf(e.vOutPubKeys)
    decreases |c|
  {
    hide KeysOf;
    var last := |c| - 1;
    if k == last {
      assert c[k := e][..last] == c[..last];
      Exchanged(Pool(c[..last]), KeysOf(e.vOutPubKeys), KeysOf(c[k].vOutPubKeys));
    } else {
      PoolOfUpdate(c[..last], k, e);
      assert c[k := e][..last] == c[..last][k := e];
      AddedToBoth(Pool(c[..last][k := e]), KeysOf(c[k].vOutPubKeys), Pool(c[..last]), KeysOf(e.vOutPubKeys),
                  KeysOf(c[last].vOutPubKeys));
    }
  }

  lemma {:induction false} PoolOfAppend(c: Container, e: TxMixins)
    ensures Pool(c + [e]) == Pool(c) + KeysOf(e.vOutPubKeys)
  {
    assert (c + [e])[..|c + [e]| - 1] == c;
  }

  // ----- entries without keys -----

  function NonEmpty(c: Container): Container {
    if c == [] then []
    else NonEmpty(c[..|c| - 1]) + if c[|c| - 1].vOutPubKeys == [] then [] else [c[|c| - 1]]
  }

  lemma {:induction false} NonEmptyOfConcat(a: Container, b: Container)
    ensures NonEmpty(a + b) == NonEmpty(a) + NonEmpty(b)
    decreases |b|
  {
    if b == [] {
      assert a + b == a;
    } else {
      NonEmptyOfConcat(a, b[..|b| - 1]);
      assert (a + b)[..|a + b| - 1] == a + b[..|b| - 1];
    }
  }

  lemma {:induction false} NonEmptyKeepsPool(c: Container)
    ensures Pool(NonEmpty(c)) == Pool(c)
    decreases |c|
  {
    if c != [] {
      NonEmptyKeepsPool(c[..|c| - 1]);
      if c[|c| - 1].vOutPubKeys != [] {
        PoolOfAppend(NonEmpty(c[..|c| - 1]), c[|c| - 1]);
      } else {
        assert NonEmpty(c) == NonEmpty(c[..|c| - 1]);
      }
    }
  }

  /** What is left has keys, and its transactions are among those there were. */
  lemma {:induction false} NonEmptyEntries(c: Container)
    requires UniqueTx(c)
    ensures ContainerOk(NonEmpty(c))
    ensures forall e :: e in NonEmpty(c) <==> e in c && e.vOutPubKeys != []
    decreases |c|
  {
    if c != [] {
      var before, last := c[..|c| - 1], c[|c| - 1];
      NonEmptyEntries(before);
      assert c == before + [last];
      var kept := NonEmpty(before);
      forall i | 0 <= i < |kept| ensures kept[i].txHash != last.txHash {
        assert kept[i] in before;
      }
    }
  }

  lemma {:induction false} NothingToDrop(c: Container)
    requires NoEmptyTx(c)
    ensures NonEmpty(c) == c
    decreases |c|
  {
    if c != [] {
      NothingToDrop(c[..|c| - 1]);
    }
  }

  // ----- picked positions -----

  /** Positions in increasing order, as a set of integers is walked. */
  ghost predicate Increasing(s: seq<nat>) {
    forall i, j :: 0 <= i < j < |s| ==> s[i] < s[j]
  }

  ghost predicate Positions(s: seq<nat>, n: nat) {
    Increasing(s) && forall i :: 0 <= i < |s| ==> s[i] < n
  }

  /** m positions lie below k, and the others above it. */
  ghost predicate Splits(s: seq<nat>, m: nat, k: nat) {
    m <= |s| && (forall i :: 0 <= i < m ==> s[i] < k) && forall i :: m <= i < |s| ==> s[i] > k
  }

  /** The iPick-th position that is not among the picked ones. */
  method SkipPicked(s: seq<nat>, iPick: nat, n: nat) returns (k: nat, ghost m: nat)
    requires Positions(s, n) && iPick + |s| < n
    ensures k < n && k !in s && k == iPick + m && Splits(s, m, k)
  {
    k, m := iPick, 0;
    for i := 0 to |s|
      invariant m <= i && k == iPick + m && Splits(s[..i], m, k)
    {
      assert s[..i + 1] == s[..i] + [s[i]];
      if m < i {
        assert s[m] == s[..i][m] && s[m] < s[i];
      }
      if s[i] <= k {
        k, m := k + 1, m + 1;
      }
    }
    assert s[..|s|] == s;
  }

  method InsertPosition(s: seq<nat>, k: nat, n: nat) returns (r: seq<nat>)
    requires Positions(s, n) && k < n && k !in s
    ensures Positions(r, n) && |r| == |s| + 1 && forall x :: x in r <==> x in s || x == k
  {
    var m := 0;
    while m < |s| && s[m] < k
      invariant m <= |s| && forall i :: 0 <= i < m ==> s[i] < k
    {
      m := m + 1;
    }
    InsertedIncreasing(s, m, k, n);
    r := s[..m] + [k] + s[m..];
  }

  lemma {:induction false} InsertedIncreasing(s: seq<nat>, m: nat, k: nat, n: nat)
    requires Positions(s, n) && k < n && k !in s && m <= |s| && (forall i :: 0 <= i < m ==> s[i] < k) &&
             (m < |s| ==> s[m] >= k)
    ensures Positions(s[..m] + [k] + s[m..], n) && forall x :: x in s[..m] + [k] + s[m..] <==> x in s || x == k
  {
    var r := s[..m] + [k] + s[m..];
    assert s == s[..m] + s[m..];
    assert m < |s| ==> s[m] in s;
    forall i | 0 <= i < |r| ensures r[i] == if i < m then s[i] else if i == m then k else s[i - 1] {
    }
    forall i | m <= i < |s| ensures s[i] > k {
      if i > m {
        assert s[m] < s[i];
      }
    }
  }

  /** Positions that fit into n are at most n. */
  lemma {:induction false} PositionsFit(s: seq<nat>, n: nat)
    requires Positions(s, n)
    ensures |s| <= n
    decreases |s|
  {
    if s != [] {
      PositionsFit(s[..|s| - 1], s[|s| - 1]);
    }
  }
}
