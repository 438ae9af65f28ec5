/** The pool of orphan blocks: adding, pruning, and accepting what waited for a block. */
module OrphanPool {
  import opened Basics
  import opened OrphanBlocks

  // ----- chains inside the pool -----

  ghost predicate Acyclic(m: ByHash, rank: nat -> nat) {
    forall h :: h in m ==> rank(m[h].hashPrev) < rank(h)
  }

  /** p and its predecessors, as far as the pool has them. */
  ghost function ChainFrom(m: ByHash, rank: nat -> nat, p: nat): set<nat>
    requires Acyclic(m, rank)
    decreases rank(p)
  {
    if p in m then {p} + ChainFrom(m, rank, m[p].hashPrev) else {}
  }

  /** Predecessors have lower ranks, and the predecessors of a predecessor are predecessors. */
  lemma {:induction false} ChainMembers(m: ByHash, rank: nat -> nat, p: nat, x: nat)
    requires Acyclic(m, rank) && x in ChainFrom(m, rank, p)
    ensures x in m && rank(x) <= rank(p) && ChainFrom(m, rank, m[x].hashPrev) <= ChainFrom(m, rank, p)
    decreases rank(p)
  {
    if x != p {
      ChainMembers(m, rank, m[p].hashPrev, x);
    }
  }

  /** What pruning at a checkpoint removes: the predecessors of the listed obsolete blocks. */
  ghost function Doomed(m: ByHash, rank: nat -> nat, tCheckpoint: int, keys: seq<nat>): set<nat>
    requires Acyclic(m, rank)
  {
    if keys == [] then {}
    else
      var k := keys[|keys| - 1];
      Doomed(m, rank, tCheckpoint, keys[..|keys| - 1]) +
      if k in m && m[k].nTime < tCheckpoint then ChainFrom(m, rank, m[k].hashPrev) else {}
  }

  /** A block is removed exactly when it precedes an obsolete one. */
  lemma {:induction false} DoomedExactly(m: ByHash, rank: nat -> nat, tCheckpoint: int, keys: seq<nat>, h: nat)
    requires Acyclic(m, rank)
    ensures h in Doomed(m, rank, tCheckpoint, keys) <==>
              exists k :: k in keys && k in m && m[k].nTime < tCheckpoint && h in ChainFrom(m, rank, m[k].hashPrev)
    decreases |keys|
  {
    if keys != [] {
      var before, last := keys[..|keys| - 1], keys[|keys| - 1];
      DoomedExactly(m, rank, tCheckpoint, before, h);
      assert forall k :: k in keys <==> k in before || k == last by {
        assert keys == before + [last];
      }
    }
  }

  lemma {:induction false} DoomedIsClosed(m: ByHash, rank: nat -> nat, tCheckpoint: int, keys: seq<nat>, h: nat)
    requires Acyclic(m, rank) && h in Doomed(m, rank, tCheckpoint, keys)
    ensures h in m && ChainFrom(m, rank, m[h].hashPrev) <= Doomed(m, rank, tCheckpoint, keys)
    decreases |keys|
  {
    var before, k := keys[..|keys| - 1], keys[|keys| - 1];
    if h in Doomed(m, rank, tCheckpoint, before) {
      DoomedIsClosed(m, rank, tCheckpoint, before, h);
    } else {
      ChainMembers(m, rank, m[k].hashPrev, h);
    }
  }

  lemma StillAcyclic(m: ByHash, rank: nat -> nat, gone: set<nat>)
    requires Acyclic(m, rank)
    ensures Acyclic(m - gone, rank)
  {
  }

  /** With a closed set gone, the walk finds what it would have found, less what is gone. */
  lemma {:induction false} ChainWithout(m: ByHash, rank: nat -> nat, gone: set<nat>, p: nat)
    requires Acyclic(m, rank) && Acyclic(m - gone, rank)
    requires forall h :: h in gone && h in m ==> ChainFrom(m, rank, m[h].hashPrev) <= gone
    ensures gone + ChainFrom(m - gone, rank, p) == gone + ChainFrom(m, rank, p)
    decreases rank(p)
  {
    if p in m && p !in gone {
      ChainWithout(m, rank, gone, m[p].hashPrev);
    }
  }

  // ----- what waited for a block -----

  function Filter(s: seq<nat>, accept: nat -> bool): seq<nat> {
    if s == [] then []
    else Filter(s[..|s| - 1], accept) + if accept(s[|s| - 1]) then [s[|s| - 1]] else []
  }

  lemma {:induction false} FilterMembers(s: seq<nat>, accept: nat -> bool, h: nat)
    ensures h in Filter(s, accept) <==> h in s && accept(h)
    decreases |s|
  {
    if s != [] {
      FilterMembers(s[..|s| - 1], accept, h);
      assert s == s[..|s| - 1] + [s[|s| - 1]];
    }
  }

  /** The block at position k of the list waited for the root, or for an accepted block listed
      before it. */
  ghost predicate Justified(m: ByHash, root: nat, accept: nat -> bool, offered: seq<nat>, k: nat)
    requires k < |offered|
  {
    && offered[k] in m
    && (m[offered[k]].hashPrev == root || (m[offered[k]].hashPrev in offered[..k] && accept(m[offered[k]].hashPrev)))
  }

  /** Every block was offered at most once, and after its accepted predecessor. */
  ghost predicate OfferedInOrder(m: ByHash, root: nat, accept: nat -> bool, offered: seq<nat>) {
    && NoDuplicates(offered)
    && forall k :: 0 <= k < |offered| ==> Justified(m, root, accept, offered, k)
  }

  /** Every block was offered that waited for the root or for an accepted offered block. */
  ghost predicate OfferedAll(m: ByHash, root: nat, accept: nat -> bool, offered: seq<nat>) {
    forall h :: h in m && (m[h].hashPrev == root || (m[h].hashPrev in offered && accept(m[h].hashPrev))) ==>
      h in offered
  }

  ghost function Members(s: seq<nat>): set<nat> {
    set h | h in s
  }

  // ----- stakes -----

  predicate HasStake(m: ByHash, s: nat) {
    exists h :: h in m && m[h].stake == s
  }

  /** Every stake seen belongs to a block of the pool. */
  ghost predicate StakesOk(stakes: set<nat>, m: ByHash) {
    forall s :: s in stakes ==> HasStake(m, s)
  }

  lemma StakesOfRemove(stakes: set<nat>, m: ByHash, h: nat)
    requires StakesOk(stakes, m) && h in m
    ensures StakesOk(stakes - {m[h].stake}, m - {h})
  {
    forall s | s in stakes - {m[h].stake} ensures HasStake(m - {h}, s) {
      var g :| g in m && m[g].stake == s;
      assert g in m - {h} && (m - {h})[g].stake == s;
    }
  }

  lemma StakesOfAdd(stakes: set<nat>, m: ByHash, e: COrphanBlock)
    requires StakesOk(stakes, m) && e.hashBlock !in m
    ensures StakesOk(stakes, m[e.hashBlock := e]) && StakesOk(stakes + {e.stake}, m[e.hashBlock := e])
  {
    var m' := m[e.hashBlock := e];
    forall s | s in stakes + {e.stake} ensures HasStake(m', s) {
      if s == e.stake {
        assert m'[e.hashBlock].stake == s;
      } else {
        var g :| g in m && m[g].stake == s;
        assert g in m' && m'[g].stake == s;
      }
    }
  }

  // ----- pruning by size -----

  /** m' keeps, with every block, its predecessor in m. */
  ghost predicate ParentsKept(m: ByHash, m': ByHash) {
    && (forall h :: h in m' ==> h in m && m'[h] == m[h])
    && forall h :: h in m' && m[h].hashPrev in m ==> m[h].hashPrev in m'
  }

  lemma LeafRemoved(m: ByHash, m': ByHash, h: nat)
    requires ParentsKept(m, m') && IsLeaf(m', h)
    ensures ParentsKept(m, m' - {h})
  {
  }

  ghost function Above(m: ByHash, rank: nat -> nat, h: nat): set<nat> {
    set x | x in m && rank(x) > rank(h)
  }

  lemma ChildIsAbove(m: ByHash, byPrev: ByPrev, rank: nat -> nat, h: nat)
    requires Indexed(m, byPrev, rank) && Children(byPrev, h) != []
    ensures Children(byPrev, h)[0] in m && Above(m, rank, Children(byPrev, h)[0]) < Above(m, rank, h)
  {
    var c := Children(byPrev, h)[0];
    assert c in Children(byPrev, h);
    assert HasParent(m, c, h);
    assert c in Above(m, rank, h) && c !in Above(m, rank, c);
  }

  lemma ChildlessIsLeaf(m: ByHash, byPrev: ByPrev, rank: nat -> nat, h: nat)
    requires Indexed(m, byPrev, rank) && Children(byPrev, h) == []
    ensures IsLeaf(m, h)
  {
    forall c: nat | c in m ensures m[c].hashPrev != h {
      assert c in Children(byPrev, h) <==> HasParent(m, c, h);
    }
  }

  /** From any block on to one that no other block waits for. */
  method FindLeaf(m: ByHash, byPrev: ByPrev, ghost rank: nat -> nat, start: nat) returns (h: nat)
    requires Indexed(m, byPrev, rank) && start in m
    ensures h in m && IsLeaf(m, h)
  {
    h := start;
    while Children(byPrev, h) != []
      invariant h in m
      decreases Above(m, rank, h)
    {
      ChildIsAbove(m, byPrev, rank, h);
      h := Children(byPrev, h)[0];
    }
    ChildlessIsLeaf(m, byPrev, rank, h);
  }

  // ----- offering what waited -----

  lemma SizeOfMap(m: ByHash, h: nat)
    requires h in m
    ensures |m - {h}| == |m| - 1
  {
    assert (m - {h}).Keys == m.Keys - {h};
  }

  lemma PrefixMember(s: seq<nat>, i: nat)
    requires i < |s|
    ensures Members(s[..i + 1]) == Members(s[..i]) + {s[i]}
    ensures NoDuplicates(s) ==> s[i] !in Members(s[..i])
  {
    assert s[..i + 1] == s[..i] + [s[i]];
  }

  lemma FilterStep(s: seq<nat>, i: nat, accept: nat -> bool)
    requires i < |s|
    ensures Filter(s[..i + 1], accept) == Filter(s[..i], accept) + if accept(s[i]) then [s[i]] else []
  {
    assert s[..i + 1][..i] == s[..i];
  }

  lemma MinusOne(m: ByHash, gone: set<nat>, h: nat)
    ensures m - gone - {h} == m - (gone + {h})
  {
  }

  /** The first i children have been offered. */
  ghost predicate Offering(m: ByHash, kids: seq<nat>, accept: nat -> bool, queue: seq<nat>, i: nat,
                           m': ByHash, nSize: nat, stakes: set<nat>, queue': seq<nat>) {
    && i <= |kids| && m' == m - Members(kids[..i]) && nSize == TotalSize(m') && StakesOk(stakes, m')
    && queue' == queue + Filter(kids[..i], accept) && |m'| + |queue'| <= |m| + |queue|
  }

  lemma OfferStep(m: ByHash, kids: seq<nat>, accept: nat -> bool, queue: seq<nat>, i: nat,
                  m': ByHash, nSize: nat, stakes: set<nat>, queue': seq<nat>)
    requires Offering(m, kids, accept, queue, i, m', nSize, stakes, queue') && i < |kids|
    requires NoDuplicates(kids) && forall h :: h in kids ==> h in m
    ensures var h := kids[i];
            && h in m' && nSize >= m'[h].nSize
            && Offering(m, kids, accept, queue, i + 1, m' - {h}, nSize - m'[h].nSize, stakes - {m'[h].stake},
                        if accept(h) then queue' + [h] else queue')
  {
    hide Filter, Members, TotalSize, StakesOk, NoDuplicates;
    NextGone(m, kids, i);
    FilterStep(kids, i, accept);
    var h := kids[i];
    var after := m' - {h};
    SizeOfRemove(m', h);
    SizeOfMap(m', h);
    StakesOfRemove(stakes, m', h);
  }

  lemma NextGone(m: ByHash, kids: seq<nat>, i: nat)
    requires i < |kids| && NoDuplicates(kids) && forall h :: h in kids ==> h in m
    ensures kids[i] in m - Members(kids[..i]) && m - Members(kids[..i]) - {kids[i]} == m - Members(kids[..i + 1])
  {
    assert kids[i] in kids;
    PrefixMember(kids, i);
    MinusOne(m, Members(kids[..i]), kids[i]);
  }

  /** Offers each child in turn, removes it, and queues it when it is accepted. */
  method OfferChildren(m: ByHash, kids: seq<nat>, accept: nat -> bool, nSize: nat, stakes: set<nat>,
                       vWorkQueue: seq<nat>)
    returns (m': ByHash, nSize': nat, stakes': set<nat>, vWorkQueue': seq<nat>)
    requires NoDuplicates(kids) && (forall h :: h in kids ==> h in m) && nSize == TotalSize(m) && StakesOk(stakes, m)
    ensures m' == m - Members(kids) && nSize' == TotalSize(m') && StakesOk(stakes', m')
    ensures vWorkQueue' == vWorkQueue + Filter(kids, accept)
    ensures |m'| + |vWorkQueue'| <= |m| + |vWorkQueue|
  {
    m', nSize', stakes', vWorkQueue' := m, nSize, stakes, vWorkQueue;
    assert kids[..0] == [] && Members([]) == {};
    assert m - {} == m;
    for i := 0 to |kids|
      invariant Offering(m, kids, accept, vWorkQueue, i, m', nSize', stakes', vWorkQueue')
    {
      OfferStep(m, kids, accept, vWorkQueue, i, m', nSize', stakes', vWorkQueue');
      hide Offering, NoDuplicates;
      var h := kids[i];
      if accept(h) {
        vWorkQueue' := vWorkQueue' + [h];
      }
      stakes' := stakes' - {m'[h].stake};
      nSize' := nSize' - m'[h].nSize;
      m' := m' - {h};
    }
    assert kids[..|kids|] == kids;
  }

  /** All children of p gone from both indexes. */
  lemma IndexedWithoutChildren(m: ByHash, byPrev: ByPrev, rank: nat -> nat, p: nat)
    requires Indexed(m, byPrev, rank)
    ensures Indexed(m - Members(Children(byPrev, p)), byPrev - {p}, rank)
    ensures NoDuplicates(Children(byPrev, p)) && forall h :: h in Children(byPrev, p) ==> h in m && m[h].hashPrev == p
  {
    var m', byPrev' := m - Members(Children(byPrev, p)), byPrev - {p};
    forall q: nat, h: nat ensures h in Children(byPrev', q) <==> HasParent(m', h, q) {
      assert h in Children(byPrev, q) <==> HasParent(m, h, q);
      assert h in Children(byPrev, p) <==> HasParent(m, h, p);
    }
    forall h | h in Children(byPrev, p) ensures h in m && m[h].hashPrev == p {
      assert HasParent(m, h, p);
    }
  }

  /** The progress of the work queue: the first i of its blocks have no orphan left. */
  ghost predicate Progress(m0: ByHash, m: ByHash, root: nat, accept: nat -> bool, offered: seq<nat>,
                           vWorkQueue: seq<nat>, i: nat)
  {
    && m == m0 - Members(offered) && OfferedInOrder(m0, root, accept, offered)
    && (forall h :: h in vWorkQueue <==> h == root || (h in offered && accept(h)))
    && i <= |vWorkQueue|
    && forall h :: h in m ==> m[h].hashPrev !in vWorkQueue[..i]
  }

  /** kids lists, once each, the blocks of m that wait for p. */
  ghost predicate AreChildren(m: ByHash, p: nat, kids: seq<nat>) {
    NoDuplicates(kids) && forall h: nat :: h in kids <==> HasParent(m, h, p)
  }

  lemma IndexedChildren(m: ByHash, byPrev: ByPrev, rank: nat -> nat, p: nat)
    requires Indexed(m, byPrev, rank)
    ensures AreChildren(m, p, Children(byPrev, p))
  {
  }

  lemma JoinedDistinct(a: seq<nat>, b: seq<nat>)
    requires NoDuplicates(a) && NoDuplicates(b) && forall h :: h in b ==> h !in a
    ensures NoDuplicates(a + b)
  {
    forall i, j | 0 <= i < j < |a + b| ensures (a + b)[i] != (a + b)[j] {
      if i < |a| <= j {
        assert (a + b)[j] in b;
      }
    }
  }

  lemma StillJustified(m0: ByHash, root: nat, accept: nat -> bool, offered: seq<nat>, kids: seq<nat>, k: nat)
    requires k < |offered| && Justified(m0, root, accept, offered, k)
    ensures Justified(m0, root, accept, offered + kids, k)
  {
    assert (offered + kids)[..k] == offered[..k];
  }

  lemma KidJustified(m0: ByHash, root: nat, accept: nat -> bool, offered: seq<nat>, kids: seq<nat>, k: nat)
    requires |offered| <= k < |offered| + |kids| && kids[k - |offered|] in m0
    requires var p := m0[kids[k - |offered|]].hashPrev; p == root || (p in offered && accept(p))
    ensures Justified(m0, root, accept, offered + kids, k)
  {
    var p := m0[kids[k - |offered|]].hashPrev;
    if p in offered {
      var i :| 0 <= i < |offered| && offered[i] == p;
      assert (offered + kids)[..k][i] == p;
    }
  }

  lemma MoreOffered(m0: ByHash, m: ByHash, root: nat, accept: nat -> bool, offered: seq<nat>, p: nat, kids: seq<nat>)
    requires m == m0 - Members(offered) && OfferedInOrder(m0, root, accept, offered) && AreChildren(m, p, kids)
    requires p == root || (p in offered && accept(p))
    ensures OfferedInOrder(m0, root, accept, offered + kids) && m - Members(kids) == m0 - Members(offered + kids)
  {
    forall h | h in kids ensures h in m0 && h !in offered && m0[h].hashPrev == p {
      assert HasParent(m, h, p);
    }
    JoinedDistinct(offered, kids);
    forall k | 0 <= k < |offered + kids| ensures Justified(m0, root, accept, offered + kids, k) {
      if k < |offered| {
        StillJustified(m0, root, accept, offered, kids, k);
      } else {
        assert kids[k - |offered|] in kids;
        KidJustified(m0, root, accept, offered, kids, k);
      }
    }
    assert Members(offered + kids) == Members(offered) + Members(kids);
  }

  lemma ProgressStep(m0: ByHash, m: ByHash, root: nat, accept: nat -> bool, offered: seq<nat>, queue: seq<nat>, i: nat,
                     kids: seq<nat>)
    requires Progress(m0, m, root, accept, offered, queue, i) && i < |queue| && AreChildren(m, queue[i], kids)
    ensures Progress(m0, m - Members(kids), root, accept, offered + kids, queue + Filter(kids, accept), i + 1)
  {
    var queue', m' := queue + Filter(kids, accept), m - Members(kids);
    assert queue[i] in queue;
    MoreOffered(m0, m, root, accept, offered, queue[i], kids);
    hide OfferedInOrder, Filter;
    forall h ensures h in queue' <==> h == root || (h in offered + kids && accept(h)) {
      FilterMembers(kids, accept, h);
    }
    assert queue'[..i + 1] == queue[..i] + [queue[i]];
    forall h | h in m' ensures m'[h].hashPrev !in queue'[..i + 1] {
      assert HasParent(m, h, queue[i]) <==> h in kids;
    }
  }

  lemma ProgressEnds(m0: ByHash, m: ByHash, root: nat, accept: nat -> bool, offered: seq<nat>, queue: seq<nat>)
    requires Progress(m0, m, root, accept, offered, queue, |queue|)
    ensures OfferedAll(m0, root, accept, offered)
  {
    assert queue[..|queue|] == queue;
    forall h | h in m0 && (m0[h].hashPrev == root || (m0[h].hashPrev in offered && accept(m0[h].hashPrev)))
      ensures h in offered
    {
      assert h in m || h in offered;
    }
  }

  lemma ProgressStarts(m: ByHash, root: nat, accept: nat -> bool)
    ensures Progress(m, m, root, accept, [], [root], 0)
  {
    assert Members([]) == {};
    assert m - {} == m;
  }

  // ----- the pool -----

  class COrphanPool {
    ghost const rank: nat -> nat
    var mapOrphanBlocks: ByHash
    var mapOrphanBlocksByPrev: ByPrev
    var nOrphanBlocksSize: nat
    var setStakeSeenOrphan: set<nat>

    ghost predicate Valid()
      reads this
    {
      && Indexed(mapOrphanBlocks, mapOrphanBlocksByPrev, rank)
      && nOrphanBlocksSize == TotalSize(mapOrphanBlocks) && StakesOk(setStakeSeenOrphan, mapOrphanBlocks)
    }

    constructor (ghost rank: nat -> nat)
      ensures Valid() && mapOrphanBlocks == map[] && this.rank == rank
    {
      this.rank := rank;
      mapOrphanBlocks, mapOrphanBlocksByPrev, nOrphanBlocksSize, setStakeSeenOrphan := map[], map[], 0, {};
      EmptyHasNoSize();
    }

    /** Files a new block in both indexes and counts its size; a proof-of-stake block's stake
        counts as seen. */
    method AddOrphanBlock(e: COrphanBlock, fProofOfStake: bool)
      requires Valid() && e.hashBlock !in mapOrphanBlocks && rank(e.hashPrev) < rank(e.hashBlock)
      modifies this
      ensures Valid() && mapOrphanBlocks == old(mapOrphanBlocks)[e.hashBlock := e]
      ensures setStakeSeenOrphan == old(setStakeSeenOrphan) + if fProofOfStake then {e.stake} else {}
    {
      IndexedAdd(mapOrphanBlocks, mapOrphanBlocksByPrev, rank, e);
      SizeOfAdd(mapOrphanBlocks, e);
      StakesOfAdd(setStakeSeenOrphan, mapOrphanBlocks, e);
      hide Indexed, TotalSize, StakesOk;
      nOrphanBlocksSize := nOrphanBlocksSize + e.nSize;
      mapOrphanBlocks := mapOrphanBlocks[e.hashBlock := e];
      mapOrphanBlocksByPrev := mapOrphanBlocksByPrev[e.hashPrev :=
                                                     Children(mapOrphanBlocksByPrev, e.hashPrev) + [e.hashBlock]];
      if fProofOfStake {
        setStakeSeenOrphan := setStakeSeenOrphan + {e.stake};
      }
    }

    /** The first block of an orphan's chain. */
    method GetOrphanRoot(hash: nat) returns (r: nat)
      requires Valid()
      ensures hash !in mapOrphanBlocks ==> r == hash
      ensures hash in mapOrphanBlocks ==> r in mapOrphanBlocks && mapOrphanBlocks[r].hashPrev !in mapOrphanBlocks
      ensures hash in mapOrphanBlocks ==> Acyclic(mapOrphanBlocks, rank) && r in ChainFrom(mapOrphanBlocks, rank, hash)
    {
      r := hash;
      if hash !in mapOrphanBlocks {
        return;
      }
      assert Acyclic(mapOrphanBlocks, rank);
      while mapOrphanBlocks[r].hashPrev in mapOrphanBlocks
        invariant r in mapOrphanBlocks && r in ChainFrom(mapOrphanBlocks, rank, hash)
        decreases rank(r)
      {
        ChainMembers(mapOrphanBlocks, rank, hash, r);
        r := mapOrphanBlocks[r].hashPrev;
      }
    }

    /** The block an orphan is ultimately waiting for, which is not in the pool. */
    method WantedByOrphan(hash: nat) returns (r: nat)
      requires Valid() && hash in mapOrphanBlocks
      ensures r !in mapOrphanBlocks && Acyclic(mapOrphanBlocks, rank)
      ensures exists h ::
        h in ChainFrom(mapOrphanBlocks, rank, hash) && h in mapOrphanBlocks && mapOrphanBlocks[h].hashPrev == r
    {
      assert Acyclic(mapOrphanBlocks, rank);
      var h := hash;
      while mapOrphanBlocks[h].hashPrev in mapOrphanBlocks
        invariant h in mapOrphanBlocks && h in ChainFrom(mapOrphanBlocks, rank, hash)
        decreases rank(h)
      {
        ChainMembers(mapOrphanBlocks, rank, hash, h);
        h := mapOrphanBlocks[h].hashPrev;
      }
      r := mapOrphanBlocks[h].hashPrev;
    }

    /** Takes one block out of both indexes. */
    method Remove(h: nat)
      requires Valid() && h in mapOrphanBlocks
      modifies this
      ensures Valid() && mapOrphanBlocks == old(mapOrphanBlocks) - {h}
      ensures setStakeSeenOrphan == old(setStakeSeenOrphan) - {old(mapOrphanBlocks)[h].stake}
    {
      var e := mapOrphanBlocks[h];
      IndexedRemove(mapOrphanBlocks, mapOrphanBlocksByPrev, rank, h);
      SizeOfRemove(mapOrphanBlocks, h);
      StakesOfRemove(setStakeSeenOrphan, mapOrphanBlocks, h);
      hide Indexed, TotalSize, StakesOk;
      mapOrphanBlocksByPrev := Erase(mapOrphanBlocksByPrev, e.hashPrev, h);
      setStakeSeenOrphan := setStakeSeenOrphan - {e.stake};
      nOrphanBlocksSize := nOrphanBlocksSize - e.nSize;
      mapOrphanBlocks := mapOrphanBlocks - {h};
    }

    /** Removes p and its predecessors. */
    method RemoveChain(p: nat)
      requires Valid()
      modifies this
      ensures Valid() && Acyclic(old(mapOrphanBlocks), rank)
      ensures mapOrphanBlocks == old(mapOrphanBlocks) - ChainFrom(old(mapOrphanBlocks), rank, p)
    {
      ghost var m0 := mapOrphanBlocks;
      var q := p;
      ghost var gone: set<nat> := {};
      assert Acyclic(m0, rank);
      assert m0 - {} == m0;
      while q in mapOrphanBlocks
        invariant Valid() && mapOrphanBlocks == m0 - gone
        invariant gone + ChainFrom(m0, rank, q) == ChainFrom(m0, rank, p)
        invariant forall x :: x in gone ==> rank(x) > rank(q)
        decreases rank(q)
      {
        RankStep(m0, rank, q);
        hide Indexed, TotalSize, StakesOk, ChainFrom;
        var hashPrev := mapOrphanBlocks[q].hashPrev;
        Remove(q);
        MinusOne(m0, gone, q);
        gone := gone + {q};
        q := hashPrev;
      }
    }

    /** Removes the predecessors of every block that a checkpoint has made obsolete; keys
        lists the blocks in the order of the map. */
    method PruneObsolete(tCheckpoint: int, keys: seq<nat>)
      requires Valid()
      modifies this
      ensures Valid() && Acyclic(old(mapOrphanBlocks), rank)
      ensures mapOrphanBlocks == old(mapOrphanBlocks) - Doomed(old(mapOrphanBlocks), rank, tCheckpoint, keys)
    {
      ghost var m0 := mapOrphanBlocks;
      assert Acyclic(m0, rank);
      assert m0 - {} == m0 && keys[..0] == [];
      for i := 0 to |keys|
        invariant Valid() && mapOrphanBlocks == m0 - Doomed(m0, rank, tCheckpoint, keys[..i])
      {
        ghost var doomed := Doomed(m0, rank, tCheckpoint, keys[..i]);
        StillAcyclic(m0, rank, doomed);
        DoomedStep(m0, rank, tCheckpoint, keys, i);
        hide Indexed, TotalSize, StakesOk, Doomed, ChainFrom;
        var k := keys[i];
        if k in mapOrphanBlocks && mapOrphanBlocks[k].nTime < tCheckpoint {
          RemoveChain(mapOrphanBlocks[k].hashPrev);
        }
      }
      assert keys[..|keys|] == keys;
    }

    /** Removes obsolete blocks' predecessors, and then blocks that no other waits for until
        the pool is within its limit: `last` is the block removed last for that, and with it
        the pool was still too large. */
    method PruneOrphanBlocks(tCheckpoint: int, keys: seq<nat>, nMaxOrphanBlocksSize: nat) returns (ghost last: nat)
      requires Valid()
      modifies this
      ensures Valid() && nOrphanBlocksSize <= nMaxOrphanBlocksSize && Acyclic(old(mapOrphanBlocks), rank)
      ensures var m := old(mapOrphanBlocks) - Doomed(old(mapOrphanBlocks), rank, tCheckpoint, keys);
              && ParentsKept(m, mapOrphanBlocks)
              && (mapOrphanBlocks == m ||
                  (last in m && last !in mapOrphanBlocks && nOrphanBlocksSize + m[last].nSize > nMaxOrphanBlocksSize))
    {
      PruneObsolete(tCheckpoint, keys);
      ghost var m1 := mapOrphanBlocks;
      last := 0;
      while nOrphanBlocksSize > nMaxOrphanBlocksSize
        invariant Valid() && ParentsKept(m1, mapOrphanBlocks)
        invariant mapOrphanBlocks == m1 ||
                  (last in m1 && last !in mapOrphanBlocks && nOrphanBlocksSize + m1[last].nSize > nMaxOrphanBlocksSize)
        decreases |mapOrphanBlocks|
      {
        var h := PickLeaf();
        LeafRemoved(m1, mapOrphanBlocks, h);
        SizeOfMap(mapOrphanBlocks, h);
        SizeOfRemove(mapOrphanBlocks, h);
        Remove(h);
        last := h;
      }
    }

    /** Some block that no other waits for. */
    method PickLeaf() returns (h: nat)
      requires Valid() && nOrphanBlocksSize > 0
      ensures h in mapOrphanBlocks && IsLeaf(mapOrphanBlocks, h)
    {
      EmptyHasNoSize();
      var start: nat := AnyBlock(mapOrphanBlocks);
      h := FindLeaf(mapOrphanBlocks, mapOrphanBlocksByPrev, rank, start);
    }

    /** Offers the blocks that wait for one block, and takes them out of both indexes. */
    method OfferWaiting(hashPrev: nat, accept: nat -> bool, vWorkQueue: seq<nat>)
      returns (vWorkQueue': seq<nat>, ghost kids: seq<nat>)
      requires Valid()
      modifies this
      ensures Valid() && AreChildren(old(mapOrphanBlocks), hashPrev, kids)
      ensures mapOrphanBlocks == old(mapOrphanBlocks) - Members(kids) &&
              vWorkQueue' == vWorkQueue + Filter(kids, accept)
      ensures |mapOrphanBlocks| + |vWorkQueue'| <= old(|mapOrphanBlocks|) + |vWorkQueue|
    {
      hide Indexed, TotalSize, StakesOk, NoDuplicates, Members, Filter, AreChildren, Children;
      var waiting := Children(mapOrphanBlocksByPrev, hashPrev);
      kids := waiting;
      IndexedChildren(mapOrphanBlocks, mapOrphanBlocksByPrev, rank, hashPrev);
      IndexedWithoutChildren(mapOrphanBlocks, mapOrphanBlocksByPrev, rank, hashPrev);
      var m, nSize, stakes;
      m, nSize, stakes, vWorkQueue' :=
        OfferChildren(mapOrphanBlocks, waiting, accept, nOrphanBlocksSize, setStakeSeenOrphan, vWorkQueue);
      mapOrphanBlocks, nOrphanBlocksSize, setStakeSeenOrphan := m, nSize, stakes;
      mapOrphanBlocksByPrev := mapOrphanBlocksByPrev - {hashPrev};
    }

    /** After block root was accepted: offers everything that waited for it or for an orphan
        accepted since. */
    method AcceptOrphans(root: nat, accept: nat -> bool) returns (ghost offered: seq<nat>)
      requires Valid()
      modifies this
      ensures Valid() && mapOrphanBlocks == old(mapOrphanBlocks) - Members(offered)
      ensures OfferedInOrder(old(mapOrphanBlocks), root, accept, offered)
      ensures OfferedAll(old(mapOrphanBlocks), root, accept, offered)
    {
      ghost var m0 := mapOrphanBlocks;
      var vWorkQueue := [root];
      offered := [];
      ProgressStarts(m0, root, accept);
      hide Indexed, TotalSize, StakesOk, OfferedInOrder, OfferedAll, Members, Filter, AreChildren;
      var i := 0;
      while i < |vWorkQueue|
        invariant Valid() && Progress(m0, mapOrphanBlocks, root, accept, offered, vWorkQueue, i)
        decreases |mapOrphanBlocks| + |vWorkQueue| - i
      {
        hide Progress;
        ghost var m, queue, kids := mapOrphanBlocks, vWorkQueue, [];
        vWorkQueue, kids := OfferWaiting(vWorkQueue[i], accept, vWorkQueue);
        ProgressStep(m0, m, root, accept, offered, queue, i, kids);
        offered := offered + kids;
        i := i + 1;
      }
      ProgressEnds(m0, mapOrphanBlocks, root, accept, offered, vWorkQueue);
    }
  }

  method AnyBlock(m: ByHash) returns (h: nat)
    requires m != map[]
    ensures h in m
  {
    assert m.Keys != {};
    h := PickFrom(m.Keys);
  }

  lemma RankStep(m: ByHash, rank: nat -> nat, q: nat)
    requires Acyclic(m, rank) && q in m
    ensures rank(m[q].hashPrev) < rank(q) && ChainFrom(m, rank, q) == {q} + ChainFrom(m, rank, m[q].hashPrev)
  {
  }

  lemma DoomedStep(m: ByHash, rank: nat -> nat, tCheckpoint: int, keys: seq<nat>, i: nat)
    requires Acyclic(m, rank) && i < |keys|
    requires Acyclic(m - Doomed(m, rank, tCheckpoint, keys[..i]), rank)
    ensures var doomed := Doomed(m, rank, tCheckpoint, keys[..i]);
            var after := m - doomed;
            m - Doomed(m, rank, tCheckpoint, keys[..i + 1]) ==
              if keys[i] in after && after[keys[i]].nTime < tCheckpoint
                then after - ChainFrom(after, rank, after[keys[i]].hashPrev) else after
  {
    var doomed, k := Doomed(m, rank, tCheckpoint, keys[..i]), keys[i];
    assert keys[..i + 1][..i] == keys[..i];
    forall h | h in doomed ensures h in m && ChainFrom(m, rank, m[h].hashPrev) <= doomed {
      DoomedIsClosed(m, rank, tCheckpoint, keys[..i], h);
    }
    var doomed' := Doomed(m, rank, tCheckpoint, keys[..i + 1]);
    if k in m && m[k].nTime < tCheckpoint {
      var chain := ChainFrom(m, rank, m[k].hashPrev);
      assert doomed' == doomed + chain;
      if k in doomed {
        assert doomed' == doomed;
      } else {
        ChainWithout(m, rank, doomed, m[k].hashPrev);
        TwiceLess(m, doomed, ChainFrom(m - doomed, rank, m[k].hashPrev), doomed');
      }
    } else {
      assert doomed' == doomed;
    }
  }

  lemma TwiceLess(m: ByHash, a: set<nat>, b: set<nat>, c: set<nat>)
    requires c == a + b
    ensures m - c == m - a - b
  {
  }

  // ----- written out -----

  /** A chain goes from predecessor to predecessor as far as the pool has them. */
  lemma ChainIs(m: ByHash, rank: nat -> nat, p: nat, x: nat)
    requires Acyclic(m, rank)
    ensures p !in m ==> x !in ChainFrom(m, rank, p)
    ensures p in m ==> (x !in ChainFrom(m, rank, p) <==> x != p && x !in ChainFrom(m, rank, m[p].hashPrev))
  {
  }

  /** Every offered block is offered once, after the block that it waits for, which is the root or an accepted one; and
      every block that waits for the root or for an offered block that was accepted is offered. */
  lemma OfferedMeans(m: ByHash, root: nat, accept: nat -> bool, offered: seq<nat>, k: nat, h: nat)
    requires OfferedInOrder(m, root, accept, offered) && OfferedAll(m, root, accept, offered) && k < |offered|
    ensures offered[k] in m && forall i :: 0 <= i < |offered| && offered[i] == offered[k] ==> i == k
    ensures m[offered[k]].hashPrev != root ==>
              accept(m[offered[k]].hashPrev) && exists i :: 0 <= i < k && offered[i] == m[offered[k]].hashPrev
    ensures h in m && h !in offered ==>
              m[h].hashPrev != root && (m[h].hashPrev in offered ==> !accept(m[h].hashPrev))
  {
    assert Justified(m, root, accept, offered, k);
    if m[offered[k]].hashPrev != root {
      var i :| 0 <= i < k && offered[..k][i] == m[offered[k]].hashPrev;
      assert offered[i] == m[offered[k]].hashPrev;
    }
  }
}
