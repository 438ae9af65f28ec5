/** Blocks whose predecessor is not known yet: an index by hash, an index by predecessor, and
    their total size, with the lemmas about adding and removing one block. */
module OrphanBlocks {
  import opened Basics

  /** nSize: the length of the serialised block. */
  datatype COrphanBlock = COrphanBlock(hashBlock: nat, hashPrev: nat, nTime: int, stake: nat, nSize: nat)

  type ByHash = map<nat, COrphanBlock>
  type ByPrev = map<nat, seq<nat>>

  function Children(byPrev: ByPrev, p: nat): seq<nat> {
    if p in byPrev then byPrev[p] else []
  }

  ghost predicate NoDuplicates(s: seq<nat>) {
    forall i, j :: 0 <= i < j < |s| ==> s[i] != s[j]
  }

  /** The two indexes hold the same blocks.  rank witnesses that hash links form no cycle. */
  ghost predicate Indexed(m: ByHash, byPrev: ByPrev, rank: nat -> nat) {
    && (forall h :: h in m ==> m[h].hashBlock == h && rank(m[h].hashPrev) < rank(h))
    && (forall p: nat, h: nat :: h in Children(byPrev, p) <==> HasParent(m, h, p))
    && forall p :: p in byPrev ==> byPrev[p] != [] && NoDuplicates(byPrev[p])
  }

  predicate HasParent(m: ByHash, h: nat, p: nat) {
    h in m && m[h].hashPrev == p
  }

  /** No orphan waits for h. */
  predicate IsLeaf(m: ByHash, h: nat) {
    forall c :: c in m ==> m[c].hashPrev != h
  }

  // ----- total size -----

  ghost function SizeOver(m: ByHash, keys: set<nat>): nat
    requires keys <= m.Keys
    decreases |keys|
  {
    if keys == {} then 0
    else
      var h := AnyOf(keys);
      m[h].nSize + SizeOver(m, keys - {h})
  }

  ghost function TotalSize(m: ByHash): nat {
    SizeOver(m, m.Keys)
  }

  lemma {:induction false} SizeOverTakes(m: ByHash, keys: set<nat>, h: nat)
    requires keys <= m.Keys && h in keys
    ensures SizeOver(m, keys) == m[h].nSize + SizeOver(m, keys - {h})
    decreases |keys|
  {
    var g := AnyOf(keys);
    if g != h {
      SizeOverTakes(m, keys - {g}, h);
      SizeOverTakes(m, keys - {h}, g);
      assert keys - {g} - {h} == keys - {h} - {g};
    }
  }

  lemma {:induction false} SizeOverSame(m: ByHash, m': ByHash, keys: set<nat>)
    requires keys <= m.Keys && keys <= m'.Keys && forall h :: h in keys ==> m[h] == m'[h]
    ensures SizeOver(m, keys) == SizeOver(m', keys)
    decreases |keys|
  {
    if keys != {} {
      SizeOverSame(m, m', keys - {AnyOf(keys)});
    }
  }

  lemma SizeOfRemove(m: ByHash, h: nat)
    requires h in m
    ensures TotalSize(m) == m[h].nSize + TotalSize(m - {h})
  {
    SizeOverTakes(m, m.Keys, h);
    assert (m - {h}).Keys == m.Keys - {h};
    SizeOverSame(m, m - {h}, m.Keys - {h});
  }

  lemma SizeOfAdd(m: ByHash, e: COrphanBlock)
    requires e.hashBlock !in m
    ensures TotalSize(m[e.hashBlock := e]) == TotalSize(m) + e.nSize
  {
    var m' := m[e.hashBlock := e];
    SizeOfRemove(m', e.hashBlock);
    assert m' - {e.hashBlock} == m;
  }

  /** While the total is above zero there is a block to remove. */
  lemma EmptyHasNoSize()
    ensures TotalSize(map[]) == 0
  {
  }

  // ----- one block added, one removed -----

  lemma IndexedAdd(m: ByHash, byPrev: ByPrev, rank: nat -> nat, e: COrphanBlock)
    requires Indexed(m, byPrev, rank) && e.hashBlock !in m && rank(e.hashPrev) < rank(e.hashBlock)
    ensures Indexed(m[e.hashBlock := e], byPrev[e.hashPrev := Children(byPrev, e.hashPrev) + [e.hashBlock]], rank)
  {
    var m', byPrev' := m[e.hashBlock := e], byPrev[e.hashPrev := Children(byPrev, e.hashPrev) + [e.hashBlock]];
    forall p: nat, h: nat ensures h in Children(byPrev', p) <==> HasParent(m', h, p) {
      assert h in Children(byPrev, p) <==> HasParent(m, h, p);
      assert Children(byPrev', p) == if p == e.hashPrev then Children(byPrev, p) + [e.hashBlock]
             else Children(byPrev, p);
    }
    assert e.hashBlock in Children(byPrev, e.hashPrev) <==> HasParent(m, e.hashBlock, e.hashPrev);
    assert NoDuplicates(Children(byPrev, e.hashPrev) + [e.hashBlock]);
  }

  /** The sequence without one element. */
  function Without(s: seq<nat>, h: nat): (r: seq<nat>) {
    if s == [] then [] else if s[0] == h then s[1..] else [s[0]] + Without(s[1..], h)
  }

  lemma {:induction false} WithoutMembers(s: seq<nat>, h: nat)
    requires NoDuplicates(s)
    ensures NoDuplicates(Without(s, h)) && forall x :: x in Without(s, h) <==> x in s && x != h
  {
    if s != [] {
      assert s == [s[0]] + s[1..];
      assert NoDuplicates(s[1..]) by {
        forall i, j | 0 <= i < j < |s[1..]| ensures s[1..][i] != s[1..][j] {
          assert s[1..][i] == s[i + 1] && s[1..][j] == s[j + 1];
        }
      }
      WithoutMembers(s[1..], h);
      if s[0] == h {
        assert h !in s[1..];
      } else {
        assert s[0] !in s[1..];
      }
    }
  }

  /** The index by predecessor with one block taken out. */
  function Erase(byPrev: ByPrev, p: nat, h: nat): ByPrev {
    var rest := Without(Children(byPrev, p), h);
    if rest == [] then byPrev - {p} else byPrev[p := rest]
  }

  lemma IndexedRemove(m: ByHash, byPrev: ByPrev, rank: nat -> nat, h: nat)
    requires Indexed(m, byPrev, rank) && h in m
    ensures Indexed(m - {h}, Erase(byPrev, m[h].hashPrev, h), rank)
  {
    var q := m[h].hashPrev;
    var m', byPrev' := m - {h}, Erase(byPrev, q, h);
    assert NoDuplicates(Children(byPrev, q));
    WithoutMembers(Children(byPrev, q), h);
    forall p: nat, c: nat ensures c in Children(byPrev', p) <==> HasParent(m', c, p) {
      assert c in Children(byPrev, p) <==> HasParent(m, c, p);
      assert Children(byPrev', p) == if p == q then Without(Children(byPrev, p), h) else Children(byPrev, p);
    }
  }
}
