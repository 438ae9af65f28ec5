/** The height-indexed view of the best chain. */
module ActiveChain {
  import opened Basics
  import opened ChainTree
  import opened TxIndexing

  /** vChain lists the predecessors of b by height, and b. */
  ghost predicate Spine(vChain: seq<Option<BlockIndex>>, b: BlockIndex) {
    |vChain| == b.Height() + 1 && forall h :: 0 <= h < |vChain| ==> vChain[h] == Some(AncestorAt(b, h))
  }

  lemma {:induction false} SamePast(a: BlockIndex, b: BlockIndex, h: nat)
    requires IsAncestor(a, b) && h <= a.Height()
    ensures h <= b.Height() && AncestorAt(a, h) == AncestorAt(b, h)
  {
    AncestorHeight(a, b);
    if a != b {
      SamePast(a, b.pprev, h);
    }
  }

  /** From height h on, vChain lists b's predecessors; below, it is as it was. */
  ghost predicate SpineFrom(vChain: seq<Option<BlockIndex>>, before: seq<Option<BlockIndex>>, b: BlockIndex,
                            from: nat)
  {
    && |vChain| == |before| == b.Height() + 1
    && (forall h :: from <= h < |vChain| ==> vChain[h] == Some(AncestorAt(b, h)))
    && forall h :: 0 <= h < from && h < |vChain| ==> vChain[h] == before[h]
  }

  /** The vector cut or padded to a length. */
  function Resize(v: seq<Option<BlockIndex>>, n: nat): (r: seq<Option<BlockIndex>>)
    ensures |r| == n && forall h :: 0 <= h < n ==> r[h] == if h < |v| then v[h] else None
  {
    if n <= |v| then v[..n] else v + seq(n - |v|, _ => None)
  }

  /** The walk may stop at the first entry that is there already: what is below it is its past. */
  lemma StopsCorrectly(vChain: seq<Option<BlockIndex>>, before: seq<Option<BlockIndex>>, old_: BlockIndex,
                       b: BlockIndex, p: BlockIndex)
    requires IsAncestor(p, b) && SpineFrom(vChain, Resize(before, b.Height() + 1), b, p.Height() + 1)
    requires Spine(before, old_) && p.Height() < |vChain| && vChain[p.Height()] == Some(p)
    ensures Spine(vChain, b)
  {
    var n := p.Height();
    AncestorHeight(p, b);
    assert n < |before| && AncestorAt(old_, n) == p;
    forall h | 0 <= h < |vChain| ensures vChain[h] == Some(AncestorAt(b, h)) {
      if h <= n {
        SamePast(p, b, h);
        SamePast(p, old_, h);
      }
    }
  }

  lemma WriteEntry(vChain: seq<Option<BlockIndex>>, before: seq<Option<BlockIndex>>, b: BlockIndex, p: BlockIndex)
    requires IsAncestor(p, b) && SpineFrom(vChain, before, b, p.Height() + 1)
    ensures p.Height() < |vChain| && SpineFrom(vChain[p.Height() := Some(p)], before, b, p.Height())
  {
    AncestorIsAt(p, b);
  }

  /** The predecessor, if there is one; the ghost argument is the chain being walked. */
  method Parent(p: BlockIndex, ghost b: BlockIndex) returns (q: Option<BlockIndex>)
    requires IsAncestor(p, b)
    ensures q == (if p.Child? then Some(p.pprev) else None)
    ensures q.Some? ==> IsAncestor(q.value, b) && q.value.Height() + 1 == p.Height()
    ensures q.None? ==> p.Height() == 0
  {
    q := if p.Child? then Some(p.pprev) else None;
    if p.Child? {
      AncestorTransitive(p.pprev, p, b);
    }
  }

  class CChain {
    var vChain: seq<Option<BlockIndex>>
    ghost var tip: Option<BlockIndex>

    ghost predicate Valid()
      reads this
    {
      if tip.Some? then Spine(vChain, tip.value) else vChain == []
    }

    constructor ()
      ensures Valid() && tip == None
    {
      vChain, tip := [], None;
    }

    /** Makes pindex the tip, rewriting no more entries than necessary. */
    method SetTip(pindex: Option<BlockIndex>)
      requires Valid()
      modifies this
      ensures Valid() && tip == pindex
    {
      if pindex.None? {
        vChain, tip := [], None;
        return;
      }
      ghost var before := vChain;
      vChain := Resize(vChain, pindex.value.Height() + 1);
      vChain := Fill(vChain, pindex.value, before, tip);
      tip := pindex;
    }

    /** The entry at a height, if there is one. */
    function At(nHeight: int): Option<BlockIndex>
      reads this
    {
      if 0 <= nHeight < |vChain| then vChain[nHeight] else None
    }

    /** Whether b is in the chain is decided by one look at its height. */
    method Contains(b: BlockIndex) returns (r: bool)
      requires Valid()
      ensures r <==> tip.Some? && IsAncestor(b, tip.value)
    {
      r := At(b.Height()) == Some(b);
      if tip.Some? && IsAncestor(b, tip.value) {
        AncestorIsAt(b, tip.value);
      }
    }

    /** The block that follows b in the chain. */
    method Next(b: BlockIndex) returns (next: Option<BlockIndex>)
      requires Valid()
      ensures next.Some? <==> tip.Some? && IsAncestor(b, tip.value) && b != tip.value
      ensures next.Some? ==> next.value.Child? && next.value.pprev == b && IsAncestor(next.value, tip.value)
    {
      var contains := Contains(b);
      if !contains {
        return None;
      }
      next := At(b.Height() + 1);
      AncestorHeight(b, tip.value);
      if next.Some? {
        ParentAt(tip.value, b.Height());
        AncestorIsAt(b, tip.value);
      }
    }
  }

  lemma {:induction false} ParentAt(b: BlockIndex, h: nat)
    requires h + 1 <= b.Height()
    ensures AncestorAt(b, h + 1).Child? && AncestorAt(b, h + 1).pprev == AncestorAt(b, h)
  {
    if b.Height() > h + 1 {
      ParentAt(b.pprev, h);
    }
  }

  /** Walks down from pindex, writing entries until one is there already. */
  method Fill(vChain: seq<Option<BlockIndex>>, pindex: BlockIndex, ghost before: seq<Option<BlockIndex>>,
              ghost tip: Option<BlockIndex>)
    returns (vChain': seq<Option<BlockIndex>>)
    requires if tip.Some? then Spine(before, tip.value) else before == []
    requires vChain == Resize(before, pindex.Height() + 1)
    ensures Spine(vChain', pindex)
  {
    vChain' := vChain;
    var p := Some(pindex);
    while p.Some? && vChain'[p.value.Height()] != p
      invariant p.Some? ==> IsAncestor(p.value, pindex) && p.value.Height() < |vChain'|
      invariant SpineFrom(vChain', vChain, pindex, if p.Some? then p.value.Height() + 1 else 0)
      decreases if p.Some? then p.value.Height() + 1 else 0
    {
      WriteEntry(vChain', vChain, pindex, p.value);
      hide SpineFrom, IsAncestor;
      vChain' := vChain'[p.value.Height() := p];
      p := Parent(p.value, pindex);
    }
    if p.Some? {
      StopsCorrectly(vChain', before, tip.value, pindex, p.value);
    }
  }
}
