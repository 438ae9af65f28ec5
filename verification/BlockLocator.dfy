/** Block locators: a short list of hashes by which a peer finds where two chains part. */
module BlockLocator {
  import opened Arithmetic
  import opened Basics
  import opened ChainTree

  /** How far below its block the j-th entry of a locator lies. */
  function Depth(j: nat): nat {
    if j <= 11 then j else 9 + Pow2(j - 10)
  }

  lemma {:induction false} DepthStep(j: nat)
    ensures Depth(j) < Depth(j + 1)
    ensures j >= 10 ==> Depth(j) == 9 + Pow2(j - 10) && Depth(j + 1) == 2 * Depth(j) - 9
    ensures j < 11 ==> Depth(j + 1) == Depth(j) + 1
  {
    assert Pow2(0) == 1 && Pow2(1) == 2;
  }

  lemma {:induction false} DepthGrows(i: nat, j: nat)
    requires i <= j
    ensures Depth(i) <= Depth(j) && (i < j ==> Depth(i) < Depth(j))
    decreases j
  {
    if i < j {
      DepthGrows(i, j - 1);
      DepthStep(j - 1);
    }
  }

  /** The predecessor of b that is d blocks back. */
  function Back(b: BlockIndex, d: nat): Option<BlockIndex> {
    if d <= b.Height() then Some(AncestorAt(b, b.Height() - d)) else None
  }

  lemma {:induction false} BackOne(b: BlockIndex, d: nat)
    ensures Back(b, 0) == Some(b)
    ensures d < b.Height() ==> Back(b, d).value.Child? && Back(b, d + 1) == Some(Back(b, d).value.pprev)
    ensures d == b.Height() ==> Back(b, d).value.Genesis? && Back(b, d + 1) == None
  {
    if d < b.Height() {
      PredecessorAt(b, b.Height() - d);
    }
  }

  lemma {:induction false} PredecessorAt(b: BlockIndex, h: nat)
    requires 0 < h <= b.Height()
    ensures AncestorAt(b, h).Child? && AncestorAt(b, h).pprev == AncestorAt(b, h - 1)
  {
    if h < b.Height() {
      PredecessorAt(b.pprev, h);
    }
  }

  /** The first n entries of b's locator. */
  ghost predicate Lists(vHave: seq<nat>, b: BlockIndex, n: nat) {
    && |vHave| == n && (n > 0 ==> Depth(n - 1) <= b.Height())
    && forall j :: 0 <= j < n ==> Depth(j) <= b.Height() && vHave[j] == AncestorAt(b, b.Height() - Depth(j)).Hash()
  }

  /** All entries that b's chain has room for, and the genesis hash. */
  ghost predicate IsLocator(vHave: seq<nat>, b: BlockIndex, hashGenesis: nat) {
    && vHave != [] && vHave[|vHave| - 1] == hashGenesis
    && Lists(vHave[..|vHave| - 1], b, |vHave| - 1) && b.Height() < Depth(|vHave| - 1)
  }

  /** A locator is short: for a block at height h, 11 or more, it has at most 12 entries more
      than the binary logarithm of h. */
  lemma {:induction false} LocatorIsShort(vHave: seq<nat>, b: BlockIndex, hashGenesis: nat)
    requires IsLocator(vHave, b, hashGenesis) && b.Height() >= 11
    ensures |vHave| >= 12 && Pow2(|vHave| - 12) <= b.Height()
  {
    var n := |vHave| - 1;
    assert n > 11;
    DepthStep(n - 1);
  }

  /** The step that follows entry j. */
  function Step(j: nat): nat {
    if j <= 10 then 1 else Pow2(j - 10)
  }

  lemma {:induction false} StepDepth(j: nat)
    ensures Depth(j) + Step(j) == Depth(j + 1)
    ensures Step(j + 1) == if j + 1 > 10 then Step(j) * 2 else Step(j)
  {
    assert Pow2(0) == 1 && Pow2(1) == 2;
  }

  lemma {:induction false} ListsMore(vHave: seq<nat>, b: BlockIndex, n: nat)
    requires Lists(vHave, b, n) && Depth(n) <= b.Height()
    ensures Lists(vHave + [AncestorAt(b, b.Height() - Depth(n)).Hash()], b, n + 1)
  {
    hide Depth;
  }

  /** The state of the walk: what is listed, where it is, and how far it steps next. */
  ghost predicate Walking(b: BlockIndex, vHave: seq<nat>, pindex: Option<BlockIndex>, nStep: nat) {
    Lists(vHave, b, |vHave|) && pindex == Back(b, Depth(|vHave|)) && nStep == Step(|vHave|)
  }

  lemma {:induction false} WalkOn(b: BlockIndex, vHave: seq<nat>, pindex: Option<BlockIndex>, nStep: nat,
                                  next: Option<BlockIndex>)
    requires Walking(b, vHave, pindex, nStep) && pindex.Some? && next == Back(b, Depth(|vHave|) + nStep)
    ensures Walking(b, vHave + [pindex.value.Hash()], next, if |vHave| + 1 > 10 then nStep * 2 else nStep)
  {
    hide Lists, Depth, Step, Back;
    WalkedTo(b, vHave, pindex);
    ListsMore(vHave, b, |vHave|);
    StepDepth(|vHave|);
  }

  lemma {:induction false} WalkedTo(b: BlockIndex, vHave: seq<nat>, pindex: Option<BlockIndex>)
    requires pindex == Back(b, Depth(|vHave|)) && pindex.Some?
    ensures Depth(|vHave|) <= b.Height() && pindex.value == AncestorAt(b, b.Height() - Depth(|vHave|))
  {
  }

  lemma {:induction false} WalkEnds(b: BlockIndex, vHave: seq<nat>, nStep: nat, hashGenesis: nat)
    requires Walking(b, vHave, None, nStep)
    ensures IsLocator(vHave + [hashGenesis], b, hashGenesis)
  {
    assert (vHave + [hashGenesis])[..|vHave|] == vHave;
  }

  class CBlockLocator {
    var vHave: seq<nat>

    constructor (b: BlockIndex, hashGenesis: nat)
      ensures IsLocator(vHave, b, hashGenesis)
    {
      new;
      Set(b, hashGenesis);
    }

    /** Lists hashes from b back, in steps that grow after the first ten. */
    method Set(b: BlockIndex, hashGenesis: nat)
      modifies this
      ensures IsLocator(vHave, b, hashGenesis)
    {
      vHave := [];
      var nStep: nat := 1;
      var pindex := Some(b);
      BackOne(b, 0);
      while pindex.Some?
        invariant Walking(b, vHave, pindex, nStep)
        decreases if pindex.Some? then pindex.value.Height() + 1 else 0
      {
        var next := StepFrom(b, Depth(|vHave|), pindex, nStep);
        WalkOn(b, vHave, pindex, nStep, next);
        hide Walking, Back;
        vHave := vHave + [pindex.value.Hash()];
        pindex := next;
        if |vHave| > 10 {
          nStep := nStep * 2;
        }
      }
      WalkEnds(b, vHave, nStep, hashGenesis);
      vHave := vHave + [hashGenesis];
    }
  }

  /** Goes n blocks back, or past the genesis block. */
  method StepFrom(ghost b: BlockIndex, ghost d: nat, p: Option<BlockIndex>, n: nat) returns (q: Option<BlockIndex>)
    requires p == Back(b, d)
    ensures q == Back(b, d + n)
    ensures p.Some? && n > 0 && q.Some? ==> q.value.Height() < p.value.Height()
  {
    q := p;
    var i := 0;
    while q.Some? && i < n
      invariant i <= n && (q.Some? ==> q == Back(b, d + i)) && (q.None? ==> Back(b, d + n) == None)
    {
      BackOne(b, d + i);
      q := if q.value.Child? then Some(q.value.pprev) else None;
      i := i + 1;
    }
  }

  // ----- looking a locator up -----

  /** A hash names at most one block, of b's chain and among the known ones. */
  ghost predicate NamesAgree(tree: map<nat, BlockIndex>, b: BlockIndex) {
    forall a :: IsAncestor(a, b) && a.Hash() in tree ==> tree[a.Hash()] == a
  }

  /** Every block of the main chain is known. */
  ghost predicate KnowsChain(tree: map<nat, BlockIndex>, best: BlockIndex) {
    forall a :: IsAncestor(a, best) ==> a.Hash() in tree && tree[a.Hash()] == a
  }

  predicate OnMain(tree: map<nat, BlockIndex>, best: BlockIndex, hash: nat) {
    hash in tree && IsAncestor(tree[hash], best)
  }

  /** The test tells of known blocks whether they are on the main chain. */
  ghost predicate TellsMain(isInMainChain: BlockIndex -> bool, tree: map<nat, BlockIndex>, best: BlockIndex) {
    forall h :: h in tree ==> (isInMainChain(tree[h]) <==> IsAncestor(tree[h], best))
  }

  /** The first block of the locator that passes the test for the main chain, or the genesis block. */
  method GetBlockIndex(vHave: seq<nat>, tree: map<nat, BlockIndex>, isInMainChain: BlockIndex -> bool,
                       pindexGenesisBlock: BlockIndex)
    returns (r: BlockIndex, ghost at: nat)
    ensures at <= |vHave| && forall j :: 0 <= j < at ==> !(vHave[j] in tree && isInMainChain(tree[vHave[j]]))
    ensures at < |vHave| ==> vHave[at] in tree && isInMainChain(tree[vHave[at]]) && r == tree[vHave[at]]
    ensures at == |vHave| ==> r == pindexGenesisBlock
  {
    for i := 0 to |vHave|
      invariant forall j :: 0 <= j < i ==> !(vHave[j] in tree && isInMainChain(tree[vHave[j]]))
    {
      if vHave[i] in tree && isInMainChain(tree[vHave[i]]) {
        return tree[vHave[i]], i;
      }
    }
    r, at := pindexGenesisBlock, |vHave|;
  }

  /** A block of b's chain is on the main chain exactly when it is not above the fork. */
  lemma {:induction false} OnMainByHeight(tree: map<nat, BlockIndex>, b: BlockIndex, best: BlockIndex, f: BlockIndex,
                                          h: nat)
    requires NamesAgree(tree, b) && KnowsChain(tree, best) && IsFork(f, b, best) && h <= b.Height()
    ensures OnMain(tree, best, AncestorAt(b, h).Hash()) <==> h <= f.Height()
    ensures OnMain(tree, best, AncestorAt(b, h).Hash()) ==> tree[AncestorAt(b, h).Hash()] == AncestorAt(b, h)
  {
    var a := AncestorAt(b, h);
    if h <= f.Height() {
      AncestorBelowFork(a, f, b);
      AncestorTransitive(a, f, best);
    } else if OnMain(tree, best, a.Hash()) {
      AncestorHeight(a, f);
    }
  }

  /** Of two predecessors of b the lower one precedes the higher one. */
  lemma {:induction false} AncestorBelowFork(a: BlockIndex, f: BlockIndex, b: BlockIndex)
    requires IsAncestor(a, b) && IsAncestor(f, b) && a.Height() <= f.Height()
    ensures IsAncestor(a, f)
  {
    if f != b {
      if a == b {
        AncestorHeight(f, b.pprev);
      } else {
        AncestorBelowFork(a, f, b.pprev);
      }
    }
  }

  /** The depth a look-up finds, by the depth of the fork: the first listed depth that is no
      less than the fork's. */
  lemma {:induction false} FoundDepth(j: nat, d: nat)
    requires j == 0 || Depth(j - 1) < d
    requires d <= Depth(j)
    ensures d <= 11 ==> Depth(j) == d
    ensures d > 11 ==> Depth(j) < 2 * d
  {
    if j > 0 {
      DepthStep(j - 1);
    }
    if j > 11 {
      DepthGrows(11, j - 1);
    }
  }

  /** A locator built for b, looked up against a main chain that parts from b's chain at f:
      the result is on both chains; it is the fork itself when that is at most 11 blocks back,
      and otherwise less than twice as far back as the fork. */
  method FindCommon(b: BlockIndex, tree: map<nat, BlockIndex>, best: BlockIndex, isInMainChain: BlockIndex -> bool,
                    ghost f: BlockIndex)
    returns (r: BlockIndex)
    requires NamesAgree(tree, b) && KnowsChain(tree, best) && IsFork(f, b, best) && TellsMain(isInMainChain, tree, best)
    ensures IsAncestor(r, b) && IsAncestor(r, best) && r.Height() <= f.Height() <= b.Height()
    ensures var d := b.Height() - f.Height();
            && (d <= 11 ==> r == f)
            && (d > 11 ==> b.Height() - r.Height() < 2 * d)
  {
    var pindexGenesisBlock := RootOf(best);
    var locator := new CBlockLocator(b, pindexGenesisBlock.Hash());
    ghost var at;
    r, at := GetBlockIndex(locator.vHave, tree, isInMainChain, pindexGenesisBlock);
    assert forall h :: OnMain(tree, best, h) <==> h in tree && isInMainChain(tree[h]);
    GenesisOnMain(tree, best);
    assert OnMain(tree, best, locator.vHave[|locator.vHave| - 1]);
    FoundOnBoth(locator.vHave, tree, b, best, f, r, at);
  }

  function RootOf(b: BlockIndex): (r: BlockIndex)
    ensures r == b.Root()
  {
    b.Root()
  }

  lemma {:induction false} GenesisOnMain(tree: map<nat, BlockIndex>, best: BlockIndex)
    requires KnowsChain(tree, best)
    ensures OnMain(tree, best, best.Root().Hash()) && tree[best.Root().Hash()] == best.Root() && best.Root().Genesis?
  {
    RootIsAncestor(best);
  }

  /** The last resort: every listed block lies above the fork. */
  lemma {:induction false} FoundGenesis(tree: map<nat, BlockIndex>, b: BlockIndex, best: BlockIndex, f: BlockIndex,
                                        r: BlockIndex, n: nat)
    requires KnowsChain(tree, best) && IsFork(f, b, best) && r == best.Root() && f.Height() <= b.Height() < Depth(n)
    requires n > 0 ==> Depth(n - 1) < b.Height() - f.Height()
    ensures IsAncestor(r, b) && IsAncestor(r, best) && r.Height() == 0
    ensures b.Height() - f.Height() > 11 && b.Height() < 2 * (b.Height() - f.Height())
  {
    GenesisOnMain(tree, best);
    AncestorHeight(f, b);
    AncestorHeight(f, best);
    RootIsAncestor(b);
    FoundDepth(n, b.Height() - f.Height());
  }

  /** What a listed entry tells about the fork. */
  lemma {:induction false} ListedEntry(vHave: seq<nat>, tree: map<nat, BlockIndex>, b: BlockIndex, best: BlockIndex,
                                       f: BlockIndex, j: nat)
    requires NamesAgree(tree, b) && KnowsChain(tree, best) && IsFork(f, b, best) &&
             IsLocator(vHave, b, best.Root().Hash())
    requires j < |vHave| - 1
    ensures f.Height() <= b.Height() && Depth(j) <= b.Height()
    ensures OnMain(tree, best, vHave[j]) <==> b.Height() - f.Height() <= Depth(j)
    ensures OnMain(tree, best, vHave[j]) ==> tree[vHave[j]] == AncestorAt(b, b.Height() - Depth(j))
  {
    hide Depth;
    AncestorHeight(f, b);
    assert vHave[j] == vHave[..|vHave| - 1][j];
    OnMainByHeight(tree, b, best, f, b.Height() - Depth(j));
  }

  lemma {:induction false} FoundOnBoth(vHave: seq<nat>, tree: map<nat, BlockIndex>, b: BlockIndex, best: BlockIndex,
                                       f: BlockIndex, r: BlockIndex, at: nat)
    requires NamesAgree(tree, b) && KnowsChain(tree, best) && IsFork(f, b, best) &&
             IsLocator(vHave, b, best.Root().Hash())
    requires at < |vHave| && (forall j :: 0 <= j < at ==> !OnMain(tree, best, vHave[j])) &&
             OnMain(tree, best, vHave[at]) && r == tree[vHave[at]]
    ensures IsAncestor(r, b) && IsAncestor(r, best) && r.Height() <= f.Height() <= b.Height()
    ensures var d := b.Height() - f.Height();
            (d <= 11 ==> r == f) && (d > 11 ==> b.Height() - r.Height() < 2 * d)
  {
    var n, d := |vHave| - 1, b.Height() - f.Height();
    AncestorHeight(f, b);
    AncestorIsAt(f, b);
    if at > 0 {
      ListedEntry(vHave, tree, b, best, f, at - 1);
    }
    hide Lists, NamesAgree, IsFork, Depth, BlockIndex.Height;
    if at < n {
      ListedEntry(vHave, tree, b, best, f, at);
      FoundDepth(at, d);
    } else {
      GenesisOnMain(tree, best);
      FoundGenesis(tree, b, best, f, r, n);
    }
  }
}
