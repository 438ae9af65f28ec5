/** The stake modifier: 64 bits, each contributed by a block selected from the recent past. */
module Kernel {
  import opened Arithmetic
  import opened Basics

  const MODIFIER_INTERVAL := 600
  const MODIFIER_INTERVAL_RATIO := 3

  datatype Info = Info(hash: nat, nTime: nat, hashProof: nat, fProofOfStake: bool, fGenerated: bool,
                       nStakeModifier: nat, fEntropyBit: bool)

  datatype StakeIndex = First(info: Info) | Next(pprev: StakeIndex, info: Info)
  {
    function Height(): nat {
      if First? then 0 else pprev.Height() + 1
    }
  }

  /** A candidate, as it is sorted: by time and then by hash. */
  datatype Item = Item(time: int, hash: nat)

  predicate NotAfter(a: Item, b: Item) {
    a.time < b.time || (a.time == b.time && a.hash <= b.hash)
  }

  ghost predicate Sorted(v: seq<Item>) {
    forall i, j :: 0 <= i < j < |v| ==> NotAfter(v[i], v[j])
  }

  // ----- intervals -----

  /** The length of one section of the selection interval. */
  function IntervalSection(nSection: nat): (s: nat)
    requires nSection < 64
    ensures MODIFIER_INTERVAL / MODIFIER_INTERVAL_RATIO <= s <= MODIFIER_INTERVAL
  {
    MODIFIER_INTERVAL * 63 / (63 + (63 - nSection) * (MODIFIER_INTERVAL_RATIO - 1))
  }

  function SectionSum(n: nat): nat
    requires n <= 64
  {
    if n == 0 then 0 else SectionSum(n - 1) + IntervalSection(n - 1)
  }

  method GetStakeModifierSelectionInterval() returns (nSelectionInterval: nat)
    ensures nSelectionInterval == SectionSum(64)
  {
    nSelectionInterval := 0;
    for nSection := 0 to 64
      invariant nSelectionInterval == SectionSum(nSection)
    {
      nSelectionInterval := nSelectionInterval + IntervalSection(nSection);
    }
  }

  // ----- selecting one block -----

  /** The hash that ranks a candidate: a proof-of-stake block is favoured. */
  function SelectionHash(H: (nat, nat) -> nat, info: Info, nStakeModifierPrev: nat): nat {
    if info.fProofOfStake then H(info.hashProof, nStakeModifierPrev) / 0x1_0000_0000
      else H(info.hashProof, nStakeModifierPrev)
  }

  /** The candidates, where their blocks are found, and how they are ranked. */
  datatype Candidates = Candidates(v: seq<Item>, index: map<nat, StakeIndex>, H: (nat, nat) -> nat,
                                   nStakeModifierPrev: nat) {
    /** The candidates are sorted, and blocks are filed by their hash. */
    ghost predicate Sound() {
      && Sorted(v)
      && forall k :: 0 <= k < |v| && v[k].hash in index ==>
           index[v[k].hash].info.hash == v[k].hash && index[v[k].hash].info.nTime == v[k].time
    }

    /** Every candidate is a known block. */
    ghost predicate Known() {
      Sound() && forall k :: 0 <= k < |v| ==> v[k].hash in index
    }

    function Rank(k: nat): nat
      requires k < |v|
    {
      if v[k].hash in index then SelectionHash(H, index[v[k].hash].info, nStakeModifierPrev) else 0
    }

    predicate Free(selected: set<nat>, k: nat) {
      k < |v| && v[k].hash !in selected
    }

    predicate Eligible(selected: set<nat>, nStop: int, k: nat) {
      Free(selected, k) && v[k].time <= nStop
    }

    /** Candidate k is the choice of a round: the least selection hash among the free ones up
        to the round's stop time, the earliest of these on a tie; or the earliest free one,
        when there is none up to the stop time. */
    ghost predicate Chosen(selected: set<nat>, nStop: int, k: nat) {
      && Free(selected, k)
      && ((exists j :: Eligible(selected, nStop, j)) ==>
            Eligible(selected, nStop, k) &&
            forall j :: Eligible(selected, nStop, j) ==> Rank(k) < Rank(j) || (Rank(k) == Rank(j) && k <= j))
      && ((forall j :: !Eligible(selected, nStop, j)) ==> forall j :: Free(selected, j) ==> k <= j)
    }

    /** The state of the search: k is the best of the free candidates before i, of which the
        first is `first`, and all after the first are up to the stop time. */
    ghost predicate BestSoFar(selected: set<nat>, nStop: int, i: nat, first: nat, k: nat) {
      && i <= |v| && first <= k < i && Free(selected, first) && Free(selected, k)
      && (forall j :: 0 <= j < first ==> !Free(selected, j))
      && (forall j :: first < j < i ==> v[j].time <= nStop)
      && forall j :: first <= j < i && Free(selected, j) ==> Rank(k) < Rank(j) || (Rank(k) == Rank(j) && k <= j)
    }

    lemma SearchEnds(selected: set<nat>, nStop: int, i: nat, first: nat, k: nat)
      requires Sound() && BestSoFar(selected, nStop, i, first, k)
      requires i == |v| || v[i].time > nStop
      ensures Chosen(selected, nStop, k)
    {
      forall j: nat | i <= j < |v| ensures v[j].time > nStop {
        LaterStops(nStop, i, j);
      }
      if v[first].time <= nStop {
        assert Eligible(selected, nStop, first) && Eligible(selected, nStop, k);
      } else {
        forall j: nat | first <= j < |v| ensures v[j].time > nStop {
          LaterStops(nStop, first, j);
        }
      }
    }

    lemma ChosenMeans(selected: set<nat>, nStop: int, k: nat, x: nat)
      requires Known() && Chosen(selected, nStop, k) && x < |v| && v[x].hash !in selected
      ensures k < |v| && index[v[k].hash].info.nTime == v[k].time && index[v[k].hash].info.hash == v[k].hash
      ensures index[v[x].hash].info.nTime == v[x].time
      ensures v[x].time <= nStop ==> v[k].time <= nStop && Rank(k) <= Rank(x)
      ensures v[x].time <= nStop && Rank(k) == Rank(x) ==> v[k].time <= v[x].time
      ensures v[k].time > nStop ==> v[k].time <= v[x].time
    {
      assert Free(selected, x) && Free(selected, k);
      if k < x {
        assert NotAfter(v[k], v[x]);
      }
      if v[x].time <= nStop {
        assert Eligible(selected, nStop, x);
      }
      if v[k].time > nStop {
        assert !Eligible(selected, nStop, k);
        assert k <= x;
      }
    }

    lemma LaterStops(nStop: int, i: nat, j: nat)
      requires Sound() && i <= j < |v| && v[i].time > nStop
      ensures v[j].time > nStop
    {
      if i < j {
        assert NotAfter(v[i], v[j]);
      }
    }

    lemma NextIsWorse(selected: set<nat>, nStop: int, i: nat, first: nat, k: nat)
      requires BestSoFar(selected, nStop, i, first, k) && i < |v| && v[i].time <= nStop
      requires Free(selected, i) ==> Rank(i) >= Rank(k)
      ensures BestSoFar(selected, nStop, i + 1, first, k)
    {
    }

    lemma NextIsBetter(selected: set<nat>, nStop: int, i: nat, first: nat, k: nat)
      requires BestSoFar(selected, nStop, i, first, k) && i < |v| && v[i].time <= nStop
      requires Free(selected, i) && Rank(i) < Rank(k)
      ensures BestSoFar(selected, nStop, i + 1, first, i)
    {
    }
  }

  /** Selects a block.  It fails when every candidate has been selected already, or when the search
      comes across a candidate that is not a known block, which it does up to the stop time. */
  method SelectBlockFromCandidates(c: Candidates, mapSelectedBlocks: map<nat, StakeIndex>, nSelectionIntervalStop: int)
    returns (fSelected: bool, pindexSelected: Option<StakeIndex>, ghost k: nat)
    requires c.Sound()
    ensures c.Known() ==> (fSelected <==> exists j :: c.Free(mapSelectedBlocks.Keys, j))
    ensures fSelected ==> c.Chosen(mapSelectedBlocks.Keys, nSelectionIntervalStop, k)
    ensures fSelected ==> c.v[k].hash in c.index && pindexSelected == Some(c.index[c.v[k].hash])
    ensures forall j :: 0 <= j < |c.v| && c.v[j].time <= nSelectionIntervalStop && c.v[j].hash !in c.index ==>
            !fSelected
  {
    ghost var selected, first := mapSelectedBlocks.Keys, 0;
    var hashBest := 0;
    fSelected, k, pindexSelected := false, 0, None;
    var i := 0;
    while i < |c.v|
      invariant 0 <= i <= |c.v| && forall j :: 0 <= j < i ==> c.v[j].hash in c.index
      invariant !fSelected ==> forall j :: 0 <= j < i ==> !c.Free(selected, j)
      invariant fSelected ==> c.BestSoFar(selected, nSelectionIntervalStop, i, first, k)
      invariant fSelected ==> pindexSelected == Some(c.index[c.v[k].hash]) && hashBest == c.Rank(k)
    {
      if c.v[i].hash !in c.index {
        return false, None, k;
      }
      var pindex := c.index[c.v[i].hash];
      if fSelected && pindex.info.nTime > nSelectionIntervalStop {
        break;
      }
      if pindex.info.hash !in mapSelectedBlocks {
        var hashSelection := SelectionHash(c.H, pindex.info, c.nStakeModifierPrev);
        if fSelected && hashSelection < hashBest {
          c.NextIsBetter(selected, nSelectionIntervalStop, i, first, k);
          hashBest, pindexSelected, k := hashSelection, Some(pindex), i;
        } else if !fSelected {
          fSelected, hashBest, pindexSelected, k, first := true, hashSelection, Some(pindex), i, i;
        } else {
          c.NextIsWorse(selected, nSelectionIntervalStop, i, first, k);
        }
      } else if fSelected {
        c.NextIsWorse(selected, nSelectionIntervalStop, i, first, k);
      }
      i := i + 1;
    }
    if fSelected {
      c.SearchEnds(selected, nSelectionIntervalStop, i, first, k);
      assert c.Free(selected, k);
      forall j | i <= j < |c.v| ensures c.v[j].time > nSelectionIntervalStop {
        c.LaterStops(nSelectionIntervalStop, i, j);
      }
    }
  }

  // ----- the chain of blocks -----

  /** The last block up to b that generated a modifier. */
  function LastGenerated(b: StakeIndex): Option<StakeIndex> {
    if b.info.fGenerated then Some(b) else if b.First? then None else LastGenerated(b.pprev)
  }

  method GetLastStakeModifier(pindexPrev: StakeIndex) returns (ok: bool, nStakeModifier: nat, nModifierTime: nat)
    ensures ok <==> LastGenerated(pindexPrev).Some?
    ensures ok ==> nStakeModifier == LastGenerated(pindexPrev).value.info.nStakeModifier
    ensures ok ==> nModifierTime == LastGenerated(pindexPrev).value.info.nTime
  {
    var pindex := pindexPrev;
    while pindex.Next? && !pindex.info.fGenerated
      invariant LastGenerated(pindex) == LastGenerated(pindexPrev)
      decreases pindex
    {
      pindex := pindex.pprev;
    }
    ok, nStakeModifier, nModifierTime := pindex.info.fGenerated, pindex.info.nStakeModifier, pindex.info.nTime;
  }

  function ItemOf(b: StakeIndex): Item {
    Item(b.info.nTime, b.info.hash)
  }

  /** The recent blocks up to b, oldest first: back to the first that is before the start. */
  function Window(b: StakeIndex, nStart: int): seq<StakeIndex> {
    if b.info.nTime < nStart then []
    else (if b.First? then [] else Window(b.pprev, nStart)) + [b]
  }

  function ItemsOf(w: seq<StakeIndex>): seq<Item> {
    seq(|w|, i requires 0 <= i < |w| => ItemOf(w[i]))
  }

  /** Every block of the chain is filed under its hash. */
  ghost predicate Filed(index: map<nat, StakeIndex>, b: StakeIndex) {
    b.info.hash in index && index[b.info.hash] == b && (b.Next? ==> Filed(index, b.pprev))
  }

  lemma {:induction false} WindowFiled(index: map<nat, StakeIndex>, b: StakeIndex, nStart: int)
    requires Filed(index, b)
    ensures forall i :: 0 <= i < |Window(b, nStart)| ==>
              var x := Window(b, nStart)[i];
              x.info.hash in index && index[x.info.hash] == x && x.Height() <= b.Height()
    ensures forall i, j :: 0 <= i < j < |Window(b, nStart)| ==>
            Window(b, nStart)[i].info.hash != Window(b, nStart)[j].info.hash
  {
    if b.Next? {
      WindowFiled(index, b.pprev, nStart);
    }
  }

  method CollectCandidates(pindexPrev: StakeIndex, nStart: int) returns (v: seq<Item>)
    ensures v == ItemsOf(Window(pindexPrev, nStart))
  {
    hide *;
    v := [];
    var pindex := Some(pindexPrev);
    ItemsBackStarts(pindexPrev, nStart);
    while pindex.Some? && pindex.value.info.nTime >= nStart
      invariant ItemsOf(Window(pindexPrev, nStart)) == ItemsBack(pindex, nStart) + v
      decreases if pindex.Some? then pindex.value.Height() + 1 else 0
    {
      var b := pindex.value;
      ItemsBackStep(b, nStart, v);
      v := [ItemOf(b)] + v;
      pindex := if b.Next? then Some(b.pprev) else None;
    }
    ItemsBackEnds(pindex, nStart);
  }

  ghost function ItemsBack(pindex: Option<StakeIndex>, nStart: int): seq<Item> {
    if pindex.Some? then ItemsOf(Window(pindex.value, nStart)) else []
  }

  lemma ItemsBackStarts(b: StakeIndex, nStart: int)
    ensures ItemsOf(Window(b, nStart)) == ItemsBack(Some(b), nStart) + []
  {
  }

  lemma ItemsBackStep(b: StakeIndex, nStart: int, v: seq<Item>)
    requires b.info.nTime >= nStart
    ensures var before := if b.Next? then Some(b.pprev) else None;
            ItemsBack(Some(b), nStart) + v == ItemsBack(before, nStart) + ([ItemOf(b)] + v)
    ensures b.Next? ==> b.pprev.Height() < b.Height()
  {
    var before := if b.Next? then ItemsOf(Window(b.pprev, nStart)) else [];
    assert ItemsOf(Window(b, nStart)) == before + [ItemOf(b)];
  }

  lemma ItemsBackEnds(pindex: Option<StakeIndex>, nStart: int)
    requires pindex.Some? ==> pindex.value.info.nTime < nStart
    ensures ItemsBack(pindex, nStart) == []
  {
  }

  // ----- sorting -----

  lemma NotAfterTransitive(a: Item, b: Item, c: Item)
    requires NotAfter(a, b) && NotAfter(b, c)
    ensures NotAfter(a, c)
  {
  }

  /** e fits at position i. */
  ghost predicate Fits(s: seq<Item>, e: Item, i: nat) {
    i <= |s| && (forall j :: 0 <= j < i ==> NotAfter(s[j], e)) && forall j :: i <= j < |s| ==> NotAfter(e, s[j])
  }

  lemma Inserted(s: seq<Item>, e: Item, i: nat)
    requires Sorted(s) && Fits(s, e, i)
    ensures Sorted(s[..i] + [e] + s[i..]) && multiset(s[..i] + [e] + s[i..]) == multiset(s) + multiset{e}
  {
    var r := s[..i] + [e] + s[i..];
    hide NotAfter;
    forall j, k | 0 <= j < k < |r| ensures NotAfter(r[j], r[k]) {
      assert r[j] == if j < i then s[j] else if j == i then e else s[j - 1];
      assert r[k] == if k < i then s[k] else if k == i then e else s[k - 1];
    }
    assert s == s[..i] + s[i..];
  }

  lemma FitsAfter(s: seq<Item>, e: Item, i: nat)
    requires Sorted(s) && i <= |s| && (i > 0 ==> NotAfter(s[i - 1], e)) && forall j :: i <= j < |s| ==>
             NotAfter(e, s[j])
    ensures Fits(s, e, i)
  {
    forall j | 0 <= j < i ensures NotAfter(s[j], e) {
      if j < i - 1 {
        NotAfterTransitive(s[j], s[i - 1], e);
      }
    }
  }

  /** Puts e where it belongs in a sorted sequence. */
  method Insert(s: seq<Item>, e: Item) returns (r: seq<Item>)
    requires Sorted(s)
    ensures Sorted(r) && multiset(r) == multiset(s) + multiset{e}
  {
    var i := |s|;
    while i > 0 && !NotAfter(s[i - 1], e)
      invariant 0 <= i <= |s| && forall j :: i <= j < |s| ==> NotAfter(e, s[j])
    {
      i := i - 1;
    }
    FitsAfter(s, e, i);
    Inserted(s, e, i);
    r := s[..i] + [e] + s[i..];
  }

  method Sort(v: seq<Item>) returns (r: seq<Item>)
    ensures Sorted(r) && multiset(r) == multiset(v)
    ensures forall i, j :: 0 <= i < j < |r| ==>
              r[i].time < r[j].time || (r[i].time == r[j].time && r[i].hash <= r[j].hash)
  {
    r := [];
    for i := 0 to |v|
      invariant Sorted(r) && multiset(r) == multiset(v[..i])
    {
      assert v[..i + 1] == v[..i] + [v[i]];
      r := Insert(r, v[i]);
    }
    assert v[..|v|] == v;
  }

  // ----- the rounds -----

  /** While fewer blocks are selected than there are candidates, a candidate is free. */
  lemma SomethingFree(c: Candidates, w: seq<StakeIndex>, selected: set<nat>)
    requires multiset(c.v) == multiset(ItemsOf(w)) && |selected| < |w|
    requires forall i, j :: 0 <= i < j < |w| ==> w[i].info.hash != w[j].info.hash
    ensures exists k :: c.Free(selected, k)
  {
    if forall k: nat :: k < |c.v| ==> c.v[k].hash in selected {
      forall i | 0 <= i < |w| ensures w[i].info.hash in selected {
        assert ItemsOf(w)[i] in multiset(c.v);
        var k :| 0 <= k < |c.v| && c.v[k] == ItemsOf(w)[i];
      }
      DistinctHashesCount(w, selected);
    } else {
      var k: nat :| k < |c.v| && c.v[k].hash !in selected;
      assert c.Free(selected, k);
    }
  }

  lemma {:induction false} DistinctHashesCount(w: seq<StakeIndex>, selected: set<nat>)
    requires forall i, j :: 0 <= i < j < |w| ==> w[i].info.hash != w[j].info.hash
    requires forall i :: 0 <= i < |w| ==> w[i].info.hash in selected
    ensures |w| <= |selected|
    decreases |w|
  {
    if w != [] {
      var last := w[|w| - 1].info.hash;
      DistinctHashesCount(w[..|w| - 1], selected - {last});
    }
  }

  ghost function Hashes(sel: seq<StakeIndex>): set<nat> {
    set i | 0 <= i < |sel| :: sel[i].info.hash
  }

  /** Round r chose block sel[r] among the candidates that were still free, up to the stop time
      of that round. */
  ghost predicate RoundOk(c: Candidates, nStart: int, sel: seq<StakeIndex>, r: nat)
    requires r < |sel| <= 64
  {
    exists k: nat :: c.Chosen(Hashes(sel[..r]), nStart + SectionSum(r + 1), k) && c.v[k].hash in c.index &&
      c.index[c.v[k].hash] == sel[r]
  }

  /** The blocks selected, in order, and the number whose bits they give. */
  ghost predicate Selection(c: Candidates, nStart: int, sel: seq<StakeIndex>, nStakeModifierNew: nat) {
    && |sel| <= 64 && nStakeModifierNew < Pow2(|sel|)
    && (forall r :: 0 <= r < |sel| ==> RoundOk(c, nStart, sel, r))
    && (forall r, s :: 0 <= r < s < |sel| ==> sel[r].info.hash != sel[s].info.hash)
    && forall r :: 0 <= r < |sel| ==> Bit(nStakeModifierNew, r) == sel[r].info.fEntropyBit
  }

  /** Writes one more bit. */
  function WithBit(n: nat, r: nat, b: bool): nat {
    n + if b then Pow2(r) else 0
  }

  lemma WithBitBits(n: nat, r: nat, b: bool, j: nat)
    requires n < Pow2(r) && j <= r
    ensures WithBit(n, r, b) < Pow2(r + 1) && Bit(WithBit(n, r, b), j) == if j == r then b else Bit(n, j)
  {
    if b {
      AddHighBit(n, r, j);
    } else {
      NoHighBit(n, r);
    }
  }

  lemma HashesOfPrefix(sel: seq<StakeIndex>, b: StakeIndex)
    ensures Hashes(sel + [b]) == Hashes(sel) + {b.info.hash}
    ensures forall r :: 0 <= r <= |sel| ==> (sel + [b])[..r] == sel[..r]
  {
    forall h ensures h in Hashes(sel + [b]) <==> h in Hashes(sel) + {b.info.hash} {
      if h in Hashes(sel) {
        var i :| 0 <= i < |sel| && sel[i].info.hash == h;
        assert (sel + [b])[i].info.hash == h;
      }
      if h == b.info.hash {
        assert (sel + [b])[|sel|].info.hash == h;
      }
    }
  }

  lemma StillRoundOk(c: Candidates, nStart: int, sel: seq<StakeIndex>, b: StakeIndex, r: nat)
    requires r < |sel| < 64 && RoundOk(c, nStart, sel, r)
    ensures RoundOk(c, nStart, sel + [b], r)
  {
    HashesOfPrefix(sel, b);
  }

  lemma NewRoundOk(c: Candidates, nStart: int, sel: seq<StakeIndex>, k: nat, b: StakeIndex)
    requires |sel| < 64 && c.Chosen(Hashes(sel), nStart + SectionSum(|sel| + 1), k)
    requires k < |c.v| && c.v[k].hash in c.index && c.index[c.v[k].hash] == b
    ensures RoundOk(c, nStart, sel + [b], |sel|)
  {
    hide SectionSum, Candidates.Chosen, Hashes;
    assert (sel + [b])[..|sel|] == sel;
  }

  lemma RoundsGrow(c: Candidates, nStart: int, sel: seq<StakeIndex>, b: StakeIndex)
    requires |sel| < 64 && (forall r :: 0 <= r < |sel| ==> RoundOk(c, nStart, sel, r)) &&
             RoundOk(c, nStart, sel + [b], |sel|)
    ensures forall r :: 0 <= r < |sel| + 1 ==> RoundOk(c, nStart, sel + [b], r)
  {
    hide RoundOk;
    forall r | 0 <= r < |sel| ensures RoundOk(c, nStart, sel + [b], r) {
      StillRoundOk(c, nStart, sel, b, r);
    }
  }

  lemma BitsGrow(sel: seq<StakeIndex>, n: nat, b: StakeIndex)
    requires n < Pow2(|sel|) && forall r :: 0 <= r < |sel| ==> Bit(n, r) == sel[r].info.fEntropyBit
    ensures var sel', n' := sel + [b], WithBit(n, |sel|, b.info.fEntropyBit);
            n' < Pow2(|sel'|) && forall r :: 0 <= r < |sel'| ==> Bit(n', r) == sel'[r].info.fEntropyBit
  {
    hide Bit, Pow2, WithBit;
    forall r | 0 <= r < |sel| + 1
      ensures Bit(WithBit(n, |sel|, b.info.fEntropyBit), r) == (sel + [b])[r].info.fEntropyBit
    {
      WithBitBits(n, |sel|, b.info.fEntropyBit, r);
    }
    WithBitBits(n, |sel|, b.info.fEntropyBit, |sel|);
  }

  lemma SelectionGrows(c: Candidates, nStart: int, sel: seq<StakeIndex>, n: nat, k: nat)
    requires c.Known() && Selection(c, nStart, sel, n) && |sel| < 64
    requires c.Chosen(Hashes(sel), nStart + SectionSum(|sel| + 1), k)
    ensures k < |c.v| && c.v[k].hash in c.index
    ensures var b := c.index[c.v[k].hash];
            && b.info.hash == c.v[k].hash && Selection(c, nStart, sel + [b], WithBit(n, |sel|, b.info.fEntropyBit))
            && Hashes(sel + [b]) == Hashes(sel) + {b.info.hash} && b.info.hash !in Hashes(sel)
  {
    assert c.Free(Hashes(sel), k);
    var b := c.index[c.v[k].hash];
    HashesOfPrefix(sel, b);
    NewRoundOk(c, nStart, sel, k, b);
    RoundsGrow(c, nStart, sel, b);
    BitsGrow(sel, n, b);
    hide RoundOk, Bit, Pow2, WithBit, SectionSum;
    forall r | 0 <= r < |sel| ensures sel[r].info.hash != b.info.hash {
      assert sel[r].info.hash in Hashes(sel);
    }
  }

  /** The candidates of a computation: the window's blocks, sorted. */
  ghost predicate AreCandidates(c: Candidates, w: seq<StakeIndex>) {
    && c.Known() && multiset(c.v) == multiset(ItemsOf(w))
    && forall i, j :: 0 <= i < j < |w| ==> w[i].info.hash != w[j].info.hash
  }

  lemma CandidatesKnown(index: map<nat, StakeIndex>, b: StakeIndex, nStart: int, v: seq<Item>, c: Candidates)
    requires Filed(index, b) && Sorted(v) && multiset(v) == multiset(ItemsOf(Window(b, nStart)))
    requires c.v == v && c.index == index
    ensures AreCandidates(c, Window(b, nStart)) && |v| == |Window(b, nStart)|
  {
    var w := Window(b, nStart);
    WindowFiled(index, b, nStart);
    assert |multiset(v)| == |multiset(ItemsOf(w))|;
    forall k | 0 <= k < |v|
      ensures v[k].hash in index && index[v[k].hash].info.hash == v[k].hash && index[v[k].hash].info.nTime == v[k].time
    {
      assert v[k] in multiset(ItemsOf(w));
      var i :| 0 <= i < |w| && ItemsOf(w)[i] == v[k];
    }
  }

  function Min(a: int, b: int): int {
    if a < b then a else b
  }

  /** After nRound rounds. */
  ghost predicate AfterRounds(c: Candidates, nStart: int, sel: seq<StakeIndex>, n: nat, selected: map<nat, StakeIndex>,
                              nRound: nat)
  {
    && |sel| == nRound <= 64 && Selection(c, nStart, sel, n) && selected.Keys == Hashes(sel) && |selected| == nRound
  }

  lemma AfterNoRounds(c: Candidates, nStart: int)
    ensures AfterRounds(c, nStart, [], 0, map[], 0)
  {
    assert Hashes([]) == {};
  }

  lemma AfterOneMore(c: Candidates, nStart: int, sel: seq<StakeIndex>, n: nat, selected: map<nat, StakeIndex>,
                     nRound: nat, k: nat)
    requires c.Known() && AfterRounds(c, nStart, sel, n, selected, nRound) && nRound < 64
    requires c.Chosen(selected.Keys, nStart + SectionSum(nRound + 1), k)
    ensures k < |c.v| && c.v[k].hash in c.index
    ensures var b := c.index[c.v[k].hash];
            AfterRounds(c, nStart, sel + [b], WithBit(n, nRound, b.info.fEntropyBit), selected[b.info.hash := b],
                        nRound + 1)
  {
    SelectionGrows(c, nStart, sel, n, k);
    var b := c.index[c.v[k].hash];
    OneMoreKey(selected, b.info.hash, b);
    hide SectionSum, Selection, Hashes, WithBit, Candidates.Chosen, Candidates.Known;
  }

  lemma RoundCanSelect(c: Candidates, w: seq<StakeIndex>, nStart: int, sel: seq<StakeIndex>, n: nat,
                       selected: map<nat, StakeIndex>, nRound: nat)
    requires AreCandidates(c, w) && AfterRounds(c, nStart, sel, n, selected, nRound) && nRound < |w|
    ensures c.Known() && c.Sound() && exists k :: c.Free(selected.Keys, k)
  {
    assert c.Known();
    hide Selection, Hashes, Candidates.Known;
    SomethingFree(c, w, selected.Keys);
  }

  /** Runs the rounds: none of them fails. */
  method SelectRounds(c: Candidates, ghost w: seq<StakeIndex>, nStart: int)
    returns (ok: bool, nStakeModifierNew: nat, ghost sel: seq<StakeIndex>)
    requires AreCandidates(c, w)
    ensures ok && Selection(c, nStart, sel, nStakeModifierNew) && |sel| == Min(64, |w|)
    ensures sel != [] && (exists x :: 0 <= x < |c.v| && c.v[x].time <= nStart + 200) ==>
              sel[0].info.nTime <= nStart + 200
  {
    hide *;
    var mapSelectedBlocks: map<nat, StakeIndex> := map[];
    var nSelectionIntervalStop := nStart;
    nStakeModifierNew, sel := 0, [];
    var nRounds := Min(64, |c.v|);
    NoRounds(c, w, nStart);
    for nRound := 0 to nRounds
      invariant nSelectionIntervalStop == nStart + SectionSum(nRound)
      invariant AfterRounds(c, nStart, sel, nStakeModifierNew, mapSelectedBlocks, nRound)
    {
      nSelectionIntervalStop := nSelectionIntervalStop + IntervalSection(nRound);
      NextStop(nRound);
      RoundCanSelect(c, w, nStart, sel, nStakeModifierNew, mapSelectedBlocks, nRound);
      var selected;
      ghost var k;
      ok, selected, k := SelectBlockFromCandidates(c, mapSelectedBlocks, nSelectionIntervalStop);
      if !ok {
        assert false;
      }
      var pindex := selected.value;
      AfterOneMore(c, nStart, sel, nStakeModifierNew, mapSelectedBlocks, nRound, k);
      nStakeModifierNew := WithBit(nStakeModifierNew, nRound, pindex.info.fEntropyBit);
      mapSelectedBlocks := mapSelectedBlocks[pindex.info.hash := pindex];
      sel := sel + [pindex];
    }
    ok := true;
    AllRounds(c, w, nStart, sel, nStakeModifierNew, mapSelectedBlocks, nRounds);
  }

  lemma NoRounds(c: Candidates, w: seq<StakeIndex>, nStart: int)
    requires AreCandidates(c, w)
    ensures Min(64, |c.v|) == Min(64, |w|) && Min(64, |w|) <= 64 && Min(64, |w|) <= |w| && Min(64, |w|) >= 0
    ensures SectionSum(0) == 0 && AfterRounds(c, nStart, [], 0, map[], 0)
  {
    SameLength(c, w);
    AfterNoRounds(c, nStart);
  }

  lemma NextStop(nRound: nat)
    requires nRound < 64
    ensures SectionSum(nRound + 1) == SectionSum(nRound) + IntervalSection(nRound)
  {
  }

  lemma AllRounds(c: Candidates, w: seq<StakeIndex>, nStart: int, sel: seq<StakeIndex>, n: nat,
                  selected: map<nat, StakeIndex>, nRound: nat)
    requires AreCandidates(c, w) && AfterRounds(c, nStart, sel, n, selected, nRound)
    ensures Selection(c, nStart, sel, n) && |sel| == nRound
    ensures sel != [] && (exists x :: 0 <= x < |c.v| && c.v[x].time <= nStart + 200) ==>
              sel[0].info.nTime <= nStart + 200
  {
    FirstInTime(c, w, nStart, sel, n, selected, nRound);
  }

  lemma FirstInTime(c: Candidates, w: seq<StakeIndex>, nStart: int, sel: seq<StakeIndex>, n: nat,
                    selected: map<nat, StakeIndex>, nRound: nat)
    requires AreCandidates(c, w) && AfterRounds(c, nStart, sel, n, selected, nRound)
    ensures sel != [] && (exists x :: 0 <= x < |c.v| && c.v[x].time <= nStart + 200) ==>
              sel[0].info.nTime <= nStart + 200
  {
    hide Selection, Hashes, Candidates.Known;
    if x: nat :| x < |c.v| && c.v[x].time <= nStart + 200 && sel != [] {
      FirstRoundMeans(c, nStart, sel, n, x);
    }
  }

  lemma SameLength(c: Candidates, w: seq<StakeIndex>)
    requires AreCandidates(c, w)
    ensures |c.v| == |w|
  {
    assert |multiset(c.v)| == |multiset(ItemsOf(w))|;
  }

  lemma OneMoreKey(m: map<nat, StakeIndex>, h: nat, b: StakeIndex)
    requires h !in m
    ensures |m[h := b]| == |m| + 1 && m[h := b].Keys == m.Keys + {h}
  {
    assert m[h := b].Keys == m.Keys + {h};
  }

  /** The modifier for the block that follows pindexPrev: a new one once per interval. */
  method ComputeNextStakeModifier(pindexPrev: Option<StakeIndex>, index: map<nat, StakeIndex>, H: (nat, nat) -> nat)
    returns (ok: bool, nStakeModifier: nat, fGeneratedStakeModifier: bool, ghost c: Candidates,
             ghost sel: seq<StakeIndex>)
    requires pindexPrev.Some? ==> Filed(index, pindexPrev.value)
    ensures pindexPrev.None? ==> ok && fGeneratedStakeModifier && nStakeModifier == 0
    ensures pindexPrev.Some? ==> (ok <==> LastGenerated(pindexPrev.value).Some?)
    ensures pindexPrev.Some? && ok ==>
              var last, prev := LastGenerated(pindexPrev.value).value, pindexPrev.value;
              && (fGeneratedStakeModifier <==>
                  last.info.nTime / MODIFIER_INTERVAL < prev.info.nTime / MODIFIER_INTERVAL)
              && (!fGeneratedStakeModifier ==> nStakeModifier == last.info.nStakeModifier)
              && (fGeneratedStakeModifier ==>
                    var nStart := prev.info.nTime / MODIFIER_INTERVAL * MODIFIER_INTERVAL - SectionSum(64);
                    && AreCandidates(c, Window(prev, nStart)) && c.index == index && c.H == H
                    && c.nStakeModifierPrev == last.info.nStakeModifier
                    && Selection(c, nStart, sel, nStakeModifier) && |sel| == Min(64, |Window(prev, nStart)|))
  {
    hide SectionSum, IntervalSection, Selection, AreCandidates;
    c, sel := Candidates([], index, H, 0), [];
    nStakeModifier, fGeneratedStakeModifier := 0, false;
    if pindexPrev.None? {
      return true, 0, true, c, sel;
    }
    var prev := pindexPrev.value;
    var nModifierTime;
    ok, nStakeModifier, nModifierTime := GetLastStakeModifier(prev);
    if !ok {
      return;
    }
    if nModifierTime / MODIFIER_INTERVAL >= prev.info.nTime / MODIFIER_INTERVAL {
      return;
    }
    var nSelectionInterval := GetStakeModifierSelectionInterval();
    var nSelectionIntervalStart := prev.info.nTime / MODIFIER_INTERVAL * MODIFIER_INTERVAL - nSelectionInterval;
    var found := CollectCandidates(prev, nSelectionIntervalStart);
    var vSortedByTimestamp := Sort(found);
    var candidates := Candidates(vSortedByTimestamp, index, H, nStakeModifier);
    CandidatesKnown(index, prev, nSelectionIntervalStart, vSortedByTimestamp, candidates);
    c := candidates;
    ok, nStakeModifier, sel := SelectRounds(candidates, Window(prev, nSelectionIntervalStart), nSelectionIntervalStart);
    fGeneratedStakeModifier := true;
  }

  /** Every section is at least a third of the modifier interval and at most all of it, so the
      stop times of the rounds grow by that much from one to the next. */
  lemma {:induction false} SectionsCoverInterval(n: nat)
    requires n <= 64
    ensures n * (MODIFIER_INTERVAL / MODIFIER_INTERVAL_RATIO) <= SectionSum(n) <= n * MODIFIER_INTERVAL
  {
    if n > 0 {
      SectionsCoverInterval(n - 1);
    }
  }

  // ----- what the steps mean -----

  /** Section n is the whole quotient of 600 * 63 by 63 + 2 * (63 - n): 200 seconds for the first and 600 for the
      last one. */
  lemma SectionExactly(n: nat)
    requires n < 64
    ensures var s, d := IntervalSection(n), 63 + 2 * (63 - n); s * d <= 600 * 63 < (s + 1) * d
    ensures n == 0 ==> IntervalSection(n) == 200
    ensures n == 63 ==> IntervalSection(n) == 600
    ensures SectionSum(n + 1) == SectionSum(n) + IntervalSection(n) && SectionSum(0) == 0
  {
  }

  lemma {:induction false} ProductsGrow(x: nat, y: nat, d: nat, e: nat)
    requires x <= y && d <= e
    ensures x * d <= y * e
    decreases y
  {
    if x > 0 {
      ProductsGrow(x - 1, y - 1, d, e);
    }
  }

  /** Sections never shrink. */
  lemma SectionsGrow(n: nat)
    requires n < 63
    ensures IntervalSection(n) <= IntervalSection(n + 1)
  {
    var s, d := IntervalSection(n), 63 + 2 * (63 - n);
    SectionExactly(n);
    SectionExactly(n + 1);
    hide IntervalSection;
    var s' := IntervalSection(n + 1);
    if s' < s {
      ProductsGrow(s' + 1, s, d - 2, d);
    }
  }

  /** The block k steps back, if there are as many. */
  function Back(b: StakeIndex, k: nat): Option<StakeIndex>
    decreases k
  {
    if k == 0 then Some(b) else if b.First? then None else Back(b.pprev, k - 1)
  }

  lemma {:induction false} BackOne(b: StakeIndex, k: nat)
    requires b.Next?
    ensures Back(b, k + 1) == Back(b.pprev, k)
  {
  }

  /** The last generated modifier is that of the nearest block, going back, that generated one; there is none when no
      block back to the first one did. */
  lemma {:induction false} LastGeneratedIs(b: StakeIndex) returns (k: nat)
    ensures LastGenerated(b).Some? ==> Back(b, k) == LastGenerated(b) && LastGenerated(b).value.info.fGenerated
    ensures LastGenerated(b).None? ==> Back(b, k) == None
    ensures forall j: nat :: j < k ==> Back(b, j).Some? && !Back(b, j).value.info.fGenerated
    decreases b
  {
    if b.info.fGenerated {
      k := 0;
    } else if b.First? {
      k := 1;
    } else {
      k := LastGeneratedIs(b.pprev);
      forall j: nat | j < k + 1 ensures Back(b, j).Some? && !Back(b, j).value.info.fGenerated {
        if j > 0 {
          BackOne(b, j - 1);
        }
      }
      k := k + 1;
    }
  }

  /** The window holds, oldest first, the blocks back to just before the first one from before the start. */
  lemma {:induction false} WindowIs(b: StakeIndex, nStart: int)
    ensures var w := Window(b, nStart);
            && (forall j: nat :: j < |w| ==> Back(b, j) == Some(w[|w| - 1 - j]) && w[|w| - 1 - j].info.nTime >= nStart)
            && (Back(b, |w|).Some? ==> Back(b, |w|).value.info.nTime < nStart)
  {
    var w := Window(b, nStart);
    if b.info.nTime >= nStart && b.Next? {
      WindowIs(b.pprev, nStart);
      forall j: nat | j < |w| ensures Back(b, j) == Some(w[|w| - 1 - j]) && w[|w| - 1 - j].info.nTime >= nStart {
        if j > 0 {
          BackOne(b, j - 1);
        }
      }
      BackOne(b, |w| - 1);
    }
  }

  /** The selection hash of a block: its hash with the previous modifier, divided by two to the 32 for proof of
      stake. */
  lemma HashIs(H: (nat, nat) -> nat, info: Info, m: nat)
    ensures info.fProofOfStake ==>
              var h := SelectionHash(H, info, m); h * 4294967296 <= H(info.hashProof, m) < (h + 1) * 4294967296
    ensures !info.fProofOfStake ==> SelectionHash(H, info, m) == H(info.hashProof, m)
  {
  }

  /** Round r takes, of the candidates not taken before: if one of them is not after the stop time of the round, one
      of these with the least selection hash, an earliest one on a tie; and otherwise an earliest one. */
  lemma RoundMeans(c: Candidates, nStart: int, sel: seq<StakeIndex>, n: nat, r: nat, x: nat)
    requires c.Known() && Selection(c, nStart, sel, n) && r < |sel| && x < |c.v|
    requires forall i :: 0 <= i < r ==> c.v[x].hash != sel[i].info.hash
    ensures var stop, b := nStart + SectionSum(r + 1), c.index[c.v[x].hash];
            && b.info.nTime == c.v[x].time
            && (b.info.nTime <= stop ==>
                  sel[r].info.nTime <= stop && SelectionHash(c.H, sel[r].info, c.nStakeModifierPrev) <=
                  SelectionHash(c.H, b.info, c.nStakeModifierPrev))
            && (b.info.nTime <= stop && SelectionHash(c.H, sel[r].info, c.nStakeModifierPrev) ==
                                        SelectionHash(c.H, b.info, c.nStakeModifierPrev) ==>
                  sel[r].info.nTime <= b.info.nTime)
            && (sel[r].info.nTime > stop ==> sel[r].info.nTime <= b.info.nTime)
    ensures Item(sel[r].info.nTime, sel[r].info.hash) in c.v
  {
    hide *;
    var taken := Hashes(sel[..r]);
    var k := RoundChoice(c, nStart, sel, n, r);
    NotTaken(c, sel[..r], x);
    c.ChosenMeans(taken, nStart + SectionSum(r + 1), k, x);
    RanksAre(c, k);
    RanksAre(c, x);
    assert c.v[k] == Item(sel[r].info.nTime, sel[r].info.hash);
  }

  lemma RoundChoice(c: Candidates, nStart: int, sel: seq<StakeIndex>, n: nat, r: nat) returns (k: nat)
    requires Selection(c, nStart, sel, n) && r < |sel|
    ensures |sel| <= 64 && c.Chosen(Hashes(sel[..r]), nStart + SectionSum(r + 1), k)
    ensures k < |c.v| && c.v[k].hash in c.index && c.index[c.v[k].hash] == sel[r]
  {
    hide SectionSum, Hashes;
    assert RoundOk(c, nStart, sel, r);
    k :| c.Chosen(Hashes(sel[..r]), nStart + SectionSum(r + 1), k) && c.v[k].hash in c.index &&
         c.index[c.v[k].hash] == sel[r];
  }

  lemma NotTaken(c: Candidates, sel: seq<StakeIndex>, x: nat)
    requires x < |c.v| && forall i :: 0 <= i < |sel| ==> c.v[x].hash != sel[i].info.hash
    ensures c.v[x].hash !in Hashes(sel)
  {
  }

  lemma RanksAre(c: Candidates, k: nat)
    requires c.Known() && k < |c.v|
    ensures c.v[k].hash in c.index && c.Rank(k) == SelectionHash(c.H, c.index[c.v[k].hash].info, c.nStakeModifierPrev)
  {
  }

  /** In particular, the first round never takes a block from more than 200 seconds after the start while there is an
      earlier one. */
  lemma FirstRoundMeans(c: Candidates, nStart: int, sel: seq<StakeIndex>, n: nat, x: nat)
    requires c.Known() && Selection(c, nStart, sel, n) && sel != [] && x < |c.v| && c.v[x].time <= nStart + 200
    ensures sel[0].info.nTime <= nStart + 200
    ensures SelectionHash(c.H, sel[0].info, c.nStakeModifierPrev) <=
            SelectionHash(c.H, c.index[c.v[x].hash].info, c.nStakeModifierPrev)
  {
    SectionExactly(0);
    hide SectionSum, SelectionHash, Selection, Candidates.Known;
    RoundMeans(c, nStart, sel, n, 0, x);
  }
}
