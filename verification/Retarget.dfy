/** The target of the next block: moved towards the intended spacing, and kept in range. */
module Retarget {
  import opened Arithmetic
  import opened Basics
  import opened CompactTargets

  const TARGET_TIMESPAN := 24 * 60 * 60

  datatype Info = Info(nTime: int, nBits: nat, fProofOfStake: bool)

  datatype TargetIndex = First(info: Info) | Next(pprev: TargetIndex, info: Info)

  /** The last block of a kind, or the first block. */
  function LastOfKind(b: TargetIndex, fProofOfStake: bool): TargetIndex {
    if b.First? || b.info.fProofOfStake == fProofOfStake then b else LastOfKind(b.pprev, fProofOfStake)
  }

  /** The block k steps back, if there are as many. */
  function Back(b: TargetIndex, k: nat): Option<TargetIndex>
    decreases k
  {
    if k == 0 then Some(b) else if b.First? then None else Back(b.pprev, k - 1)
  }

  /** It is some number of steps back; it is of the kind, or the first block; and the blocks passed on the way
      are of the other kind. */
  lemma {:induction false} LastOfKindIs(b: TargetIndex, fProofOfStake: bool) returns (k: nat)
    ensures Back(b, k) == Some(LastOfKind(b, fProofOfStake))
    ensures LastOfKind(b, fProofOfStake).First? || LastOfKind(b, fProofOfStake).info.fProofOfStake == fProofOfStake
    ensures forall j: nat :: j < k ==> Back(b, j).Some? && Back(b, j).value.info.fProofOfStake == !fProofOfStake
    decreases b
  {
    if b.First? || b.info.fProofOfStake == fProofOfStake {
      k := 0;
    } else {
      k := LastOfKindIs(b.pprev, fProofOfStake);
      forall j: nat | j < k + 1
        ensures Back(b, j).Some? && Back(b, j).value.info.fProofOfStake == !fProofOfStake
      {
        if j > 0 {
          assert Back(b, j) == Back(b.pprev, j - 1);
        }
      }
      k := k + 1;
    }
  }

  method GetLastBlockIndex(b: TargetIndex, fProofOfStake: bool) returns (pindex: TargetIndex, ghost k: nat)
    ensures pindex == LastOfKind(b, fProofOfStake)
    ensures Back(b, k) == Some(pindex) && (pindex.First? || pindex.info.fProofOfStake == fProofOfStake)
    ensures forall j: nat :: j < k ==> Back(b, j).Some? && Back(b, j).value.info.fProofOfStake == !fProofOfStake
  {
    k := LastOfKindIs(b, fProofOfStake);
    pindex := b;
    while pindex.Next? && pindex.info.fProofOfStake != fProofOfStake
      invariant LastOfKind(pindex, fProofOfStake) == LastOfKind(b, fProofOfStake)
      decreases pindex
    {
      pindex := pindex.pprev;
    }
  }

  /** The spacing that counts: a negative one counts as on target, and from version 3 on no
      more than ten times the target counts. */
  function Counted(nActual: int, nTarget: nat, fV3: bool): nat {
    if nActual < 0 then nTarget else if fV3 && nActual > nTarget * 10 then nTarget * 10 else nActual
  }

  /** The moved target, before it is kept in range. */
  function Moved(bnOld: int, nTarget: nat, nInterval: nat, nCounted: nat): int
    requires nTarget > 0 && nInterval > 0
  {
    MulPositive(nInterval + 1, nTarget);
    bnOld * ((nInterval - 1) * nTarget + nCounted + nCounted) / ((nInterval + 1) * nTarget)
  }

  lemma {:induction false} MulPositive(a: nat, b: nat)
    requires a > 0 && b > 0
    ensures a * b > 0
  {
    MulLe(a, 1, b);
  }

  function InRange(bn: int, limit: nat): nat {
    if bn <= 0 || bn > limit then limit else bn
  }

  /** The bits required after a block with bits nBits and an actual spacing. */
  function NextBits(nBits: nat, nActual: int, nTarget: nat, fV3: bool, limit: nat): nat
    requires 0 < nTarget <= TARGET_TIMESPAN
  {
    Encode(InRange(Moved(Decode(nBits), nTarget, TARGET_TIMESPAN / nTarget, Counted(nActual, nTarget, fV3)), limit))
  }

  /** The bits required of the block that follows pindexLast.  limit, nTargetSpacing and fV3 are
      those of pindexLast's height and time. */
  method GetNextTargetRequired(pindexLast: Option<TargetIndex>, fProofOfStake: bool, limit: nat, nTargetSpacing: nat,
                               fV3: bool)
    returns (nBits: nat)
    requires 0 < nTargetSpacing <= TARGET_TIMESPAN && Size(limit) < 256
    requires pindexLast.Some? ==> LastOfKind(pindexLast.value, fProofOfStake).info.nBits < 0x1_0000_0000
    ensures 0 <= Decode(nBits) <= limit
    ensures pindexLast.Some? ==>
              var prev := LastOfKind(pindexLast.value, fProofOfStake);
              if prev.First? || LastOfKind(prev.pprev, fProofOfStake).First? then nBits == Encode(limit)
              else nBits == NextBits(prev.info.nBits, prev.info.nTime - LastOfKind(prev.pprev,
                  fProofOfStake).info.nTime, nTargetSpacing, fV3, limit)
    ensures pindexLast.None? ==> nBits == Encode(limit)
  {
    hide Encode, Decode, Size, Moved;
    EncodingLosesLittle(limit);
    if pindexLast.None? {
      nBits := GetCompact(limit);
      return;
    }
    ghost var k;
    var pindexPrev, pindexPrevPrev;
    pindexPrev, k := GetLastBlockIndex(pindexLast.value, fProofOfStake);
    if pindexPrev.First? {
      nBits := GetCompact(limit);
      return;
    }
    pindexPrevPrev, k := GetLastBlockIndex(pindexPrev.pprev, fProofOfStake);
    if pindexPrevPrev.First? {
      nBits := GetCompact(limit);
      return;
    }
    var nActualSpacing := pindexPrev.info.nTime - pindexPrevPrev.info.nTime;
    if nActualSpacing < 0 {
      nActualSpacing := nTargetSpacing;
    }
    if fV3 && nActualSpacing > nTargetSpacing * 10 {
      nActualSpacing := nTargetSpacing * 10;
    }
    var bnNew := SetCompact(pindexPrev.info.nBits);
    var nInterval := TARGET_TIMESPAN / nTargetSpacing;
    SameMove(bnNew, nTargetSpacing, nInterval, nActualSpacing);
    bnNew := bnNew * ((nInterval - 1) * nTargetSpacing + nActualSpacing + nActualSpacing);
    bnNew := bnNew / ((nInterval + 1) * nTargetSpacing);
    if bnNew <= 0 || bnNew > limit {
      bnNew := limit;
    }
    SizeMonotone(bnNew, limit);
    EncodingLosesLittle(bnNew);
    nBits := GetCompact(bnNew);
  }

  lemma {:induction false} SameMove(bn: int, nTarget: nat, nInterval: int, nActual: int)
    requires nTarget > 0 && nInterval == TARGET_TIMESPAN / nTarget && 0 < nTarget <= TARGET_TIMESPAN && nActual >= 0
    ensures nInterval >= 1 && (nInterval + 1) * nTarget > 0
    ensures bn * ((nInterval - 1) * nTarget + nActual + nActual) / ((nInterval + 1) * nTarget) ==
            Moved(bn, nTarget, nInterval, nActual)
  {
    IntervalPositive(nTarget);
    MulPositive(nInterval + 1, nTarget);
  }

  lemma {:induction false} IntervalPositive(nTarget: nat)
    requires 0 < nTarget <= TARGET_TIMESPAN
    ensures TARGET_TIMESPAN / nTarget >= 1
  {
    var q := TARGET_TIMESPAN / nTarget;
    assert TARGET_TIMESPAN == nTarget * q + TARGET_TIMESPAN % nTarget;
    MulSign(nTarget, q - 1);
  }

  // ----- on target, nothing moves -----

  /** With the spacing exactly on target the number does not move. */
  lemma {:induction false} OnTargetStays(bn: int, nTarget: nat, nInterval: nat)
    requires nTarget > 0 && nInterval > 0
    ensures Moved(bn, nTarget, nInterval, nTarget) == bn
  {
    var d := (nInterval + 1) * nTarget;
    MulPositive(nInterval + 1, nTarget);
    assert (nInterval - 1) * nTarget + nTarget + nTarget == d;
    DivModUnique(bn * d, d, bn, 0);
  }

  /** Bits that are an encoding, of a target within the limit, are required again when the
      spacing is exactly on target. */
  lemma {:induction false} OnTargetKeepsBits(bn: nat, nTarget: nat, fV3: bool, limit: nat)
    requires 0 < nTarget <= TARGET_TIMESPAN && 0 < bn <= limit
    ensures NextBits(Encode(bn), nTarget, nTarget, fV3, limit) == Encode(bn)
  {
    IntervalPositive(nTarget);
    hide Encode, Decode, Moved;
    EncodingLosesLittle(bn);
    DecodeEncode(bn);
    EncodeIdempotent(bn);
    OnTargetStays(Decode(Encode(bn)), nTarget, TARGET_TIMESPAN / nTarget);
  }

  // ----- longer spacing, easier target -----

  lemma {:induction false} MovedMonotone(bn: nat, nTarget: nat, nInterval: nat, a: nat, b: nat)
    requires nTarget > 0 && nInterval > 0 && a <= b
    ensures Moved(bn, nTarget, nInterval, a) <= Moved(bn, nTarget, nInterval, b)
  {
    var d := (nInterval + 1) * nTarget;
    MulPositive(nInterval + 1, nTarget);
    var x, y := (nInterval - 1) * nTarget + a + a, (nInterval - 1) * nTarget + b + b;
    MulNonNegative(nInterval - 1, nTarget);
    MulLe(bn, x, y);
    MulNonNegative(bn, x);
    DivMonotone(bn * x, bn * y, d);
  }

  lemma {:induction false} MulNonNegative(a: nat, b: nat)
    ensures a * b >= 0
  {
  }

  /** A target of at least 2 stays positive, however short the spacing. */
  lemma {:induction false} MovedPositive(bn: nat, nTarget: nat, nInterval: nat, a: nat)
    requires nTarget > 0 && nInterval >= 3 && bn >= 2
    ensures Moved(bn, nTarget, nInterval, a) >= 1
  {
    MovedMonotone(bn, nTarget, nInterval, 0, a);
    var d := (nInterval + 1) * nTarget;
    var x := (nInterval - 1) * nTarget;
    MulPositive(nInterval + 1, nTarget);
    assert 2 * x == d + (nInterval - 3) * nTarget;
    MulNonNegative(nInterval - 3, nTarget);
    MulPositive(nInterval - 1, nTarget);
    MulLe(x, 2, bn);
    DivMonotone(d, bn * x, d);
    DivModUnique(d, d, 1, 0);
  }

  /** A target of 1 vanishes when the spacing is zero. */
  lemma {:induction false} OneVanishes(nTarget: nat, nInterval: nat)
    requires nTarget > 0 && nInterval > 0
    ensures Moved(1, nTarget, nInterval, 0) == 0
  {
    var d, x := (nInterval + 1) * nTarget, (nInterval - 1) * nTarget;
    MulPositive(nInterval + 1, nTarget);
    MulNonNegative(nInterval - 1, nTarget);
    assert d == x + 2 * nTarget;
    DivModUnique(x, d, 0, x);
  }

  /** A target of 1 vanishes exactly for a spacing that is short of the intended one, and a larger
      target never. */
  lemma {:induction false} VanishesExactly(bn: nat, nTarget: nat, nInterval: nat, a: nat)
    requires nTarget > 0 && nInterval >= 3 && bn > 0
    ensures Moved(bn, nTarget, nInterval, a) >= 0
    ensures Moved(bn, nTarget, nInterval, a) == 0 <==> bn == 1 && a < nTarget
  {
    if bn >= 2 {
      MovedPositive(bn, nTarget, nInterval, a);
    } else if a >= nTarget {
      OnTargetStays(1, nTarget, nInterval);
      MovedMonotone(1, nTarget, nInterval, nTarget, a);
    } else {
      var d, x := (nInterval + 1) * nTarget, (nInterval - 1) * nTarget;
      MulPositive(nInterval + 1, nTarget);
      MulNonNegative(nInterval - 1, nTarget);
      assert d == x + 2 * nTarget;
      DivModUnique(x + a + a, d, 0, x + a + a);
    }
  }

  /** Whatever is moved, a target that is not positive stays so. */
  lemma {:induction false} MovedNotPositive(bn: int, nTarget: nat, nInterval: nat, a: nat)
    requires nTarget > 0 && nInterval > 0 && bn <= 0
    ensures Moved(bn, nTarget, nInterval, a) <= 0
  {
    var d, x := (nInterval + 1) * nTarget, (nInterval - 1) * nTarget + a + a;
    MulPositive(nInterval + 1, nTarget);
    MulNonNegative(nInterval - 1, nTarget);
    MulLe(x, bn, 0);
    QuotientNotPositive(bn * x, d);
  }

  lemma {:induction false} QuotientNotPositive(y: int, d: nat)
    requires y <= 0 && d > 0
    ensures y / d <= 0
  {
    var q := y / d;
    assert y == d * q + y % d;
    if q >= 1 {
      MulLe(d, 1, q);
    }
  }

  /** A longer spacing counts for less only when it ends a negative one and is short of the target. */
  predicate Dips(a: int, b: int, nTarget: nat) {
    a < 0 <= b < nTarget
  }

  lemma {:induction false} CountedOrder(a: int, b: int, nTarget: nat, fV3: bool)
    requires a <= b
    ensures Counted(a, nTarget, fV3) > Counted(b, nTarget, fV3) <==> Dips(a, b, nTarget)
  {
  }

  /** The target moved for an actual spacing, before it is kept in range. */
  function MovedFor(nBits: nat, nActual: int, nTarget: nat, fV3: bool): int
    requires 0 < nTarget <= TARGET_TIMESPAN
  {
    IntervalPositive(nTarget);
    Moved(Decode(nBits), nTarget, TARGET_TIMESPAN / nTarget, Counted(nActual, nTarget, fV3))
  }

  /** The two inputs for which a longer spacing b requires a harder target than a: either a is
      negative, so that it counts as on target, and b is short of the target; or a is so short
      that the target vanishes, which yields the limit.  In both cases the harder target has to be
      low enough for its encoding to show it. */
  ghost predicate HarderPair(nBits: nat, a: int, b: int, nTarget: nat, fV3: bool, limit: nat)
    requires 0 < nTarget <= TARGET_TIMESPAN
  {
    && Decode(nBits) > 0 && MovedFor(nBits, b, nTarget, fV3) > 0
    && ((Dips(a, b, nTarget) && MovedFor(nBits, b, nTarget, fV3) < Cut(InRange(Decode(nBits), limit))) ||
        (MovedFor(nBits, a, nTarget, fV3) == 0 && MovedFor(nBits, b, nTarget, fV3) < Cut(limit)))
  }

  lemma {:induction false} CutBelow(x: nat)
    ensures Cut(x) <= x
  {
    if x > 0 {
      CutLoss(x);
    } else {
      assert Cut(0) == 0;
    }
  }

  /** How two moved targets compare, in terms of what was counted. */
  lemma {:induction false} MovedOrder(nBits: nat, a: int, b: int, nTarget: nat, fV3: bool)
    requires 0 < nTarget <= TARGET_TIMESPAN && a <= b && Decode(nBits) > 0
    ensures 0 <= MovedFor(nBits, a, nTarget, fV3) && 0 <= MovedFor(nBits, b, nTarget, fV3)
    ensures Dips(a, b, nTarget) ==>
            MovedFor(nBits, b, nTarget, fV3) <= MovedFor(nBits, a, nTarget, fV3) == Decode(nBits)
    ensures !Dips(a, b, nTarget) ==> MovedFor(nBits, a, nTarget, fV3) <= MovedFor(nBits, b, nTarget, fV3)
  {
    IntervalPositive(nTarget);
    hide Decode;
    var t, i := Decode(nBits), TARGET_TIMESPAN / nTarget;
    var x, y := Counted(a, nTarget, fV3), Counted(b, nTarget, fV3);
    CountedOrder(a, b, nTarget, fV3);
    MovedNonNegative(t, nTarget, i, x);
    MovedNonNegative(t, nTarget, i, y);
    if Dips(a, b, nTarget) {
      OnTargetStays(t, nTarget, i);
      MovedMonotone(t, nTarget, i, y, x);
    } else {
      MovedMonotone(t, nTarget, i, x, y);
    }
  }

  lemma {:induction false} MovedNonNegative(bn: nat, nTarget: nat, nInterval: nat, a: nat)
    requires nTarget > 0 && nInterval > 0
    ensures Moved(bn, nTarget, nInterval, a) >= 0
  {
    var d, x := (nInterval + 1) * nTarget, (nInterval - 1) * nTarget + a + a;
    MulPositive(nInterval + 1, nTarget);
    MulNonNegative(nInterval - 1, nTarget);
    MulNonNegative(bn, x);
  }

  /** For any bits, any two spacings, any intended spacing and any limit: the longer spacing
      requires the harder target exactly for the pairs described. */
  lemma {:induction false} HarderExactly(nBits: nat, a: int, b: int, nTarget: nat, fV3: bool, limit: nat)
    requires 0 < nTarget <= TARGET_TIMESPAN && a <= b
    ensures NextBits(nBits, a, nTarget, fV3, limit) > NextBits(nBits, b, nTarget, fV3, limit) <==>
            HarderPair(nBits, a, b, nTarget, fV3, limit)
  {
    IntervalPositive(nTarget);
    hide Encode, Decode, Moved, Cut;
    var t, i := Decode(nBits), TARGET_TIMESPAN / nTarget;
    var ma, mb := MovedFor(nBits, a, nTarget, fV3), MovedFor(nBits, b, nTarget, fV3);
    if t <= 0 {
      MovedNotPositive(t, nTarget, i, Counted(a, nTarget, fV3));
      MovedNotPositive(t, nTarget, i, Counted(b, nTarget, fV3));
    } else {
      MovedOrder(nBits, a, b, nTarget, fV3);
      EncodeBelow(InRange(mb, limit), InRange(ma, limit));
      CutBelow(InRange(ma, limit));
      hide Counted;
      ComparedInRange(ma, mb, limit);
    }
  }

  /** Keeping two targets in range turns their order round only when the smaller one is zero. */
  lemma {:induction false} ComparedInRange(ma: int, mb: int, limit: nat)
    requires 0 <= ma && 0 <= mb && Cut(InRange(ma, limit)) <= InRange(ma, limit) <= limit
    ensures InRange(mb, limit) < Cut(InRange(ma, limit)) <==>
            mb > 0 && mb < Cut(InRange(ma, limit)) && (ma == 0 || mb < ma)
  {
    hide Cut;
  }

  /** A longer spacing never requires a harder target. */
  ghost predicate LongerIsEasier(nBits: nat, nTarget: nat, fV3: bool, limit: nat)
    requires 0 < nTarget <= TARGET_TIMESPAN
  {
    forall a: int, b: int :: a <= b ==>
      NextBits(nBits, a, nTarget, fV3, limit) <= NextBits(nBits, b, nTarget, fV3, limit)
  }

  lemma {:induction false} ThreeIntervals(nTarget: nat)
    requires 0 < nTarget && nTarget * 3 <= TARGET_TIMESPAN
    ensures TARGET_TIMESPAN / nTarget >= 3
  {
    DivMonotone(nTarget * 3, TARGET_TIMESPAN, nTarget);
    DivModUnique(nTarget * 3, nTarget, 3, 0);
  }

  /** For an intended spacing of up to eight hours the pairs are explicit: those that end a
      negative spacing, and, for a previous target of 1, those that start short of the target. */
  lemma {:induction false} HarderPairs(nBits: nat, a: int, b: int, nTarget: nat, fV3: bool, limit: nat)
    requires 0 < nTarget && nTarget * 3 <= TARGET_TIMESPAN && a <= b
    ensures HarderPair(nBits, a, b, nTarget, fV3, limit) <==>
              if Decode(nBits) >= 2 then
                Dips(a, b, nTarget) && MovedFor(nBits, b, nTarget, fV3) < Cut(InRange(Decode(nBits), limit))
              else
                Decode(nBits) == 1 && 0 <= a < nTarget <= b && MovedFor(nBits, b, nTarget, fV3) < Cut(limit)
  {
    ThreeIntervals(nTarget);
    hide Decode, Moved, Cut;
    var t, i := Decode(nBits), TARGET_TIMESPAN / nTarget;
    if t > 0 {
      VanishesExactly(t, nTarget, i, Counted(a, nTarget, fV3));
      VanishesExactly(t, nTarget, i, Counted(b, nTarget, fV3));
    }
  }

  /** A longer spacing never requires a harder target exactly in these cases: the previous target
      is not positive, so that the limit is required in any case; it is 1, and the limit is not
      more; or it is above the limit by so much that even zero spacing leaves it there, as far as
      the encoding shows.  (The intended spacing is at most eight hours.) */
  lemma {:induction false} LongerIsEasierExactly(nBits: nat, nTarget: nat, fV3: bool, limit: nat)
    requires 0 < nTarget && nTarget * 3 <= TARGET_TIMESPAN
    ensures LongerIsEasier(nBits, nTarget, fV3, limit) <==>
            var t := Decode(nBits);
            t <= 0 || (t == 1 && limit <= 1) || (t >= 2 && limit < t && Cut(limit) <= MovedFor(nBits, 0, nTarget, fV3))
  {
    var t := Decode(nBits);
    hide Encode, Decode, Moved, Cut;
    if t >= 2 {
      DipDecides(nBits, nTarget, fV3, limit);
      ZeroBelowTarget(nBits, nTarget, fV3);
      if t <= limit {
        CutOfDecode(nBits);
      }
    } else if t == 1 {
      VanishingDecides(nBits, nTarget, fV3, limit);
    } else {
      forall a: int, b: int | a <= b
        ensures NextBits(nBits, a, nTarget, fV3, limit) <= NextBits(nBits, b, nTarget, fV3, limit)
      {
        HarderExactly(nBits, a, b, nTarget, fV3, limit);
      }
    }
  }

  /** With a target of at least 2, the pair of -1 and 0 is as bad as any. */
  lemma {:induction false} DipDecides(nBits: nat, nTarget: nat, fV3: bool, limit: nat)
    requires 0 < nTarget && nTarget * 3 <= TARGET_TIMESPAN && Decode(nBits) >= 2
    ensures LongerIsEasier(nBits, nTarget, fV3, limit) <==>
            Cut(InRange(Decode(nBits), limit)) <= MovedFor(nBits, 0, nTarget, fV3)
  {
    hide Encode, Decode, Moved, Cut;
    HarderExactly(nBits, -1, 0, nTarget, fV3, limit);
    HarderPairs(nBits, -1, 0, nTarget, fV3, limit);
    if Cut(InRange(Decode(nBits), limit)) <= MovedFor(nBits, 0, nTarget, fV3) {
      forall a: int, b: int | a <= b
        ensures NextBits(nBits, a, nTarget, fV3, limit) <= NextBits(nBits, b, nTarget, fV3, limit)
      {
        HarderExactly(nBits, a, b, nTarget, fV3, limit);
        HarderPairs(nBits, a, b, nTarget, fV3, limit);
        if Dips(a, b, nTarget) {
          MovedOrder(nBits, 0, b, nTarget, fV3);
        }
      }
    }
  }

  /** Zero spacing lowers a target of at least 2. */
  lemma {:induction false} ZeroBelowTarget(nBits: nat, nTarget: nat, fV3: bool)
    requires 0 < nTarget && nTarget * 3 <= TARGET_TIMESPAN && Decode(nBits) >= 2
    ensures MovedFor(nBits, 0, nTarget, fV3) < Decode(nBits)
  {
    ThreeIntervals(nTarget);
    hide Decode;
    var t, i := Decode(nBits), TARGET_TIMESPAN / nTarget;
    var d, x := (i + 1) * nTarget, (i - 1) * nTarget;
    MulPositive(i + 1, nTarget);
    assert x < d;
    SmallerFactor(t, x, d);
  }

  lemma {:induction false} SmallerFactor(t: nat, x: int, d: nat)
    requires t > 0 && 0 <= x < d
    ensures t * x / d < t
  {
    var q := t * x / d;
    assert t * x == d * q + t * x % d;
    if q >= t {
      MulLe(d, t, q);
      MulLe(t, x + 1, d);
    }
  }

  /** With a target of 1, the pair of 0 and the intended spacing is as bad as any. */
  lemma {:induction false} VanishingDecides(nBits: nat, nTarget: nat, fV3: bool, limit: nat)
    requires 0 < nTarget && nTarget * 3 <= TARGET_TIMESPAN && Decode(nBits) == 1
    ensures LongerIsEasier(nBits, nTarget, fV3, limit) <==> limit <= 1
  {
    IntervalPositive(nTarget);
    hide Encode, Decode, Moved, Cut;
    if limit > 1 {
      OneIsTheException(nBits, nTarget, fV3, limit);
    } else {
      CutBelow(limit);
      forall a: int, b: int | a <= b
        ensures NextBits(nBits, a, nTarget, fV3, limit) <= NextBits(nBits, b, nTarget, fV3, limit)
      {
        HarderExactly(nBits, a, b, nTarget, fV3, limit);
        HarderPairs(nBits, a, b, nTarget, fV3, limit);
      }
    }
  }

  /** With a previous target of 1, zero spacing yields the limit, and spacing on target 1. */
  lemma {:induction false} OneIsTheException(nBits: nat, nTarget: nat, fV3: bool, limit: nat)
    requires 0 < nTarget <= TARGET_TIMESPAN && Decode(nBits) == 1 && limit > 1
    ensures NextBits(nBits, 0, nTarget, fV3, limit) > NextBits(nBits, nTarget, nTarget, fV3, limit)
  {
    IntervalPositive(nTarget);
    OneVanishes(nTarget, TARGET_TIMESPAN / nTarget);
    OnTargetStays(1, nTarget, TARGET_TIMESPAN / nTarget);
    LargerThanOne(limit);
    hide Encode, Decode, Moved;
  }

  lemma {:induction false} LargerThanOne(x: nat)
    requires x > 1
    ensures Encode(x) > Encode(1)
  {
    EncodeMonotone(2, x);
    assert Pow256(0) == 1 && Pow256(1) == 256 && Pow256(2) == 65536;
    assert Encode(2) == 0x100_0000 + 2 * 65536 && Encode(1) == 0x100_0000 + 65536;
  }

  /** For every previous target from 2 up to the limit, a spacing of -1, which counts as on
      target, requires an easier target than a spacing of 0. */
  lemma {:induction false} NegativeIsTheOtherException(nBits: nat, nTarget: nat, fV3: bool, limit: nat)
    requires 0 < nTarget && nTarget * 3 <= TARGET_TIMESPAN && 2 <= Decode(nBits) <= limit
    ensures NextBits(nBits, -1, nTarget, fV3, limit) > NextBits(nBits, 0, nTarget, fV3, limit)
  {
    hide Encode, Decode, Moved, Cut;
    HarderExactly(nBits, -1, 0, nTarget, fV3, limit);
    HarderPairs(nBits, -1, 0, nTarget, fV3, limit);
    ZeroBelowTarget(nBits, nTarget, fV3);
    CutOfDecode(nBits);
  }

  /** Such an input. */
  lemma {:induction false} NegativeExample()
    ensures NextBits(0x0400_8000, -1, 64, true, 0x7fff_ffff) > NextBits(0x0400_8000, 0, 64, true, 0x7fff_ffff)
  {
    assert Pow256(0) == 1 && Pow256(1) == 256;
    assert Decode(0x0400_8000) == 0x80_0000;
    NegativeIsTheOtherException(0x0400_8000, 64, true, 0x7fff_ffff);
  }

  /** Among spacings that are not negative, a longer one never requires a harder target, exactly
      when the previous target is at least 2 (given that it is positive and the limit above 1). */
  lemma {:induction false} LongerIsEasierForward(nBits: nat, nTarget: nat, fV3: bool, limit: nat)
    requires 0 < nTarget && nTarget * 3 <= TARGET_TIMESPAN && Decode(nBits) > 0 && limit > 1
    ensures (forall a: nat, b: nat :: a <= b ==>
             NextBits(nBits, a, nTarget, fV3, limit) <= NextBits(nBits, b, nTarget, fV3, limit))
            <==> Decode(nBits) >= 2
  {
    hide Encode, Decode, Moved, Cut;
    if Decode(nBits) >= 2 {
      forall a: nat, b: nat | a <= b
        ensures NextBits(nBits, a, nTarget, fV3, limit) <= NextBits(nBits, b, nTarget, fV3, limit)
      {
        HarderExactly(nBits, a, b, nTarget, fV3, limit);
        HarderPairs(nBits, a, b, nTarget, fV3, limit);
      }
    } else {
      OneIsTheException(nBits, nTarget, fV3, limit);
    }
  }

  // ----- the rule in numbers -----

  /** For an intended spacing that divides a day, a target moves in the ratio of 86400 less the
      spacing plus twice the counted one, to 86400 plus the spacing. */
  lemma {:induction false} MovesInRatio(nBits: nat, nActual: int, nTarget: nat, fV3: bool)
    requires 0 < nTarget <= 86400 && 86400 % nTarget == 0
    ensures MovedFor(nBits, nActual, nTarget, fV3) ==
            Decode(nBits) * (86400 - nTarget + 2 * Counted(nActual, nTarget, fV3)) / (86400 + nTarget)
  {
    IntervalPositive(nTarget);
    var i := TARGET_TIMESPAN / nTarget;
    assert nTarget * i == 86400;
    assert (i - 1) * nTarget == 86400 - nTarget && (i + 1) * nTarget == 86400 + nTarget;
    hide Decode;
  }

  /** What counts: a negative spacing as one on target, a spacing of up to ten targets as it is, and
      from version 3 on one of more as ten targets.  The moved target is required as long as it is
      from 1 to the limit, and otherwise the limit is. */
  lemma {:induction false} WhatCounts(nBits: nat, nActual: int, nTarget: nat, fV3: bool, limit: nat)
    requires 0 < nTarget <= 86400
    ensures nActual < 0 ==>
            NextBits(nBits, nActual, nTarget, fV3, limit) == NextBits(nBits, nTarget, nTarget, fV3, limit)
    ensures 0 <= nActual && (nActual <= 10 * nTarget || !fV3) ==> Counted(nActual, nTarget, fV3) == nActual
    ensures nActual >= 10 * nTarget ==>
              NextBits(nBits, nActual, nTarget, true, limit) == NextBits(nBits, 10 * nTarget, nTarget, false, limit)
    ensures var bn := MovedFor(nBits, nActual, nTarget, fV3);
            && (1 <= bn <= limit ==> NextBits(nBits, nActual, nTarget, fV3, limit) == Encode(bn))
            && (bn < 1 || limit < bn ==> NextBits(nBits, nActual, nTarget, fV3, limit) == Encode(limit))
  {
    hide Encode, Decode, Moved;
  }
}
