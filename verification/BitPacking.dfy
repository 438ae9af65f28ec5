/** Bits of rows of bytes and of rows of eleven-bit words. */
module BitPacking {
  import opened BitTables

  /** Bit i of a row of bytes, counted from the most significant bit of the first one. */
  function BitAt(v: seq<byte>, i: nat): bool
    requires i < 8 * |v|
  {
    ByteBit(v[i / 8], i % 8)
  }

  /** Bit i of a row of eleven-bit words. */
  function WordBitAt(w: seq<bv32>, i: nat): bool
    requires i < 11 * |w|
  {
    WordBit(w[i / 11], i % 11)
  }

  lemma {:induction false} ByteBitsDetermine(a: byte, b: byte)
    requires forall k :: 0 <= k < 8 ==> ByteBit(a, k) == ByteBit(b, k)
    ensures a == b
  {
    assert ByteBit(a, 0) == ByteBit(b, 0) && ByteBit(a, 1) == ByteBit(b, 1) && ByteBit(a, 2) == ByteBit(b, 2);
    assert ByteBit(a, 3) == ByteBit(b, 3) && ByteBit(a, 4) == ByteBit(b, 4) && ByteBit(a, 5) == ByteBit(b, 5);
    assert ByteBit(a, 6) == ByteBit(b, 6) && ByteBit(a, 7) == ByteBit(b, 7);
  }

  /** Rows of bytes with the same bits are the same. */
  lemma {:induction false} BitsDetermine(a: seq<byte>, b: seq<byte>)
    requires |a| == |b| && forall i :: 0 <= i < 8 * |a| ==> BitAt(a, i) == BitAt(b, i)
    ensures a == b
  {
    forall s | 0 <= s < |a| ensures a[s] == b[s] {
      forall k | 0 <= k < 8 ensures ByteBit(a[s], k) == ByteBit(b[s], k) {
        assert BitAt(a, 8 * s + k) == BitAt(b, 8 * s + k);
      }
      ByteBitsDetermine(a[s], b[s]);
    }
  }

  // ----- taking a word out of three bytes -----

  /** Bit j of a row of three bytes. */
  function RowBit(a: byte, b: byte, c: byte, j: nat): bool
    requires j < 24
  {
    if j < 8 then ByteBit(a, j) else if j < 16 then ByteBit(b, j - 8) else ByteBit(c, j - 16)
  }

  /** A word taken out of three bytes has the eleven bits from bit r on. */
  lemma {:induction false} ExtractBit(a: byte, b: byte, c: byte, r: nat, t: nat)
    requires r < 8 && t < 11
    ensures WordBit(Extract(a, b, c, r), t) == RowBit(a, b, c, r + t)
  {
    hide ByteBit, WordBit, Extract;
    assert t == 0 || t == 1 || t == 2 || t == 3 || t == 4 || t == 5 || t == 6 || t == 7 || t == 8 || t == 9 || t == 10;
    match r {
      case 0 => Extract0(a, b, c);
      case 1 => Extract1(a, b, c);
      case 2 => Extract2(a, b, c);
      case 3 => Extract3(a, b, c);
      case 4 => Extract4(a, b, c);
      case 5 => Extract5(a, b, c);
      case 6 => Extract6(a, b, c);
      case _ => Extract7(a, b, c);
    }
  }

  /** The byte at a position, or nothing. */
  function ByteOr0(v: seq<byte>, s: nat): byte {
    if s < |v| then v[s] else 0
  }

  /** A row of bytes, seen from byte s on. */
  lemma {:induction false} BitInRow(v: seq<byte>, s: nat, j: nat)
    requires j < 24 && 8 * s + j < 8 * |v|
    ensures BitAt(v, 8 * s + j) == RowBit(ByteOr0(v, s), ByteOr0(v, s + 1), ByteOr0(v, s + 2), j)
  {
    hide ByteBit;
    assert (8 * s + j) / 8 == s + j / 8 && (8 * s + j) % 8 == j % 8;
  }

  /** The word that starts at bit i of a row. */
  lemma {:induction false} WordFromRow(v: seq<byte>, i: nat, t: nat)
    requires i + 11 <= 8 * |v| && t < 11
    ensures WordBit(Extract(ByteOr0(v, i / 8), ByteOr0(v, i / 8 + 1), ByteOr0(v, i / 8 + 2), i % 8), t) ==
            BitAt(v, i + t)
  {
    hide ByteBit, WordBit, Extract, RowBit, ByteOr0, BitAt;
    var s, r := i / 8, i % 8;
    ExtractBit(ByteOr0(v, s), ByteOr0(v, s + 1), ByteOr0(v, s + 2), r, t);
    BitInRow(v, s, r + t);
    assert 8 * s + (r + t) == i + t;
  }

  // ----- putting a word into three bytes -----

  /** The bits from r on are clear. */
  predicate ClearFrom(b: byte, r: nat) {
    forall k :: r <= k < 8 ==> !ByteBit(b, k)
  }

  lemma {:induction false} FirstBit(b: byte, o: bv32, r: nat, k: nat)
    requires r < 8 && k < 8 && o < 2048 && ClearFrom(b, r)
    ensures ByteBit(InsertFirst(b, o, r), k) == if k < r then ByteBit(b, k) else WordBit(o, k - r)
  {
    hide ByteBit, WordBit, InsertFirst;
    assert k == 0 || k == 1 || k == 2 || k == 3 || k == 4 || k == 5 || k == 6 || k == 7;
    match r {
      case 0 => First0(b, o);
      case 1 => First1(b, o);
      case 2 => First2(b, o);
      case 3 => First3(b, o);
      case 4 => First4(b, o);
      case 5 => First5(b, o);
      case 6 => First6(b, o);
      case _ => First7(b, o);
    }
  }

  lemma {:induction false} SecondBit(o: bv32, r: nat, k: nat)
    requires r < 8 && k < 8 && o < 2048
    ensures ByteBit(InsertSecond(0, o, r), k) == (8 + k < r + 11 && WordBit(o, 8 + k - r))
  {
    hide ByteBit, WordBit, InsertSecond;
    assert k == 0 || k == 1 || k == 2 || k == 3 || k == 4 || k == 5 || k == 6 || k == 7;
    match r {
      case 0 => Second0(o);
      case 1 => Second1(o);
      case 2 => Second2(o);
      case 3 => Second3(o);
      case 4 => Second4(o);
      case 5 => Second5(o);
      case 6 => Second6(o);
      case _ => Second7(o);
    }
  }

  lemma {:induction false} ThirdBit(o: bv32, r: nat, k: nat)
    requires r < 8 && k < 8 && o < 2048
    ensures ByteBit(InsertThird(0, o, r), k) == (16 + k < r + 11 && WordBit(o, 16 + k - r))
  {
    if r <= 5 {
      NothingInThird(o, r);
    } else {
      assert k == 0 || k == 1 || k == 2 || k == 3 || k == 4 || k == 5 || k == 6 || k == 7;
      hide ByteBit, WordBit, InsertThird;
      if r == 6 {
        Third6(o);
      } else {
        Third7(o);
      }
    }
  }

  lemma {:induction false} NothingInThird(o: bv32, r: nat)
    requires r <= 5
    ensures forall k :: 0 <= k < 8 ==> !ByteBit(InsertThird(0, o, r), k)
  {
  }

  /** The three bytes after a word is put in at bit r of the first: its bits follow what was
      there before. */
  lemma {:induction false} InsertBit(b: byte, o: bv32, r: nat, j: nat)
    requires r < 8 && j < 24 && o < 2048 && ClearFrom(b, r)
    ensures RowBit(InsertFirst(b, o, r), InsertSecond(0, o, r), InsertThird(0, o, r), j) ==
            if j < r then ByteBit(b, j) else if j < r + 11 then WordBit(o, j - r) else false
  {
    hide ByteBit, WordBit, InsertFirst, InsertSecond, InsertThird, ClearFrom;
    if j < 8 {
      FirstBit(b, o, r, j);
    } else if j < 16 {
      SecondBit(o, r, j - 8);
    } else {
      ThirdBit(o, r, j - 16);
    }
  }
}
