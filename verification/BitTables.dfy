/** Where each bit goes when an eleven-bit word is taken out of, or put into, a row of bytes:
    one fixed identity of bit vectors for every offset of the word in its first byte.  (One identity with the
    offset as a variable would shift by a variable amount, which costs the solver far more.) */
module BitTables {

  type byte = bv8

  /** Bit k of a byte, the most significant one being bit 0. */
  function ByteBit(b: byte, k: nat): bool
    requires k < 8
  {
    if k == 0 then b & 128 != 0 else if k == 1 then b & 64 != 0 else if k == 2 then b & 32 != 0
      else if k == 3 then b & 16 != 0
    else if k == 4 then b & 8 != 0 else if k == 5 then b & 4 != 0 else if k == 6 then b & 2 != 0 else b & 1 != 0
  }

  /** Bit k of the low eleven bits of a word, the most significant one being bit 0. */
  function WordBit(o: bv32, k: nat): bool
    requires k < 11
  {
    if k == 0 then o & 1024 != 0 else if k == 1 then o & 512 != 0 else if k == 2 then o & 256 != 0
      else if k == 3 then o & 128 != 0
    else if k == 4 then o & 64 != 0 else if k == 5 then o & 32 != 0 else if k == 6 then o & 16 != 0
      else if k == 7 then o & 8 != 0
    else if k == 8 then o & 4 != 0 else if k == 9 then o & 2 != 0 else o & 1 != 0
  }

  /** The word that starts at bit r of the first of three bytes. */
  function Extract(a: byte, b: byte, c: byte, r: nat): bv32
    requires r < 8
  {
    var o := (((a as bv32) << r) & 0xFF) << 3;
    (if r > 5 then (o | ((b as bv32) << (r - 5))) | ((c as bv32) >> (8 - (r - 5)))
     else o | ((b as bv32) >> (5 - r))) & 0x7FF
  }

  /** What is stored when a word is assigned to a byte. */
  function Low8(x: bv32): byte {
    (x & 0xFF) as byte
  }

  /** The three bytes that a word starting at bit r of the first one is put into. */
  function InsertFirst(b: byte, o: bv32, r: nat): byte
    requires r < 8
  {
    b | Low8((o >> (r + 3)) & 0x7FF)
  }

  function InsertSecond(b: byte, o: bv32, r: nat): byte
    requires r < 8
  {
    b | Low8((if r > 5 then o >> (r - 5) else o << (5 - r)) & 0x7FF)
  }

  function InsertThird(b: byte, o: bv32, r: nat): byte
    requires r < 8
  {
    if r > 5 then b | Low8((o << (8 - (r - 5))) & 0x7FF) else b
  }

  // ----- taking out -----

  lemma {:induction false} Extract0(a: byte, b: byte, c: byte)
    ensures var o := Extract(a, b, c, 0);
            WordBit(o, 0) == ByteBit(a, 0) && WordBit(o, 1) == ByteBit(a, 1) && WordBit(o, 2) == ByteBit(a, 2) &&
              WordBit(o, 3) == ByteBit(a, 3) &&
            WordBit(o, 4) == ByteBit(a, 4) && WordBit(o, 5) == ByteBit(a, 5) && WordBit(o, 6) == ByteBit(a, 6) &&
              WordBit(o, 7) == ByteBit(a, 7) &&
            WordBit(o, 8) == ByteBit(b, 0) && WordBit(o, 9) == ByteBit(b, 1) && WordBit(o, 10) == ByteBit(b, 2)
  {
  }

  lemma {:induction false} Extract1(a: byte, b: byte, c: byte)
    ensures var o := Extract(a, b, c, 1);
            WordBit(o, 0) == ByteBit(a, 1) && WordBit(o, 1) == ByteBit(a, 2) && WordBit(o, 2) == ByteBit(a, 3) &&
              WordBit(o, 3) == ByteBit(a, 4) &&
            WordBit(o, 4) == ByteBit(a, 5) && WordBit(o, 5) == ByteBit(a, 6) && WordBit(o, 6) == ByteBit(a, 7) &&
              WordBit(o, 7) == ByteBit(b, 0) &&
            WordBit(o, 8) == ByteBit(b, 1) && WordBit(o, 9) == ByteBit(b, 2) && WordBit(o, 10) == ByteBit(b, 3)
  {
  }

  lemma {:induction false} Extract2(a: byte, b: byte, c: byte)
    ensures var o := Extract(a, b, c, 2);
            WordBit(o, 0) == ByteBit(a, 2) && WordBit(o, 1) == ByteBit(a, 3) && WordBit(o, 2) == ByteBit(a, 4) &&
              WordBit(o, 3) == ByteBit(a, 5) &&
            WordBit(o, 4) == ByteBit(a, 6) && WordBit(o, 5) == ByteBit(a, 7) && WordBit(o, 6) == ByteBit(b, 0) &&
              WordBit(o, 7) == ByteBit(b, 1) &&
            WordBit(o, 8) == ByteBit(b, 2) && WordBit(o, 9) == ByteBit(b, 3) && WordBit(o, 10) == ByteBit(b, 4)
  {
  }

  lemma {:induction false} Extract3(a: byte, b: byte, c: byte)
    ensures var o := Extract(a, b, c, 3);
            WordBit(o, 0) == ByteBit(a, 3) && WordBit(o, 1) == ByteBit(a, 4) && WordBit(o, 2) == ByteBit(a, 5) &&
              WordBit(o, 3) == ByteBit(a, 6) &&
            WordBit(o, 4) == ByteBit(a, 7) && WordBit(o, 5) == ByteBit(b, 0) && WordBit(o, 6) == ByteBit(b, 1) &&
              WordBit(o, 7) == ByteBit(b, 2) &&
            WordBit(o, 8) == ByteBit(b, 3) && WordBit(o, 9) == ByteBit(b, 4) && WordBit(o, 10) == ByteBit(b, 5)
  {
  }

  lemma {:induction false} Extract4(a: byte, b: byte, c: byte)
    ensures var o := Extract(a, b, c, 4);
            WordBit(o, 0) == ByteBit(a, 4) && WordBit(o, 1) == ByteBit(a, 5) && WordBit(o, 2) == ByteBit(a, 6) &&
              WordBit(o, 3) == ByteBit(a, 7) &&
            WordBit(o, 4) == ByteBit(b, 0) && WordBit(o, 5) == ByteBit(b, 1) && WordBit(o, 6) == ByteBit(b, 2) &&
              WordBit(o, 7) == ByteBit(b, 3) &&
            WordBit(o, 8) == ByteBit(b, 4) && WordBit(o, 9) == ByteBit(b, 5) && WordBit(o, 10) == ByteBit(b, 6)
  {
  }

  lemma {:induction false} Extract5(a: byte, b: byte, c: byte)
    ensures var o := Extract(a, b, c, 5);
            WordBit(o, 0) == ByteBit(a, 5) && WordBit(o, 1) == ByteBit(a, 6) && WordBit(o, 2) == ByteBit(a, 7) &&
              WordBit(o, 3) == ByteBit(b, 0) &&
            WordBit(o, 4) == ByteBit(b, 1) && WordBit(o, 5) == ByteBit(b, 2) && WordBit(o, 6) == ByteBit(b, 3) &&
              WordBit(o, 7) == ByteBit(b, 4) &&
            WordBit(o, 8) == ByteBit(b, 5) && WordBit(o, 9) == ByteBit(b, 6) && WordBit(o, 10) == ByteBit(b, 7)
  {
  }

  lemma {:induction false} Extract6(a: byte, b: byte, c: byte)
    ensures var o := Extract(a, b, c, 6);
            WordBit(o, 0) == ByteBit(a, 6) && WordBit(o, 1) == ByteBit(a, 7) && WordBit(o, 2) == ByteBit(b, 0) &&
              WordBit(o, 3) == ByteBit(b, 1) &&
            WordBit(o, 4) == ByteBit(b, 2) && WordBit(o, 5) == ByteBit(b, 3) && WordBit(o, 6) == ByteBit(b, 4) &&
              WordBit(o, 7) == ByteBit(b, 5) &&
            WordBit(o, 8) == ByteBit(b, 6) && WordBit(o, 9) == ByteBit(b, 7) && WordBit(o, 10) == ByteBit(c, 0)
  {
  }

  lemma {:induction false} Extract7(a: byte, b: byte, c: byte)
    ensures var o := Extract(a, b, c, 7);
            WordBit(o, 0) == ByteBit(a, 7) && WordBit(o, 1) == ByteBit(b, 0) && WordBit(o, 2) == ByteBit(b, 1) &&
              WordBit(o, 3) == ByteBit(b, 2) &&
            WordBit(o, 4) == ByteBit(b, 3) && WordBit(o, 5) == ByteBit(b, 4) && WordBit(o, 6) == ByteBit(b, 5) &&
              WordBit(o, 7) == ByteBit(b, 6) &&
            WordBit(o, 8) == ByteBit(b, 7) && WordBit(o, 9) == ByteBit(c, 0) && WordBit(o, 10) == ByteBit(c, 1)
  {
  }

  // ----- putting in -----

  lemma {:induction false} First0(b: byte, o: bv32)
    requires o < 2048 && !ByteBit(b, 0) && !ByteBit(b, 1) && !ByteBit(b, 2) && !ByteBit(b, 3) && !ByteBit(b, 4) &&
             !ByteBit(b, 5) && !ByteBit(b, 6) && !ByteBit(b, 7)
    ensures ByteBit(InsertFirst(b, o, 0), 0) == WordBit(o, 0) && ByteBit(InsertFirst(b, o, 0), 1) == WordBit(o, 1) &&
            ByteBit(InsertFirst(b, o, 0), 2) == WordBit(o, 2) && ByteBit(InsertFirst(b, o, 0), 3) == WordBit(o, 3) &&
            ByteBit(InsertFirst(b, o, 0), 4) == WordBit(o, 4) && ByteBit(InsertFirst(b, o, 0), 5) == WordBit(o, 5) &&
              ByteBit(InsertFirst(b, o, 0), 6) == WordBit(o, 6) && ByteBit(InsertFirst(b, o, 0), 7) == WordBit(o, 7)
  {
  }

  lemma {:induction false} Second0(o: bv32)
    requires o < 2048
    ensures ByteBit(InsertSecond(0, o, 0), 0) == WordBit(o, 8) && ByteBit(InsertSecond(0, o, 0), 1) == WordBit(o, 9) &&
            ByteBit(InsertSecond(0, o, 0), 2) == WordBit(o, 10) && !ByteBit(InsertSecond(0, o, 0), 3) &&
            !ByteBit(InsertSecond(0, o, 0), 4) && !ByteBit(InsertSecond(0, o, 0), 5) &&
              !ByteBit(InsertSecond(0, o, 0), 6) && !ByteBit(InsertSecond(0, o, 0), 7)
  {
  }

  lemma {:induction false} First1(b: byte, o: bv32)
    requires o < 2048 && !ByteBit(b, 1) && !ByteBit(b, 2) && !ByteBit(b, 3) && !ByteBit(b, 4) && !ByteBit(b, 5) &&
             !ByteBit(b, 6) && !ByteBit(b, 7)
    ensures ByteBit(InsertFirst(b, o, 1), 0) == ByteBit(b, 0) && ByteBit(InsertFirst(b, o, 1), 1) == WordBit(o, 0) &&
            ByteBit(InsertFirst(b, o, 1), 2) == WordBit(o, 1) && ByteBit(InsertFirst(b, o, 1), 3) == WordBit(o, 2) &&
            ByteBit(InsertFirst(b, o, 1), 4) == WordBit(o, 3) && ByteBit(InsertFirst(b, o, 1), 5) == WordBit(o, 4) &&
              ByteBit(InsertFirst(b, o, 1), 6) == WordBit(o, 5) && ByteBit(InsertFirst(b, o, 1), 7) == WordBit(o, 6)
  {
  }

  lemma {:induction false} Second1(o: bv32)
    requires o < 2048
    ensures ByteBit(InsertSecond(0, o, 1), 0) == WordBit(o, 7) && ByteBit(InsertSecond(0, o, 1), 1) == WordBit(o, 8) &&
            ByteBit(InsertSecond(0, o, 1), 2) == WordBit(o, 9) && ByteBit(InsertSecond(0, o, 1), 3) == WordBit(o, 10) &&
            !ByteBit(InsertSecond(0, o, 1), 4) && !ByteBit(InsertSecond(0, o, 1), 5) &&
              !ByteBit(InsertSecond(0, o, 1), 6) && !ByteBit(InsertSecond(0, o, 1), 7)
  {
  }

  lemma {:induction false} First2(b: byte, o: bv32)
    requires o < 2048 && !ByteBit(b, 2) && !ByteBit(b, 3) && !ByteBit(b, 4) && !ByteBit(b, 5) && !ByteBit(b, 6) &&
             !ByteBit(b, 7)
    ensures ByteBit(InsertFirst(b, o, 2), 0) == ByteBit(b, 0) && ByteBit(InsertFirst(b, o, 2), 1) == ByteBit(b, 1) &&
            ByteBit(InsertFirst(b, o, 2), 2) == WordBit(o, 0) && ByteBit(InsertFirst(b, o, 2), 3) == WordBit(o, 1) &&
            ByteBit(InsertFirst(b, o, 2), 4) == WordBit(o, 2) && ByteBit(InsertFirst(b, o, 2), 5) == WordBit(o, 3) &&
              ByteBit(InsertFirst(b, o, 2), 6) == WordBit(o, 4) && ByteBit(InsertFirst(b, o, 2), 7) == WordBit(o, 5)
  {
  }

  lemma {:induction false} Second2(o: bv32)
    requires o < 2048
    ensures ByteBit(InsertSecond(0, o, 2), 0) == WordBit(o, 6) && ByteBit(InsertSecond(0, o, 2), 1) == WordBit(o, 7) &&
            ByteBit(InsertSecond(0, o, 2), 2) == WordBit(o, 8) && ByteBit(InsertSecond(0, o, 2), 3) == WordBit(o, 9) &&
            ByteBit(InsertSecond(0, o, 2), 4) == WordBit(o, 10) && !ByteBit(InsertSecond(0, o, 2), 5) &&
              !ByteBit(InsertSecond(0, o, 2), 6) && !ByteBit(InsertSecond(0, o, 2), 7)
  {
  }

  lemma {:induction false} First3(b: byte, o: bv32)
    requires o < 2048 && !ByteBit(b, 3) && !ByteBit(b, 4) && !ByteBit(b, 5) && !ByteBit(b, 6) && !ByteBit(b, 7)
    ensures ByteBit(InsertFirst(b, o, 3), 0) == ByteBit(b, 0) && ByteBit(InsertFirst(b, o, 3), 1) == ByteBit(b, 1) &&
            ByteBit(InsertFirst(b, o, 3), 2) == ByteBit(b, 2) && ByteBit(InsertFirst(b, o, 3), 3) == WordBit(o, 0) &&
            ByteBit(InsertFirst(b, o, 3), 4) == WordBit(o, 1) && ByteBit(InsertFirst(b, o, 3), 5) == WordBit(o, 2) &&
              ByteBit(InsertFirst(b, o, 3), 6) == WordBit(o, 3) && ByteBit(InsertFirst(b, o, 3), 7) == WordBit(o, 4)
  {
  }

  lemma {:induction false} Second3(o: bv32)
    requires o < 2048
    ensures ByteBit(InsertSecond(0, o, 3), 0) == WordBit(o, 5) && ByteBit(InsertSecond(0, o, 3), 1) == WordBit(o, 6) &&
            ByteBit(InsertSecond(0, o, 3), 2) == WordBit(o, 7) && ByteBit(InsertSecond(0, o, 3), 3) == WordBit(o, 8) &&
            ByteBit(InsertSecond(0, o, 3), 4) == WordBit(o, 9) && ByteBit(InsertSecond(0, o, 3), 5) == WordBit(o, 10) &&
              !ByteBit(InsertSecond(0, o, 3), 6) && !ByteBit(InsertSecond(0, o, 3), 7)
  {
  }

  lemma {:induction false} First4(b: byte, o: bv32)
    requires o < 2048 && !ByteBit(b, 4) && !ByteBit(b, 5) && !ByteBit(b, 6) && !ByteBit(b, 7)
    ensures ByteBit(InsertFirst(b, o, 4), 0) == ByteBit(b, 0) && ByteBit(InsertFirst(b, o, 4), 1) == ByteBit(b, 1) &&
            ByteBit(InsertFirst(b, o, 4), 2) == ByteBit(b, 2) && ByteBit(InsertFirst(b, o, 4), 3) == ByteBit(b, 3) &&
            ByteBit(InsertFirst(b, o, 4), 4) == WordBit(o, 0) && ByteBit(InsertFirst(b, o, 4), 5) == WordBit(o, 1) &&
              ByteBit(InsertFirst(b, o, 4), 6) == WordBit(o, 2) && ByteBit(InsertFirst(b, o, 4), 7) == WordBit(o, 3)
  {
  }

  lemma {:induction false} Second4(o: bv32)
    requires o < 2048
    ensures ByteBit(InsertSecond(0, o, 4), 0) == WordBit(o, 4) && ByteBit(InsertSecond(0, o, 4), 1) == WordBit(o, 5) &&
            ByteBit(InsertSecond(0, o, 4), 2) == WordBit(o, 6) && ByteBit(InsertSecond(0, o, 4), 3) == WordBit(o, 7) &&
            ByteBit(InsertSecond(0, o, 4), 4) == WordBit(o, 8) && ByteBit(InsertSecond(0, o, 4), 5) == WordBit(o, 9) &&
              ByteBit(InsertSecond(0, o, 4), 6) == WordBit(o, 10) && !ByteBit(InsertSecond(0, o, 4), 7)
  {
  }

  lemma {:induction false} First5(b: byte, o: bv32)
    requires o < 2048 && !ByteBit(b, 5) && !ByteBit(b, 6) && !ByteBit(b, 7)
    ensures ByteBit(InsertFirst(b, o, 5), 0) == ByteBit(b, 0) && ByteBit(InsertFirst(b, o, 5), 1) == ByteBit(b, 1) &&
            ByteBit(InsertFirst(b, o, 5), 2) == ByteBit(b, 2) && ByteBit(InsertFirst(b, o, 5), 3) == ByteBit(b, 3) &&
            ByteBit(InsertFirst(b, o, 5), 4) == ByteBit(b, 4) && ByteBit(InsertFirst(b, o, 5), 5) == WordBit(o, 0) &&
              ByteBit(InsertFirst(b, o, 5), 6) == WordBit(o, 1) && ByteBit(InsertFirst(b, o, 5), 7) == WordBit(o, 2)
  {
  }

  lemma {:induction false} Second5(o: bv32)
    requires o < 2048
    ensures ByteBit(InsertSecond(0, o, 5), 0) == WordBit(o, 3) && ByteBit(InsertSecond(0, o, 5), 1) == WordBit(o, 4) &&
            ByteBit(InsertSecond(0, o, 5), 2) == WordBit(o, 5) && ByteBit(InsertSecond(0, o, 5), 3) == WordBit(o, 6) &&
            ByteBit(InsertSecond(0, o, 5), 4) == WordBit(o, 7) && ByteBit(InsertSecond(0, o, 5), 5) == WordBit(o, 8) &&
              ByteBit(InsertSecond(0, o, 5), 6) == WordBit(o, 9) && ByteBit(InsertSecond(0, o, 5), 7) == WordBit(o, 10)
  {
  }

  lemma {:induction false} First6(b: byte, o: bv32)
    requires o < 2048 && !ByteBit(b, 6) && !ByteBit(b, 7)
    ensures ByteBit(InsertFirst(b, o, 6), 0) == ByteBit(b, 0) && ByteBit(InsertFirst(b, o, 6), 1) == ByteBit(b, 1) &&
            ByteBit(InsertFirst(b, o, 6), 2) == ByteBit(b, 2) && ByteBit(InsertFirst(b, o, 6), 3) == ByteBit(b, 3) &&
            ByteBit(InsertFirst(b, o, 6), 4) == ByteBit(b, 4) && ByteBit(InsertFirst(b, o, 6), 5) == ByteBit(b, 5) &&
              ByteBit(InsertFirst(b, o, 6), 6) == WordBit(o, 0) && ByteBit(InsertFirst(b, o, 6), 7) == WordBit(o, 1)
  {
  }

  lemma {:induction false} Second6(o: bv32)
    requires o < 2048
    ensures ByteBit(InsertSecond(0, o, 6), 0) == WordBit(o, 2) && ByteBit(InsertSecond(0, o, 6), 1) == WordBit(o, 3) &&
            ByteBit(InsertSecond(0, o, 6), 2) == WordBit(o, 4) && ByteBit(InsertSecond(0, o, 6), 3) == WordBit(o, 5) &&
            ByteBit(InsertSecond(0, o, 6), 4) == WordBit(o, 6) && ByteBit(InsertSecond(0, o, 6), 5) == WordBit(o, 7) &&
              ByteBit(InsertSecond(0, o, 6), 6) == WordBit(o, 8) && ByteBit(InsertSecond(0, o, 6), 7) == WordBit(o, 9)
  {
  }

  lemma {:induction false} Third6(o: bv32)
    requires o < 2048
    ensures ByteBit(InsertThird(0, o, 6), 0) == WordBit(o, 10) && !ByteBit(InsertThird(0, o, 6), 1) &&
            !ByteBit(InsertThird(0, o, 6), 2) && !ByteBit(InsertThird(0, o, 6), 3) &&
            !ByteBit(InsertThird(0, o, 6), 4) && !ByteBit(InsertThird(0, o, 6), 5) &&
              !ByteBit(InsertThird(0, o, 6), 6) && !ByteBit(InsertThird(0, o, 6), 7)
  {
  }

  lemma {:induction false} First7(b: byte, o: bv32)
    requires o < 2048 && !ByteBit(b, 7)
    ensures ByteBit(InsertFirst(b, o, 7), 0) == ByteBit(b, 0) && ByteBit(InsertFirst(b, o, 7), 1) == ByteBit(b, 1) &&
            ByteBit(InsertFirst(b, o, 7), 2) == ByteBit(b, 2) && ByteBit(InsertFirst(b, o, 7), 3) == ByteBit(b, 3) &&
            ByteBit(InsertFirst(b, o, 7), 4) == ByteBit(b, 4) && ByteBit(InsertFirst(b, o, 7), 5) == ByteBit(b, 5) &&
              ByteBit(InsertFirst(b, o, 7), 6) == ByteBit(b, 6) && ByteBit(InsertFirst(b, o, 7), 7) == WordBit(o, 0)
  {
  }

  lemma {:induction false} Second7(o: bv32)
    requires o < 2048
    ensures ByteBit(InsertSecond(0, o, 7), 0) == WordBit(o, 1) && ByteBit(InsertSecond(0, o, 7), 1) == WordBit(o, 2) &&
            ByteBit(InsertSecond(0, o, 7), 2) == WordBit(o, 3) && ByteBit(InsertSecond(0, o, 7), 3) == WordBit(o, 4) &&
            ByteBit(InsertSecond(0, o, 7), 4) == WordBit(o, 5) && ByteBit(InsertSecond(0, o, 7), 5) == WordBit(o, 6) &&
              ByteBit(InsertSecond(0, o, 7), 6) == WordBit(o, 7) && ByteBit(InsertSecond(0, o, 7), 7) == WordBit(o, 8)
  {
  }

  lemma {:induction false} Third7(o: bv32)
    requires o < 2048
    ensures ByteBit(InsertThird(0, o, 7), 0) == WordBit(o, 9) && ByteBit(InsertThird(0, o, 7), 1) == WordBit(o, 10) &&
            !ByteBit(InsertThird(0, o, 7), 2) && !ByteBit(InsertThird(0, o, 7), 3) &&
            !ByteBit(InsertThird(0, o, 7), 4) && !ByteBit(InsertThird(0, o, 7), 5) &&
              !ByteBit(InsertThird(0, o, 7), 6) && !ByteBit(InsertThird(0, o, 7), 7)
  {
  }

  // ----- masking -----

  /** The r most significant bits set. */
  function Mask(r: nat): byte
    requires 0 < r < 8
  {
    (((1 as byte) << r) - 1) << (8 - r)
  }

  function Masked(b: byte, r: nat): byte
    requires 0 < r < 8
  {
    b & Mask(r)
  }

  lemma {:induction false} Masked1(b: byte)
    ensures ByteBit(Masked(b, 1), 0) == ByteBit(b, 0) && !ByteBit(Masked(b, 1), 1) && !ByteBit(Masked(b, 1), 2) &&
            !ByteBit(Masked(b, 1), 3) &&
            !ByteBit(Masked(b, 1), 4) && !ByteBit(Masked(b, 1), 5) && !ByteBit(Masked(b, 1), 6) &&
              !ByteBit(Masked(b, 1), 7)
  {
  }

  lemma {:induction false} Masked2(b: byte)
    ensures ByteBit(Masked(b, 2), 0) == ByteBit(b, 0) && ByteBit(Masked(b, 2), 1) == ByteBit(b, 1) &&
            !ByteBit(Masked(b, 2), 2) && !ByteBit(Masked(b, 2), 3) &&
            !ByteBit(Masked(b, 2), 4) && !ByteBit(Masked(b, 2), 5) && !ByteBit(Masked(b, 2), 6) &&
              !ByteBit(Masked(b, 2), 7)
  {
  }

  lemma {:induction false} Masked3(b: byte)
    ensures ByteBit(Masked(b, 3), 0) == ByteBit(b, 0) && ByteBit(Masked(b, 3), 1) == ByteBit(b, 1) &&
            ByteBit(Masked(b, 3), 2) == ByteBit(b, 2) && !ByteBit(Masked(b, 3), 3) &&
            !ByteBit(Masked(b, 3), 4) && !ByteBit(Masked(b, 3), 5) && !ByteBit(Masked(b, 3), 6) &&
              !ByteBit(Masked(b, 3), 7)
  {
  }

  lemma {:induction false} Masked4(b: byte)
    ensures ByteBit(Masked(b, 4), 0) == ByteBit(b, 0) && ByteBit(Masked(b, 4), 1) == ByteBit(b, 1) &&
            ByteBit(Masked(b, 4), 2) == ByteBit(b, 2) && ByteBit(Masked(b, 4), 3) == ByteBit(b, 3) &&
            !ByteBit(Masked(b, 4), 4) && !ByteBit(Masked(b, 4), 5) && !ByteBit(Masked(b, 4), 6) &&
              !ByteBit(Masked(b, 4), 7)
  {
  }

  lemma {:induction false} Masked5(b: byte)
    ensures ByteBit(Masked(b, 5), 0) == ByteBit(b, 0) && ByteBit(Masked(b, 5), 1) == ByteBit(b, 1) &&
            ByteBit(Masked(b, 5), 2) == ByteBit(b, 2) && ByteBit(Masked(b, 5), 3) == ByteBit(b, 3) &&
            ByteBit(Masked(b, 5), 4) == ByteBit(b, 4) && !ByteBit(Masked(b, 5), 5) && !ByteBit(Masked(b, 5), 6) &&
              !ByteBit(Masked(b, 5), 7)
  {
  }

  lemma {:induction false} Masked6(b: byte)
    ensures ByteBit(Masked(b, 6), 0) == ByteBit(b, 0) && ByteBit(Masked(b, 6), 1) == ByteBit(b, 1) &&
            ByteBit(Masked(b, 6), 2) == ByteBit(b, 2) && ByteBit(Masked(b, 6), 3) == ByteBit(b, 3) &&
            ByteBit(Masked(b, 6), 4) == ByteBit(b, 4) && ByteBit(Masked(b, 6), 5) == ByteBit(b, 5) &&
              !ByteBit(Masked(b, 6), 6) && !ByteBit(Masked(b, 6), 7)
  {
  }

  lemma {:induction false} Masked7(b: byte)
    ensures ByteBit(Masked(b, 7), 0) == ByteBit(b, 0) && ByteBit(Masked(b, 7), 1) == ByteBit(b, 1) &&
            ByteBit(Masked(b, 7), 2) == ByteBit(b, 2) && ByteBit(Masked(b, 7), 3) == ByteBit(b, 3) &&
            ByteBit(Masked(b, 7), 4) == ByteBit(b, 4) && ByteBit(Masked(b, 7), 5) == ByteBit(b, 5) &&
              ByteBit(Masked(b, 7), 6) == ByteBit(b, 6) && !ByteBit(Masked(b, 7), 7)
  {
  }

  // ----- what the bits are worth -----

  /** Bit 0 of a byte is worth 128, and every further one half of the one before. */
  lemma {:induction false} ByteBitIs(b: byte)
    ensures ByteBit(b, 0) <==> b / 128 % 2 == 1
    ensures ByteBit(b, 1) <==> b / 64 % 2 == 1
    ensures ByteBit(b, 2) <==> b / 32 % 2 == 1
    ensures ByteBit(b, 3) <==> b / 16 % 2 == 1
    ensures ByteBit(b, 4) <==> b / 8 % 2 == 1
    ensures ByteBit(b, 5) <==> b / 4 % 2 == 1
    ensures ByteBit(b, 6) <==> b / 2 % 2 == 1
    ensures ByteBit(b, 7) <==> b % 2 == 1
  {
  }

  /** Bit 0 of a word is worth 1024, and every further one half of the one before. */
  lemma {:induction false} WordBitIs(o: bv32)
    ensures WordBit(o, 0) <==> o / 1024 % 2 == 1
    ensures WordBit(o, 1) <==> o / 512 % 2 == 1
    ensures WordBit(o, 2) <==> o / 256 % 2 == 1
    ensures WordBit(o, 3) <==> o / 128 % 2 == 1
    ensures WordBit(o, 4) <==> o / 64 % 2 == 1
    ensures WordBit(o, 5) <==> o / 32 % 2 == 1
    ensures WordBit(o, 6) <==> o / 16 % 2 == 1
    ensures WordBit(o, 7) <==> o / 8 % 2 == 1
    ensures WordBit(o, 8) <==> o / 4 % 2 == 1
    ensures WordBit(o, 9) <==> o / 2 % 2 == 1
    ensures WordBit(o, 10) <==> o % 2 == 1
  {
  }

  /** A word of eleven bits is determined by them, and the upper half of a byte is the last four bits of a word. */
  lemma {:induction false} WordBitsDetermine(o: bv32, b: byte)
    requires o < 2048
    requires !WordBit(o, 0) && !WordBit(o, 1) && !WordBit(o, 2) && !WordBit(o, 3) && !WordBit(o, 4) && !WordBit(o, 5)
    requires !WordBit(o, 6) && WordBit(o, 7) == ByteBit(b, 0) && WordBit(o, 8) == ByteBit(b, 1)
    requires WordBit(o, 9) == ByteBit(b, 2) && WordBit(o, 10) == ByteBit(b, 3)
    ensures o == (b as bv32) / 16
  {
  }
}
