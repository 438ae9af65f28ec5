/** Mnemonics at the level of word indices: entropy and checksum bits, eleven to a word. */
module Mnemonic {
  import opened Basics
  import opened BitPacking
  import opened BitTables

  /** The result of SHA-256. */
  type Hash = h: seq<byte> | |h| == 32 witness seq(32, _ => 0)

  // ----- packing words into bytes -----

  /** The row holds the bits of the first k words, and nothing after them. */
  ghost predicate Filled(v: seq<byte>, vWord: seq<bv32>, k: nat) {
    k <= |vWord| && forall i :: 0 <= i < 8 * |v| ==> BitAt(v, i) == (i < 11 * k && WordBitAt(vWord, i))
  }

  lemma {:induction false} ZeroByte(b: byte)
    requires forall k :: 0 <= k < 8 ==> !ByteBit(b, k)
    ensures b == 0
  {
    ByteBitsDetermine(b, 0);
  }

  /** What is there before a word is put in: nothing from its first bit on. */
  lemma {:induction false} RoomForWord(v: seq<byte>, vWord: seq<bv32>, k: nat)
    requires Filled(v, vWord, k) && 11 * k < 8 * |v|
    ensures ClearFrom(v[11 * k / 8], 11 * k % 8)
    ensures forall s :: 11 * k / 8 < s < |v| ==> v[s] == 0
  {
    var s0, r := 11 * k / 8, 11 * k % 8;
    forall t | r <= t < 8 ensures !ByteBit(v[s0], t) {
      assert !BitAt(v, 8 * s0 + t);
    }
    forall s | s0 < s < |v| ensures v[s] == 0 {
      forall t | 0 <= t < 8 ensures !ByteBit(v[s], t) {
        assert !BitAt(v, 8 * s + t);
      }
      ZeroByte(v[s]);
    }
  }

  /** The row after the word at bit i was put in. */
  function PutIn(v: seq<byte>, o: bv32, i: nat): seq<byte>
    requires i + 11 <= 8 * |v|
  {
    var s, r := i / 8, i % 8;
    var v1 := v[s := InsertFirst(v[s], o, r)][s + 1 := InsertSecond(v[s + 1], o, r)];
    if r > 5 then v1[s + 2 := InsertThird(v[s + 2], o, r)] else v1
  }

  lemma {:induction false} PutInByte(v: seq<byte>, o: bv32, i: nat, x: nat)
    requires i + 11 <= 8 * |v| && x < |v|
    ensures |PutIn(v, o, i)| == |v|
    ensures var s, r := i / 8, i % 8;
            PutIn(v, o, i)[x] ==
              if x == s then InsertFirst(v[s], o, r) else if x == s + 1 then InsertSecond(v[s + 1], o, r)
              else if x == s + 2 && r > 5 then InsertThird(v[s + 2], o, r) else v[x]
  {
    hide InsertFirst, InsertSecond, InsertThird;
  }

  /** Bit j of the bytes from the first changed one on. */
  lemma {:induction false} PutInNear(v: seq<byte>, o: bv32, i: nat, x: nat)
    requires i + 11 <= 8 * |v| && o < 2048 && x < 8 * |v| && i / 8 <= x / 8 <= i / 8 + 2
    requires ClearFrom(v[i / 8], i % 8) && forall s :: i / 8 < s < |v| ==> v[s] == 0
    ensures |PutIn(v, o, i)| == |v|
    ensures BitAt(PutIn(v, o, i), x) == if i <= x < i + 11 then WordBit(o, x - i) else BitAt(v, x)
  {
    hide ByteBit, WordBit, InsertFirst, InsertSecond, InsertThird, PutIn, ClearFrom;
    var s, r := i / 8, i % 8;
    PutInByte(v, o, i, x / 8);
    NoBits(x % 8);
    if x / 8 == s {
      FirstBit(v[s], o, r, x % 8);
      ClearBit(v[s], r, x % 8);
    } else if x / 8 == s + 1 {
      SecondBit(o, r, x % 8);
    } else {
      ThirdBit(o, r, x % 8);
    }
  }

  lemma {:induction false} ClearBit(b: byte, r: nat, k: nat)
    requires ClearFrom(b, r) && k < 8
    ensures r <= k ==> !ByteBit(b, k)
  {
  }

  lemma {:induction false} PutInBit(v: seq<byte>, o: bv32, i: nat, x: nat)
    requires i + 11 <= 8 * |v| && o < 2048 && x < 8 * |v|
    requires ClearFrom(v[i / 8], i % 8) && forall s :: i / 8 < s < |v| ==> v[s] == 0
    ensures |PutIn(v, o, i)| == |v|
    ensures BitAt(PutIn(v, o, i), x) == if i <= x < i + 11 then WordBit(o, x - i) else BitAt(v, x)
  {
    if i / 8 <= x / 8 <= i / 8 + 2 {
      PutInNear(v, o, i, x);
    } else {
      hide ByteBit, WordBit, PutIn;
      PutInByte(v, o, i, x / 8);
    }
  }

  lemma {:induction false} NoBits(k: nat)
    requires k < 8
    ensures !ByteBit(0, k)
  {
  }

  lemma {:induction false} FilledMore(v: seq<byte>, vWord: seq<bv32>, k: nat)
    requires Filled(v, vWord, k) && k < |vWord| && 11 * |vWord| <= 8 * |v| && vWord[k] < 2048
    ensures Filled(PutIn(v, vWord[k], 11 * k), vWord, k + 1) && |PutIn(v, vWord[k], 11 * k)| == |v|
  {
    var v' := PutIn(v, vWord[k], 11 * k);
    RoomForWord(v, vWord, k);
    forall x | 0 <= x < 8 * |v'| ensures BitAt(v', x) == (x < 11 * (k + 1) && WordBitAt(vWord, x)) {
      PutInBit(v, vWord[k], 11 * k, x);
      hide BitAt, ClearFrom, PutIn;
      if 11 * k <= x < 11 * k + 11 {
        assert x / 11 == k && x % 11 == x - 11 * k;
      }
    }
  }

  lemma {:induction false} NothingFilled(v: seq<byte>, vWord: seq<bv32>)
    requires forall s :: 0 <= s < |v| ==> v[s] == 0
    ensures Filled(v, vWord, 0)
  {
    forall i | 0 <= i < 8 * |v| ensures !BitAt(v, i) {
      NoBits(i % 8);
    }
  }

  /** Puts a word in at bit i, byte by byte. */
  method Put(v: seq<byte>, o: bv32, i: nat) returns (v': seq<byte>)
    requires i + 11 <= 8 * |v|
    ensures v' == PutIn(v, o, i)
  {
    hide InsertFirst, InsertSecond, InsertThird;
    var s, r, el := i / 8, i % 8, |v|;
    v' := v[s := InsertFirst(v[s], o, r)];
    if s < el - 1 {
      v' := v'[s + 1 := InsertSecond(v'[s + 1], o, r)];
      if r > 5 {
        if s < el - 2 {
          v' := v'[s + 2 := InsertThird(v'[s + 2], o, r)];
        }
      }
    }
  }

  /** Puts every word into a row that is just long enough. */
  method Pack(vWord: seq<bv32>) returns (v: seq<byte>)
    requires forall k :: 0 <= k < |vWord| ==> vWord[k] < 2048
    ensures |v| == (11 * |vWord| + 7) / 8 && Filled(v, vWord, |vWord|)
  {
    var nBits := |vWord| * 11;
    var nBytes := nBits / 8 + (if nBits % 8 == 0 then 0 else 1);
    v := seq(nBytes, _ => 0);
    NothingFilled(v, vWord);
    hide Filled, PutIn;
    var i := 0;
    for k := 0 to |vWord|
      invariant i == 11 * k && |v| == nBytes && Filled(v, vWord, k)
    {
      FilledMore(v, vWord, k);
      v := Put(v, vWord[k], i);
      i := i + 11;
    }
  }

  // ----- encoding -----

  /** How many words an entropy of n bytes takes, and how many bytes of its hash are used. */
  function WordCount(n: nat): nat {
    (8 * n + n / 4 + 10) / 11
  }

  function HashBytes(n: nat): nat {
    (n / 4 + 7) / 8
  }

  /** The words carry the bits of the entropy, of the used bytes of its hash, and then zeros. */
  ghost predicate Encodes(vWord: seq<bv32>, vEntropy: seq<byte>, H: seq<byte> -> Hash) {
    var n := |vEntropy|;
    && |vWord| == WordCount(n) && 1 <= n / 4 <= 256
    && (forall k :: 0 <= k < |vWord| ==> vWord[k] < 2048)
    && forall i :: 0 <= i < 11 * |vWord| ==>
         WordBitAt(vWord, i) == (i < 8 * (n + HashBytes(n)) && BitAt(vEntropy + H(vEntropy), i))
  }

  /** Bytes beyond what is copied of the hash do not matter. */
  lemma {:induction false} SameBits(a: seq<byte>, b: seq<byte>, n: nat)
    requires n <= |a| && n <= |b| && a[..n] == b[..n]
    ensures forall i :: 0 <= i < 8 * n ==> BitAt(a, i) == BitAt(b, i)
  {
    forall i | 0 <= i < 8 * n ensures BitAt(a, i) == BitAt(b, i) {
      assert a[..n][i / 8] == b[..n][i / 8];
    }
  }

  lemma {:induction false} ExtractIsShort(a: byte, b: byte, c: byte, d: byte, r: nat)
    requires r < 8
    ensures Extract(a, b, c, r) < 2048
    ensures r <= 5 ==> Extract(a, b, c, r) == Extract(a, b, d, r)
  {
  }

  ghost predicate Reads(vWord: seq<bv32>, vIn: seq<byte>) {
    && 11 * |vWord| <= 8 * |vIn|
    && (forall k :: 0 <= k < |vWord| ==> vWord[k] < 2048)
    && forall i :: 0 <= i < 11 * |vWord| ==> WordBitAt(vWord, i) == BitAt(vIn, i)
  }

  lemma {:induction false} ReadsMore(vWord: seq<bv32>, vIn: seq<byte>, o: bv32)
    requires Reads(vWord, vIn) && 11 * |vWord| + 11 <= 8 * |vIn| && o < 2048
    requires forall t :: 0 <= t < 11 ==> WordBit(o, t) == BitAt(vIn, 11 * |vWord| + t)
    ensures Reads(vWord + [o], vIn)
  {
    var n, w := |vWord|, vWord + [o];
    hide WordBit, BitAt;
    forall i | 0 <= i < 11 * |w| ensures WordBitAt(w, i) == BitAt(vIn, i) {
      if i < 11 * n {
        assert WordBitAt(w, i) == WordBitAt(vWord, i);
      } else {
        assert i / 11 == n && i % 11 == i - 11 * n;
      }
    }
  }

  /** Words of eleven bits for the first nBits bits of a row; the last word may go beyond them. */
  method Unpack(vIn: seq<byte>, nBits: nat) returns (vWord: seq<bv32>)
    requires 11 * ((nBits + 10) / 11) <= 8 * |vIn|
    ensures |vWord| == (nBits + 10) / 11 && Reads(vWord, vIn)
  {
    vWord := [];
    var i := 0;
    ghost var total := (nBits + 10) / 11;
    assert nBits <= 11 * total < nBits + 11;
    while i < nBits
      invariant i == 11 * |vWord| && |vWord| <= total && Reads(vWord, vIn)
    {
      hide Reads, Extract;
      var s, r := i / 8, i % 8;
      var b1, b2 := vIn[s], vIn[s + 1];
      var b3 := if r > 5 then vIn[s + 2] else 0;
      var o := Extract(b1, b2, b3, r);
      ExtractIsShort(b1, b2, b3, ByteOr0(vIn, s + 2), r);
      forall t | 0 <= t < 11 ensures WordBit(o, t) == BitAt(vIn, i + t) {
        WordFromRow(vIn, i, t);
      }
      ReadsMore(vWord, vIn, o);
      vWord := vWord + [o];
      i := i + 11;
    }
  }

  /** Nothing but zeros follows what is copied of the hash. */
  lemma {:induction false} NoBitsAfter(v: seq<byte>, n: nat, i: nat)
    requires 8 * n <= i < 8 * |v| && forall s :: n <= s < |v| ==> v[s] == 0
    ensures !BitAt(v, i)
  {
    NoBits(i % 8);
  }

  /** The row that is read has room for the last word. */
  predicate FitsRow(n: nat) {
    n / 4 + 3 * (n % 4) <= 256
  }

  lemma {:induction false} WordCounts(n: nat)
    ensures WordCount(n) == 3 * (n / 4) + n % 4
  {
    assert n == 4 * (n / 4) + n % 4;
  }

  lemma {:induction false} CopiedBits(n: nat)
    ensures n / 4 + 3 * (n % 4) == 11 * WordCount(n) - 8 * n && n / 4 <= 8 * HashBytes(n) <= n / 4 + 7
  {
    WordCounts(n);
  }

  /** The words of a row made of the entropy, the used bytes of its hash, and zeros. */
  lemma {:induction false} EncodedRow(vWord: seq<bv32>, vEntropy: seq<byte>, H: seq<byte> -> Hash, vIn: seq<byte>)
    requires Reads(vWord, vIn) && |vWord| == WordCount(|vEntropy|) && 1 <= |vEntropy| / 4 <= 256
    requires var ncb := HashBytes(|vEntropy|);
             vIn == vEntropy + H(vEntropy)[..ncb] + seq(32 - ncb, _ => 0)
    ensures Encodes(vWord, vEntropy, H)
  {
    var n, whole := |vEntropy| + HashBytes(|vEntropy|), vEntropy + H(vEntropy);
    assert vIn[..n] == whole[..n];
    SameBits(vIn, whole, n);
    assert forall s :: n <= s < |vIn| ==> vIn[s] == 0;
    hide BitAt, WordBitAt;
    forall i | 0 <= i < 11 * |vWord| ensures WordBitAt(vWord, i) == (i < 8 * n && BitAt(whole, i)) {
      if i >= 8 * n {
        NoBitsAfter(vIn, n, i);
      }
    }
  }

  /** The words of an entropy; it fails exactly outside 1 to 256 whole groups of four bytes. */
  method MnemonicEncode(vEntropy: seq<byte>, H: seq<byte> -> Hash) returns (res: Option<seq<bv32>>)
    requires FitsRow(|vEntropy|) || |vEntropy| / 4 > 256
    ensures res.Some? <==> 1 <= |vEntropy| / 4 <= 256
    ensures res.Some? ==> Encodes(res.value, vEntropy, H)
  {
    var hash := H(vEntropy);
    var nCsSize := |vEntropy| / 4;
    if nCsSize < 1 || nCsSize > 256 {
      return None;
    }
    var ncb := nCsSize / 8 + (if nCsSize % 8 != 0 then 1 else 0);
    var vIn := vEntropy + hash[..ncb] + seq(32 - ncb, _ => 0);
    var nBits := |vEntropy| * 8 + nCsSize;
    CopiedBits(|vEntropy|);
    hide Encodes, Reads;
    var vWord := Unpack(vIn, nBits);
    EncodedRow(vWord, vEntropy, H, vIn);
    res := Some(vWord);
  }

  // ----- decoding -----

  lemma {:induction false} MaskedBit(b: byte, r: nat, k: nat)
    requires 0 < r < 8 && k < 8
    ensures ByteBit(Masked(b, r), k) == (k < r && ByteBit(b, k))
  {
    hide ByteBit, Masked;
    assert k == 0 || k == 1 || k == 2 || k == 3 || k == 4 || k == 5 || k == 6 || k == 7;
    match r {
      case 1 => Masked1(b);
      case 2 => Masked2(b);
      case 3 => Masked3(b);
      case 4 => Masked4(b);
      case 5 => Masked5(b);
      case 6 => Masked6(b);
      case _ => Masked7(b);
    }
  }

  /** The first n bits, in as many bytes as they need; the rest of the last byte is cleared. */
  function FirstBits(hash: seq<byte>, n: nat): (r: seq<byte>)
    requires n <= 8 * |hash|
    ensures |r| == (n + 7) / 8
  {
    var v := hash[..(n + 7) / 8];
    if n % 8 > 0 then v[|v| - 1 := Masked(v[|v| - 1], n % 8)] else v
  }

  lemma {:induction false} FirstBitsBit(hash: seq<byte>, n: nat, i: nat)
    requires n <= 8 * |hash| && i < 8 * ((n + 7) / 8)
    ensures BitAt(FirstBits(hash, n), i) == (i < n && BitAt(hash, i))
  {
    hide ByteBit, Masked;
    if n % 8 > 0 && i / 8 == (n + 7) / 8 - 1 {
      MaskedBit(hash[i / 8], n % 8, i % 8);
    }
  }

  /** How many of w words' bits are checksum, and how many whole bytes are entropy. */
  function ChecksumBits(w: nat): nat {
    w * 11 / 32
  }

  function EntropyBytes(w: nat): nat {
    (w * 11 - ChecksumBits(w)) / 8
  }

  /** The bytes after the entropy are the first bits of its hash. */
  predicate ChecksumMatches(v: seq<byte>, w: nat, H: seq<byte> -> Hash)
    requires |v| == (11 * w + 7) / 8 && ChecksumBits(w) <= 256
  {
    v[EntropyBytes(w)..EntropyBytes(w) + (ChecksumBits(w) + 7) / 8] ==
      FirstBits(H(v[..EntropyBytes(w)]), ChecksumBits(w))
  }

  method Checksum(hash: seq<byte>, nLenChecksum: nat, nBytesChecksum: nat) returns (vCSTest: seq<byte>)
    requires nLenChecksum <= 8 * |hash| && nBytesChecksum == nLenChecksum / 8 + (if nLenChecksum % 8 == 0 then 0 else 1)
    ensures vCSTest == FirstBits(hash, nLenChecksum)
  {
    vCSTest := hash[..nBytesChecksum];
    var r := nLenChecksum % 8;
    if r > 0 {
      vCSTest := vCSTest[nBytesChecksum - 1 := Masked(vCSTest[nBytesChecksum - 1], r)];
    }
  }

  /** A text of this many characters, or more, is too long to be decoded. */
  const MAX_TEXT := 2048

  /** The length of the words in a text with a space between two of them. */
  function TextLength(vWord: seq<bv32>, wordLength: bv32 -> nat): nat {
    if vWord == [] then 0
    else
      var n := |vWord| - 1;
      TextLength(vWord[..n], wordLength) + wordLength(vWord[n]) + if n > 0 then 1 else 0
  }

  /** The entropy of a list of words that stand in a text of some length, if that is not too long,
      the number of words is right and the checksum matches; and the whole row of bytes when
      checksums are ignored. */
  method MnemonicDecode(vWord: seq<bv32>, nTextLength: nat, H: seq<byte> -> Hash, fIgnoreChecksum: bool)
    returns (res: Option<seq<byte>>, ghost v: seq<byte>)
    requires forall k :: 0 <= k < |vWord| ==> vWord[k] < 2048
    requires nTextLength >= MAX_TEXT || ChecksumBits(|vWord|) <= 256 || |vWord| % 3 != 0 || fIgnoreChecksum
    ensures nTextLength >= MAX_TEXT ==> res == None
    ensures nTextLength < MAX_TEXT ==> |v| == (11 * |vWord| + 7) / 8 && Filled(v, vWord, |vWord|)
    ensures nTextLength < MAX_TEXT && fIgnoreChecksum ==> res == Some(v)
    ensures nTextLength < MAX_TEXT && !fIgnoreChecksum ==>
              res == if |vWord| % 3 == 0 && ChecksumMatches(v, |vWord|, H) then Some(v[..EntropyBytes(|vWord|)])
                else None
  {
    if nTextLength >= MAX_TEXT {
      return None, [];
    }
    hide Filled, FirstBits;
    var vEntropy := Pack(vWord);
    v := vEntropy;
    if fIgnoreChecksum {
      return Some(vEntropy), v;
    }
    if |vWord| % 3 != 0 {
      return None, v;
    }
    var nBits := |vWord| * 11;
    var nLenChecksum := nBits / 32;
    var nLenEntropy := nBits - nLenChecksum;
    var nBytesEntropy := nLenEntropy / 8;
    var nBytesChecksum := nLenChecksum / 8 + (if nLenChecksum % 8 == 0 then 0 else 1);
    var vCS := vEntropy[nBytesEntropy..nBytesEntropy + nBytesChecksum];
    vEntropy := vEntropy[..nBytesEntropy];
    var hash := H(vEntropy);
    var vCSTest := Checksum(hash, nLenChecksum, nBytesChecksum);
    if vCSTest != vCS {
      return None, v;
    }
    res := Some(vEntropy);
  }

  // ----- the round trip -----

  lemma {:induction false} ShiftedBit(v: seq<byte>, n: nat, i: nat)
    requires n <= |v| && i < 8 * |v[n..]|
    ensures BitAt(v[n..], i) == BitAt(v, 8 * n + i)
  {
  }

  /** The row that decoding fills holds the entropy, and then the bits of its hash that were used,
      as far as the words go. */
  lemma {:induction false} RowOfEncoding(vEntropy: seq<byte>, H: seq<byte> -> Hash, vWord: seq<bv32>, v: seq<byte>)
    requires Encodes(vWord, vEntropy, H) && |v| == (11 * |vWord| + 7) / 8 && Filled(v, vWord, |vWord|)
    ensures |v| >= |vEntropy| && v[..|vEntropy|] == vEntropy
    ensures forall j :: 0 <= j < 8 * |v[|vEntropy|..]| ==>
            BitAt(v[|vEntropy|..], j) ==
              (j < 8 * HashBytes(|vEntropy|) && j < 11 * |vWord| - 8 * |vEntropy| && BitAt(H(vEntropy), j))
  {
    var n, whole := |vEntropy|, vEntropy + H(vEntropy);
    CopiedBits(n);
    assert 8 * n <= 11 * |vWord|;
    hide *;
    forall i | 0 <= i < 8 * n ensures BitAt(v[..n], i) == BitAt(vEntropy, i) {
      RowBitIs(vEntropy, H, vWord, v, i);
      PrefixBit(v, n, i);
      PrefixBit(whole, n, i);
      assert whole[..n] == vEntropy;
    }
    BitsDetermine(v[..n], vEntropy);
    forall j | 0 <= j < 8 * |v[n..]|
      ensures BitAt(v[n..], j) == (j < 8 * HashBytes(n) && j < 11 * |vWord| - 8 * n && BitAt(H(vEntropy), j))
    {
      RowBitIs(vEntropy, H, vWord, v, 8 * n + j);
      ShiftedBit(v, n, j);
      if j < 8 * HashBytes(n) {
        ShiftedBit(whole, n, j);
        assert whole[n..] == H(vEntropy);
      }
    }
  }

  /** A bit of the row that decoding fills. */
  lemma {:induction false} RowBitIs(vEntropy: seq<byte>, H: seq<byte> -> Hash, vWord: seq<bv32>, v: seq<byte>, i: nat)
    requires Encodes(vWord, vEntropy, H) && |v| == (11 * |vWord| + 7) / 8 && Filled(v, vWord, |vWord|)
    requires i < 8 * |v|
    ensures HashBytes(|vEntropy|) <= 32
    ensures BitAt(v, i) ==
            (i < 11 * |vWord| && i < 8 * (|vEntropy| + HashBytes(|vEntropy|)) && BitAt(vEntropy + H(vEntropy), i))
  {
    hide BitAt, WordBitAt, WordCount;
  }

  /** For whole groups of four bytes the rest is the checksum. */
  lemma {:induction false} RestOfWholeGroups(vEntropy: seq<byte>, H: seq<byte> -> Hash, vWord: seq<bv32>, v: seq<byte>)
    requires Encodes(vWord, vEntropy, H) && |v| == (11 * |vWord| + 7) / 8 && Filled(v, vWord, |vWord|)
    requires |vEntropy| % 4 == 0
    ensures |v| >= |vEntropy| && v[|vEntropy|..] == FirstBits(H(vEntropy), |vEntropy| / 4)
  {
    var n, hash, w := |vEntropy|, H(vEntropy), |vWord|;
    assert w == WordCount(n) && n / 4 <= 256;
    hide *;
    RowOfEncoding(vEntropy, H, vWord, v);
    WholeGroupsRest(n);
    BitsAreFirst(v[n..], hash, 8 * HashBytes(n), n / 4);
  }

  lemma {:induction false} WholeGroupsRest(n: nat)
    requires n % 4 == 0
    ensures 11 * WordCount(n) - 8 * n == n / 4 && (11 * WordCount(n) + 7) / 8 == n + (n / 4 + 7) / 8
    ensures n / 4 <= 8 * HashBytes(n)
  {
    WordCounts(n);
  }

  lemma {:induction false} BitsAreFirst(rest: seq<byte>, hash: Hash, a: nat, k: nat)
    requires k <= a && k <= 256 && |rest| == (k + 7) / 8
    requires forall j :: 0 <= j < 8 * |rest| ==> BitAt(rest, j) == (j < a && j < k && BitAt(hash, j))
    ensures rest == FirstBits(hash, k)
  {
    hide BitAt, FirstBits;
    forall j | 0 <= j < 8 * |rest| ensures BitAt(rest, j) == BitAt(FirstBits(hash, k), j) {
      FirstBitsBit(hash, k, j);
    }
    BitsDetermine(rest, FirstBits(hash, k));
  }

  lemma {:induction false} BitsOfRest(vEntropy: seq<byte>, H: seq<byte> -> Hash, vWord: seq<bv32>, v: seq<byte>)
    requires Encodes(vWord, vEntropy, H) && |v| == (11 * |vWord| + 7) / 8 && Filled(v, vWord, |vWord|)
    requires 8 * HashBytes(|vEntropy|) <= 11 * |vWord| - 8 * |vEntropy|
    ensures |v| >= |vEntropy| && v[..|vEntropy|] == vEntropy
    ensures forall j :: 0 <= j < 8 * |v[|vEntropy|..]| ==>
            BitAt(v[|vEntropy|..], j) == (j < 8 * HashBytes(|vEntropy|) && BitAt(H(vEntropy), j))
  {
    hide *;
    RowOfEncoding(vEntropy, H, vWord, v);
  }

  /** When the decoder finds the right length, the checksum matches exactly when the bits between the
      end of the used bytes and the end of what it takes for the checksum are clear. */
  lemma {:induction false} RestWithBytesOver(vEntropy: seq<byte>, H: seq<byte> -> Hash, vWord: seq<bv32>, v: seq<byte>)
    requires Encodes(vWord, vEntropy, H) && |v| == (11 * |vWord| + 7) / 8 && Filled(v, vWord, |vWord|)
    requires 8 * HashBytes(|vEntropy|) <= 11 * |vWord| - 8 * |vEntropy|
    requires var c := ChecksumBits(|vWord|);
             c <= 256 && EntropyBytes(|vWord|) == |vEntropy| && HashBytes(|vEntropy|) <= (c + 7) / 8 &&
               |vEntropy| + (c + 7) / 8 <= |v|
    ensures |v| >= |vEntropy| && v[..|vEntropy|] == vEntropy
    ensures ChecksumMatches(v, |vWord|, H) <==>
            ClearBetween(H(vEntropy), 8 * HashBytes(|vEntropy|), ChecksumBits(|vWord|))
  {
    hide *;
    BitsOfRest(vEntropy, H, vWord, v);
    ChecksumOfRest(v, |vEntropy|, |vWord|, H, 8 * HashBytes(|vEntropy|));
  }

  /** The checksum matches when the rest of the row has the first a bits of the hash. */
  lemma {:induction false} ChecksumOfRest(v: seq<byte>, n: nat, w: nat, H: seq<byte> -> Hash, a: nat)
    requires |v| == (11 * w + 7) / 8 && ChecksumBits(w) <= 256 && EntropyBytes(w) == n
    requires n + (ChecksumBits(w) + 7) / 8 <= |v| && a <= 8 * ((ChecksumBits(w) + 7) / 8)
    requires forall j :: 0 <= j < 8 * |v[n..]| ==> BitAt(v[n..], j) == (j < a && BitAt(H(v[..n]), j))
    ensures ChecksumMatches(v, w, H) <==> ClearBetween(H(v[..n]), a, ChecksumBits(w))
  {
    var c := ChecksumBits(w);
    hide *;
    SameRest(v[n..], H(v[..n]), a, c);
    assert v[n..][..(c + 7) / 8] == v[n..n + (c + 7) / 8];
    MatchesIs(v, w, H);
  }

  lemma {:induction false} ChecksumIsRest(v: seq<byte>, n: nat, w: nat, H: seq<byte> -> Hash)
    requires |v| == (11 * w + 7) / 8 && ChecksumBits(w) <= 256 && EntropyBytes(w) == n <= |v|
    requires v[n..] == FirstBits(H(v[..n]), ChecksumBits(w))
    ensures ChecksumMatches(v, w, H)
  {
    var c := ChecksumBits(w);
    assert |FirstBits(H(v[..n]), c)| == (c + 7) / 8;
    hide *;
    assert v[n..n + (c + 7) / 8] == v[n..];
    MatchesIs(v, w, H);
  }

  lemma {:induction false} MatchesIs(v: seq<byte>, w: nat, H: seq<byte> -> Hash)
    requires |v| == (11 * w + 7) / 8 && ChecksumBits(w) <= 256
    requires EntropyBytes(w) + (ChecksumBits(w) + 7) / 8 <= |v|
    ensures ChecksumMatches(v, w, H) <==>
            v[EntropyBytes(w)..EntropyBytes(w) + (ChecksumBits(w) + 7) / 8] ==
              FirstBits(H(v[..EntropyBytes(w)]), ChecksumBits(w))
  {
  }

  /** A rest that has the first a bits of a hash starts with its first c bits. */
  lemma {:induction false} SameRest(rest: seq<byte>, hash: Hash, a: nat, c: nat)
    requires a <= 8 * ((c + 7) / 8) <= 8 * |rest| && c <= 256
    requires forall j :: 0 <= j < 8 * |rest| ==> BitAt(rest, j) == (j < a && BitAt(hash, j))
    ensures rest[..(c + 7) / 8] == FirstBits(hash, c) <==> ClearBetween(hash, a, c)
  {
    var n := (c + 7) / 8;
    var p, q := rest[..n], FirstBits(hash, c);
    hide BitAt, FirstBits;
    forall j | 0 <= j < 8 * n
      ensures BitAt(p, j) == (j < a && BitAt(hash, j)) && BitAt(q, j) == (j < c && BitAt(hash, j))
    {
      FirstBitsBit(hash, c, j);
      PrefixBit(rest, n, j);
    }
    if ClearBetween(hash, a, c) {
      BitsDetermine(p, q);
    } else {
      var j :| 0 <= j < 8 * |hash| && Between(a, c, j) && BitAt(hash, j);
      assert BitAt(p, j) != BitAt(q, j);
    }
  }

  lemma {:induction false} PrefixBit(v: seq<byte>, n: nat, i: nat)
    requires n <= |v| && i < 8 * n
    ensures BitAt(v[..n], i) == BitAt(v, i)
  {
  }

  predicate Between(a: nat, b: nat, j: nat) {
    a <= j < b || b <= j < a
  }

  /** The bits of the hash between two positions are clear. */
  ghost predicate ClearBetween(hash: Hash, a: nat, b: nat) {
    forall j :: 0 <= j < 8 * |hash| && Between(a, b, j) ==> !BitAt(hash, j)
  }

  lemma {:induction false} LengthsWithThreeOver(n: nat)
    requires n % 4 == 3 && 31 <= n / 4 <= 247
    ensures var w, c := WordCount(n), ChecksumBits(WordCount(n));
            && w == 3 * (n / 4 + 1) && w % 3 == 0 && EntropyBytes(w) == n && n / 4 < c <= 256
            && HashBytes(n) <= (c + 7) / 8 && n + (c + 7) / 8 <= (11 * w + 7) / 8
            && 8 * HashBytes(n) <= 11 * w - 8 * n
  {
    var k := n / 4;
    assert n == 4 * k + 3;
    assert WordCount(n) == 3 * (k + 1);
    assert 11 * (3 * (k + 1)) == 33 * k + 33;
  }

  /** For up to 31 groups of four bytes, decoding recognises the checksum length. */
  lemma {:induction false} Lengths(k: nat)
    ensures k <= 31 ==> ChecksumBits(3 * k) == k && EntropyBytes(3 * k) == 4 * k
    ensures 32 <= k <= 249 ==> ChecksumBits(3 * k) <= 256 && EntropyBytes(3 * k) == 4 * k - 1
  {
    assert 3 * k * 11 == 32 * k + k;
    assert (32 * k + k) / 32 == k + k / 32;
  }

  /** The lengths for which the original stays inside its rows: encoding reads no further than
      the 32 bytes added to the entropy, and decoding compares no more than the 32 bytes of a hash. */
  predicate StaysInside(n: nat) {
    n / 4 > 256 || (FitsRow(n) && (n % 4 == 0 ==> n / 4 <= 249))
  }

  /** Entropies that come back: up to 31 groups of four bytes; and, of the others, those with three
      bytes over and a hash whose bits happen to be clear where encoding and decoding disagree. */
  ghost predicate ComesBack(n: nat, hash: Hash) {
    || (n % 4 == 0 && 1 <= n / 4 <= 31)
    || (n % 4 == 3 && 31 <= n / 4 <= 256 && ClearBetween(hash, 8 * HashBytes(n), ChecksumBits(WordCount(n))))
  }

  /** Whole groups: the checksum matches up to 31, and beyond the length is wrong. */
  lemma {:induction false} WholeGroupsDecode(vEntropy: seq<byte>, H: seq<byte> -> Hash, vWord: seq<bv32>, v: seq<byte>)
    requires Encodes(vWord, vEntropy, H) && |v| == (11 * |vWord| + 7) / 8 && Filled(v, vWord, |vWord|)
    requires |vEntropy| % 4 == 0 && |vEntropy| / 4 <= 249
    ensures |vWord| % 3 == 0 && ChecksumBits(|vWord|) <= 256
    ensures if |vEntropy| / 4 <= 31 then EntropyBytes(|vWord|) == |vEntropy| && ChecksumMatches(v, |vWord|, H)
            else EntropyBytes(|vWord|) != |vEntropy|
    ensures |v| >= |vEntropy| && v[..|vEntropy|] == vEntropy
  {
    var n, w, k := |vEntropy|, |vWord|, |vEntropy| / 4;
    assert w == WordCount(n);
    hide *;
    WordCounts(n);
    Lengths(k);
    RowOfEncoding(vEntropy, H, vWord, v);
    RestOfWholeGroups(vEntropy, H, vWord, v);
    if k <= 31 {
      ChecksumIsRest(v, n, w, H);
    }
  }

  /** The decoder stays inside the hash; and with bytes over, the number of words is wrong, or the
      length, as long as there are few groups. */
  lemma {:induction false} DecodableLength(n: nat)
    requires FitsRow(n) && (n % 4 == 0 ==> n / 4 <= 249)
    ensures ChecksumBits(WordCount(n)) <= 256 || WordCount(n) % 3 != 0
    ensures n % 4 != 0 && WordCount(n) % 3 == 0 ==> n % 4 == 3 && (n / 4 < 31 ==> EntropyBytes(WordCount(n)) != n)
  {
    WordCounts(n);
    Lengths(n / 4);
    Lengths(n / 4 + 1);
  }

  /** The decoder accepts the row and finds an entropy of n bytes. */
  ghost predicate Restores(v: seq<byte>, w: nat, H: seq<byte> -> Hash, n: nat)
    requires |v| == (11 * w + 7) / 8
  {
    w % 3 == 0 && ChecksumBits(w) <= 256 && EntropyBytes(w) == n && ChecksumMatches(v, w, H)
  }

  lemma {:induction false} WholeGroupsRestore(vEntropy: seq<byte>, H: seq<byte> -> Hash, vWord: seq<bv32>, v: seq<byte>)
    requires Encodes(vWord, vEntropy, H) && |v| == (11 * |vWord| + 7) / 8 && Filled(v, vWord, |vWord|)
    requires |vEntropy| % 4 == 0 && |vEntropy| / 4 <= 249
    ensures Restores(v, |vWord|, H, |vEntropy|) <==> ComesBack(|vEntropy|, H(vEntropy))
  {
    hide Filled, ChecksumMatches, EntropyBytes, ChecksumBits, ClearBetween, HashBytes, WordCount, BitAt, WordBitAt;
    WholeGroupsDecode(vEntropy, H, vWord, v);
  }

  lemma {:induction false} ThreeOverRestores(vEntropy: seq<byte>, H: seq<byte> -> Hash, vWord: seq<bv32>, v: seq<byte>)
    requires Encodes(vWord, vEntropy, H) && |v| == (11 * |vWord| + 7) / 8 && Filled(v, vWord, |vWord|)
    requires |vEntropy| % 4 == 3 && 31 <= |vEntropy| / 4 <= 247
    ensures Restores(v, |vWord|, H, |vEntropy|) <==> ComesBack(|vEntropy|, H(vEntropy))
  {
    var n, w := |vEntropy|, |vWord|;
    assert w == WordCount(n);
    hide *;
    LengthsWithThreeOver(n);
    ThreeOverComesBack(n, H(vEntropy));
    BytesOverRestore(vEntropy, H, vWord, v);
  }

  lemma {:induction false} ThreeOverComesBack(n: nat, hash: Hash)
    requires n % 4 == 3 && 31 <= n / 4 <= 247
    ensures ComesBack(n, hash) <==> ClearBetween(hash, 8 * HashBytes(n), ChecksumBits(WordCount(n)))
  {
    hide ClearBetween, HashBytes, ChecksumBits, WordCount;
  }

  lemma {:induction false} BytesOverRestore(vEntropy: seq<byte>, H: seq<byte> -> Hash, vWord: seq<bv32>, v: seq<byte>)
    requires Encodes(vWord, vEntropy, H) && |v| == (11 * |vWord| + 7) / 8 && Filled(v, vWord, |vWord|)
    requires 8 * HashBytes(|vEntropy|) <= 11 * |vWord| - 8 * |vEntropy| && |vWord| % 3 == 0
    requires var c := ChecksumBits(|vWord|);
             c <= 256 && EntropyBytes(|vWord|) == |vEntropy| && HashBytes(|vEntropy|) <= (c + 7) / 8 &&
               |vEntropy| + (c + 7) / 8 <= |v|
    ensures Restores(v, |vWord|, H, |vEntropy|) <==>
            ClearBetween(H(vEntropy), 8 * HashBytes(|vEntropy|), ChecksumBits(|vWord|))
  {
    hide *;
    RestWithBytesOver(vEntropy, H, vWord, v);
    RestoresIs(v, |vWord|, H, |vEntropy|);
  }

  lemma {:induction false} RestoresIs(v: seq<byte>, w: nat, H: seq<byte> -> Hash, n: nat)
    requires |v| == (11 * w + 7) / 8 && w % 3 == 0 && ChecksumBits(w) <= 256 && EntropyBytes(w) == n
    ensures Restores(v, w, H, n) <==> ChecksumMatches(v, w, H)
  {
  }

  lemma {:induction false} OthersDoNotRestore(v: seq<byte>, H: seq<byte> -> Hash, n: nat)
    requires |v| == (11 * WordCount(n) + 7) / 8 && n % 4 != 0 && (n % 4 == 3 ==> n / 4 < 31) && FitsRow(n)
    ensures !Restores(v, WordCount(n), H, n)
  {
    DecodableLength(n);
    hide WordCount, EntropyBytes, ChecksumBits, ChecksumMatches;
  }

  /** The decoder restores exactly the entropies that come back. */
  lemma {:induction false} RestoresExactly(vEntropy: seq<byte>, H: seq<byte> -> Hash, vWord: seq<bv32>, v: seq<byte>)
    requires Encodes(vWord, vEntropy, H) && |v| == (11 * |vWord| + 7) / 8 && Filled(v, vWord, |vWord|)
    requires StaysInside(|vEntropy|)
    ensures |v| >= |vEntropy| && v[..|vEntropy|] == vEntropy
    ensures Restores(v, |vWord|, H, |vEntropy|) <==> ComesBack(|vEntropy|, H(vEntropy))
  {
    var n := |vEntropy|;
    assert |vWord| == WordCount(n) && 1 <= n / 4 <= 256;
    hide Encodes, Filled, Restores, ClearBetween, HashBytes, WordCount, ChecksumBits, BitAt;
    RowOfEncoding(vEntropy, H, vWord, v);
    if n % 4 == 0 {
      WholeGroupsRestore(vEntropy, H, vWord, v);
    } else if n % 4 == 3 && 31 <= n / 4 {
      ThreeOverRestores(vEntropy, H, vWord, v);
    } else {
      OthersDoNotRestore(v, H, n);
    }
  }

  /** What an entropy has to be like for encoding to be possible. */
  lemma {:induction false} EncodedLength(vWord: seq<bv32>, vEntropy: seq<byte>, H: seq<byte> -> Hash)
    requires Encodes(vWord, vEntropy, H) && StaysInside(|vEntropy|)
    ensures forall k :: 0 <= k < |vWord| ==> vWord[k] < 2048
    ensures ChecksumBits(|vWord|) <= 256 || |vWord| % 3 != 0
  {
    DecodableLength(|vEntropy|);
    hide BitAt, WordBitAt;
  }

  /** Decoding what encoding yields, in a language whose words have the given lengths: the entropy comes back,
      its checksum having matched, exactly when it is one that comes back and the text is short enough. */
  method EncodeAndDecode(vEntropy: seq<byte>, H: seq<byte> -> Hash, wordLength: bv32 -> nat)
    returns (words: Option<seq<bv32>>, res: Option<seq<byte>>)
    requires StaysInside(|vEntropy|)
    ensures words.Some? ==> Encodes(words.value, vEntropy, H)
    ensures res == Some(vEntropy) <==>
            words.Some? && ComesBack(|vEntropy|, H(vEntropy)) && TextLength(words.value, wordLength) < MAX_TEXT
  {
    words := MnemonicEncode(vEntropy, H);
    if words.None? {
      return words, None;
    }
    hide Encodes, Filled, StaysInside, ComesBack, ChecksumMatches, EntropyBytes, ChecksumBits, TextLength;
    EncodedLength(words.value, vEntropy, H);
    ghost var v;
    var nTextLength := TextLength(words.value, wordLength);
    res, v := MnemonicDecode(words.value, nTextLength, H, false);
    if nTextLength < MAX_TEXT {
      RestoresExactly(vEntropy, H, words.value, v);
    }
  }

  // ----- written out -----

  /** One bit of checksum for every four bytes of entropy, and as many words as hold both: twelve
      words for sixteen bytes, and three more for every four bytes more. */
  lemma {:induction false} CountsAre(n: nat)
    ensures 11 * WordCount(n) - 10 <= 8 * n + n / 4 <= 11 * WordCount(n) || n == 0
    ensures n == 0 ==> WordCount(n) == 0
    ensures 8 * HashBytes(n) - 7 <= n / 4 <= 8 * HashBytes(n) || n < 4
    ensures n < 4 ==> HashBytes(n) == 0
    ensures WordCount(16) == 12 && WordCount(20) == 15 && WordCount(24) == 18 && WordCount(28) == 21
    ensures WordCount(32) == 24 && HashBytes(32) == 1 && HashBytes(36) == 2
    ensures ChecksumBits(12) == 4 && ChecksumBits(15) == 5 && ChecksumBits(18) == 6 && ChecksumBits(21) == 7
    ensures ChecksumBits(24) == 8 && EntropyBytes(24) == 32 && EntropyBytes(12) == 16 && MAX_TEXT == 2048
  {
  }

  /** The words of sixteen zero bytes: eleven zeros, and then the upper half of the first byte of the hash. */
  lemma {:induction false} ZeroEntropy(vWord: seq<bv32>, vEntropy: seq<byte>, H: seq<byte> -> Hash)
    requires Encodes(vWord, vEntropy, H) && |vEntropy| == 16 && forall i :: 0 <= i < 16 ==> vEntropy[i] == 0
    ensures |vWord| == 12 && (forall k :: 0 <= k < 11 ==> vWord[k] == 0)
    ensures vWord[11] == (H(vEntropy)[0] as bv32) / 16
  {
    CountsAre(16);
    assert |vWord| == WordCount(16) && forall k :: 0 <= k < |vWord| ==> vWord[k] < 2048;
    forall i | 0 <= i < 132 ensures WordBitAt(vWord, i) == (i >= 128 && ByteBit(H(vEntropy)[0], i - 128)) {
      ZeroEntropyBit(vWord, vEntropy, H, i);
    }
    hide *;
    forall k | 0 <= k < 12 ensures vWord[k] == if k < 11 then 0 else (H(vEntropy)[0] as bv32) / 16 {
      if k < 11 {
        ZeroHasNoBits();
        WordOfBits(vWord, k, 0);
      } else {
        WordOfBits(vWord, k, H(vEntropy)[0]);
      }
    }
  }

  lemma ZeroHasNoBits()
    ensures (forall t :: 0 <= t < 8 ==> !ByteBit(0, t)) && (0 as byte as bv32) / 16 == 0
  {
  }

  lemma {:induction false} ZeroEntropyBit(vWord: seq<bv32>, vEntropy: seq<byte>, H: seq<byte> -> Hash, i: nat)
    requires Encodes(vWord, vEntropy, H) && |vEntropy| == 16 && (forall j :: 0 <= j < 16 ==> vEntropy[j] == 0)
    requires i < 132
    ensures |vWord| == 12 && WordBitAt(vWord, i) == (i >= 128 && ByteBit(H(vEntropy)[0], i - 128))
  {
    CountsAre(16);
    assert BitAt(vEntropy + H(vEntropy), i) == ByteBit((vEntropy + H(vEntropy))[i / 8], i % 8);
    if i < 128 {
      assert (vEntropy + H(vEntropy))[i / 8] == 0;
    } else {
      assert i / 8 == 16 && i % 8 == i - 128;
    }
  }

  lemma {:induction false} WordOfBits(vWord: seq<bv32>, k: nat, b: byte)
    requires k < |vWord| && vWord[k] < 2048
    requires forall i :: 11 * k <= i < 11 * k + 11 ==>
             WordBitAt(vWord, i) == (i >= 11 * k + 7 && ByteBit(b, i - 11 * k - 7))
    ensures vWord[k] == (b as bv32) / 16
  {
    hide WordBit, ByteBit;
    forall t | 0 <= t < 11 ensures WordBit(vWord[k], t) == (t >= 7 && ByteBit(b, t - 7)) {
      assert (11 * k + t) / 11 == k && (11 * k + t) % 11 == t;
      assert WordBitAt(vWord, 11 * k + t) == (t >= 7 && ByteBit(b, t - 7));
    }
    WordBitsDetermine(vWord[k], b);
  }
}
