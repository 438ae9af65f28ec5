/** The compact form of a number: its size in bytes and its three leading bytes. */
module CompactTargets {
  import opened Arithmetic

  function Pow256(n: nat): (r: nat)
    ensures r >= 1
  {
    if n == 0 then 1 else 256 * Pow256(n - 1)
  }

  lemma {:induction false} Pow256Add(a: nat, b: nat)
    ensures Pow256(a + b) == Pow256(a) * Pow256(b)
    decreases b
  {
    if b > 0 {
      Pow256Add(a, b - 1);
      Regroup(Pow256(a), Pow256(b - 1));
    }
  }

  lemma {:induction false} Regroup(a: nat, b: nat)
    ensures 256 * (a * b) == a * (256 * b)
  {
  }

  // ----- the byte form of a number -----

  /** The length of the shortest big-endian form whose top bit is free for a sign. */
  function Size(x: nat): nat {
    if x == 0 then 0 else if x < 128 then 1 else if x < 256 then 2 else 1 + Size(x / 256)
  }

  /** The n low bytes, most significant one first. */
  function BytesOf(x: nat, n: nat): (b: seq<nat>)
    ensures |b| == n
  {
    if n == 0 then [] else BytesOf(x / 256, n - 1) + [x % 256]
  }

  function ValueOf(b: seq<nat>): nat {
    if b == [] then 0 else ValueOf(b[..|b| - 1]) * 256 + b[|b| - 1]
  }

  /** A number with that many bytes, the top bit being free, and no fewer. */
  lemma {:induction false} SizeBounds(x: nat)
    requires x > 0
    ensures Size(x) >= 1 && x < 128 * Pow256(Size(x) - 1)
    ensures Size(x) >= 2 ==> x >= 128 * Pow256(Size(x) - 2)
  {
    if x >= 256 {
      SizeBounds(x / 256);
      var n := Size(x / 256);
      assert Pow256(n) == 256 * Pow256(n - 1);
      if n >= 2 {
        assert Pow256(n - 1) == 256 * Pow256(n - 2);
      }
    } else {
      assert Pow256(0) == 1 && Pow256(1) == 256;
    }
  }

  /** The size is determined by these bounds. */
  lemma {:induction false} SizeUnique(x: nat, n: nat)
    requires x > 0 && n >= 1 && x < 128 * Pow256(n - 1) && (n >= 2 ==> x >= 128 * Pow256(n - 2))
    ensures Size(x) == n
  {
    SizeBounds(x);
    var m := Size(x);
    if m < n {
      Pow256Monotone(m - 1, n - 2);
    } else if n < m {
      Pow256Monotone(n - 1, m - 2);
    }
  }

  lemma {:induction false} Pow256Monotone(a: nat, b: nat)
    requires a <= b
    ensures Pow256(a) <= Pow256(b)
    decreases b
  {
    if a < b {
      Pow256Monotone(a, b - 1);
    }
  }

  /** The leading k of n bytes. */
  lemma {:induction false} LeadingBytes(x: nat, n: nat, k: nat)
    requires k <= n
    ensures BytesOf(x, n)[..k] == BytesOf(x / Pow256(n - k), k)
    decreases n
  {
    if k < n {
      LeadingBytes(x / 256, n - 1, k);
      assert BytesOf(x, n)[..k] == BytesOf(x / 256, n - 1)[..k];
      DivDiv(x, 256, Pow256(n - 1 - k));
    } else {
      assert x / 1 == x;
    }
  }

  lemma {:induction false} DivDiv(x: nat, a: nat, b: nat)
    requires a > 0 && b > 0
    ensures x / a / b == x / (a * b)
  {
    var q, r := x / a / b, x / a % b;
    assert x / a == b * q + r;
    assert x == a * (x / a) + x % a;
    assert a * (b * q + r) == (a * b) * q + a * r;
    assert a * r <= a * (b - 1) by {
      MulLe(a, r, b - 1);
    }
    assert a * (b - 1) == a * b - a;
    assert a * b > 0 by {
      MulLe(a, 1, b);
    }
    DivModUnique(x, a * b, q, a * r + x % a);
  }

  lemma {:induction false} MulLe(a: nat, b: int, c: int)
    requires b <= c
    ensures a * b <= a * c
  {
    assert a * (c - b) >= 0;
  }

  // ----- the compact form, by arithmetic -----

  /** The three leading bytes of x, as a number; shorter numbers are padded below. */
  function Mantissa(x: nat): nat {
    var n := Size(x);
    if n >= 3 then x / Pow256(n - 3) else x * Pow256(3 - n)
  }

  function Encode(x: nat): nat {
    Size(x) * 0x100_0000 + Mantissa(x)
  }

  /** The number that a compact form stands for; the mantissa's top bit is a sign. */
  function Decode(c: nat): int {
    var magnitude: int := Magnitude(c);
    if c >= 0x100_0000 && c % 0x100_0000 >= 0x80_0000 then -magnitude else magnitude
  }

  /** Its size without the sign. */
  function Magnitude(c: nat): nat {
    var n, m := c / 0x100_0000, c % 0x80_0000;
    if n >= 3 then m * Pow256(n - 3) else m / Pow256(3 - n)
  }

  /** The number that is left of x when only its three leading bytes are kept. */
  function Cut(x: nat): nat {
    var n := Size(x);
    if n >= 3 then x / Pow256(n - 3) * Pow256(n - 3) else x
  }

  lemma {:induction false} MantissaBound(x: nat)
    ensures Mantissa(x) < 0x80_0000
    ensures x > 0 ==> Mantissa(x) >= 0x8000
  {
    var n := Size(x);
    assert Pow256(0) == 1 && Pow256(1) == 256 && Pow256(2) == 65536 && Pow256(3) == 0x100_0000;
    if x > 0 {
      SizeBounds(x);
      if n >= 3 {
        var d := Pow256(n - 3);
        Pow256Add(2, n - 3);
        Pow256Add(1, n - 3);
        QuotientBounds(x, d);
      }
    }
  }

  lemma {:induction false} QuotientBounds(x: nat, d: nat)
    requires d > 0 && x < 128 * (65536 * d) && x >= 128 * (256 * d)
    ensures 0x8000 <= x / d < 0x80_0000
  {
    var q := x / d;
    assert x == d * q + x % d;
    if q >= 0x80_0000 {
      MulLe(d, 0x80_0000, q);
    }
    if q < 0x8000 {
      MulLe(d, q, 0x7fff);
    }
  }

  // ----- what survives the compact form -----

  lemma {:induction false} EncodeParts(x: nat)
    ensures Encode(x) / 0x100_0000 == Size(x) && Encode(x) % 0x80_0000 == Mantissa(x) &&
            Encode(x) % 0x100_0000 < 0x80_0000
  {
    MantissaBound(x);
    hide Mantissa, Size;
    DivModUnique(Encode(x), 0x100_0000, Size(x), Mantissa(x));
    DivModUnique(Encode(x), 0x80_0000, 2 * Size(x), Mantissa(x));
  }

  /** Decoding an encoding keeps the three leading bytes. */
  lemma {:induction false} DecodeEncode(x: nat)
    ensures Decode(Encode(x)) == Cut(x)
  {
    hide Pow256, Size;
    EncodeParts(x);
    var n := Size(x);
    if n < 3 {
      DivModUnique(x * Pow256(3 - n), Pow256(3 - n), x, 0);
    }
  }

  /** What is lost is less than one part in 32768. */
  lemma {:induction false} CutLoss(x: nat)
    requires x > 0
    ensures 0 < Cut(x) <= x && (x - Cut(x)) * 0x8000 < x
  {
    var n := Size(x);
    SizeBounds(x);
    if n >= 3 {
      assert Pow256(n - 2) == 256 * Pow256(n - 3);
      hide Pow256, Size;
      RemainderIsSmall(x, Pow256(n - 3));
    }
  }

  lemma {:induction false} RemainderIsSmall(x: nat, d: nat)
    requires d > 0 && x >= 128 * (256 * d)
    ensures 0 < x / d * d <= x && (x - x / d * d) * 0x8000 < x
  {
    var q, r := x / d, x % d;
    assert x == d * q + r && d * q == q * d;
  }

  /** The whole guarantee: an encoding decodes to a number that is no larger, by less than one
      part in 32768. */
  lemma {:induction false} EncodingLosesLittle(x: nat)
    ensures 0 <= Decode(Encode(x)) <= x
    ensures x > 0 ==> Decode(Encode(x)) > 0 && (x - Decode(Encode(x))) * 0x8000 < x
  {
    DecodeEncode(x);
    if x > 0 {
      CutLoss(x);
    }
  }

  lemma {:induction false} SizeMonotone(x: nat, y: nat)
    requires x <= y
    ensures Size(x) <= Size(y)
    decreases y
  {
    if x >= 256 {
      SizeMonotone(x / 256, y / 256);
      SizeBounds(x / 256);
    } else if y >= 256 {
      SizeBounds(y / 256);
    }
  }

  lemma {:induction false} DivMonotone(x: nat, y: nat, d: nat)
    requires x <= y && d > 0
    ensures x / d <= y / d
  {
    var k := x / d - y / d;
    assert y == d * (y / d) + y % d && x == d * (x / d) + x % d;
    assert d * (x / d) == d * (y / d) + d * k;
    MulSign(d, k);
  }

  /** Larger numbers have encodings that are not smaller. */
  lemma {:induction false} EncodeMonotone(x: nat, y: nat)
    requires x <= y
    ensures Encode(x) <= Encode(y)
  {
    SizeMonotone(x, y);
    MantissaBound(x);
    if Size(x) == Size(y) {
      var n := Size(x);
      if n >= 3 {
        DivMonotone(x, y, Pow256(n - 3));
      } else {
        MulLe(Pow256(3 - n), x, y);
      }
    }
  }

  /** Encoding what an encoding stands for gives the encoding back. */
  lemma {:induction false} EncodeIdempotent(x: nat)
    ensures Encode(Cut(x)) == Encode(x)
    ensures Decode(Encode(x)) >= 0 && Encode(Decode(Encode(x))) == Encode(x)
  {
    DecodeEncode(x);
    var n := Size(x);
    if n >= 3 {
      var d, q := Pow256(n - 3), x / Pow256(n - 3);
      SizeBounds(x);
      MantissaBound(x);
      assert Pow256(n - 2) == 256 * d && Pow256(n - 1) == 256 * Pow256(n - 2);
      hide Pow256, Size;
      ProductBounds(q, d);
      SizeUnique(q * d, n);
      DivModUnique(q * d, d, q, 0);
    }
  }

  lemma {:induction false} ProductBounds(q: nat, d: nat)
    requires d > 0 && 0x8000 <= q < 0x80_0000
    ensures 128 * (256 * d) <= q * d < 128 * (256 * (256 * d)) && d * q == q * d
  {
    MulLe(d, 0x8000, q);
    MulLe(d, q, 0x7f_ffff);
  }

  /** Two encodings differ exactly when the smaller number is below what is left of the larger. */
  lemma {:induction false} EncodeBelow(x: nat, y: nat)
    ensures Encode(x) < Encode(y) <==> x < Cut(y)
  {
    EncodeIdempotent(y);
    DecodeEncode(x);
    DecodeEncode(y);
    EncodingLosesLittle(x);
    hide Encode, Decode, Cut;
    if x < Cut(y) {
      EncodeMonotone(x, Cut(y));
    } else {
      EncodeMonotone(Cut(y), x);
    }
  }

  /** One more byte below loses nothing either. */
  lemma {:induction false} CutShifted(x: nat)
    requires x > 0 && Cut(x) == x
    ensures 256 * x > 0 && Cut(256 * x) == 256 * x
  {
    var n := Size(x);
    assert 256 * x / 256 == x;
    assert Size(256 * x) == 1 + n;
    if n >= 3 {
      var d := Pow256(n - 3);
      assert Pow256(n - 2) == 256 * d;
      hide Pow256, Size;
      DivModUnique(256 * x, 256 * d, x / d, 0);
    } else {
      assert Pow256(0) == 1;
    }
  }

  lemma {:induction false} AtLeastTwoBytes(n: nat)
    ensures n >= 2 ==> Pow256(n) >= 65536
  {
    assert Pow256(0) == 1 && Pow256(1) == 256 && Pow256(2) == 65536;
    if n >= 2 {
      Pow256Monotone(2, n);
    }
  }

  lemma {:induction false} CutOfShort(m: nat, k: nat)
    requires 0 < m < 0x80_0000
    ensures m * Pow256(k) > 0 && Cut(m * Pow256(k)) == m * Pow256(k)
    decreases k
  {
    if k == 0 {
      assert Pow256(0) == 1 && Pow256(1) == 256 && Pow256(2) == 65536;
      SizeBounds(m);
      AtLeastTwoBytes(if Size(m) >= 2 then Size(m) - 2 else 0);
      assert Size(m) <= 3;
      assert Cut(m) == m;
    } else {
      CutOfShort(m, k - 1);
      CutShifted(m * Pow256(k - 1));
      assert m * Pow256(k) == 256 * (m * Pow256(k - 1));
    }
  }

  /** What a compact form stands for has no more than three leading bytes. */
  lemma {:induction false} CutOfDecode(c: nat)
    requires Decode(c) > 0
    ensures Cut(Decode(c)) == Decode(c)
  {
    var n, m := c / 0x100_0000, c % 0x80_0000;
    if n >= 3 {
      CutOfShort(m, n - 3);
    } else {
      var d := Pow256(3 - n);
      QuotientIsSmaller(m, d);
      CutOfShort(m / d, 0);
      assert Pow256(0) == 1;
    }
  }

  lemma {:induction false} QuotientIsSmaller(m: nat, d: nat)
    requires d > 0
    ensures m / d <= m
  {
    var q := m / d;
    assert m == d * q + m % d;
    MulLe(q, 1, d);
  }

  // ----- the methods on bytes -----

  /** Up to three bytes, read as a number. */
  lemma {:induction false} ShortBytes(x: nat, n: nat)
    requires n <= 3 && x < Pow256(n)
    ensures n == 1 ==> BytesOf(x, n)[0] == x
    ensures n == 2 ==> BytesOf(x, n)[0] * 256 + BytesOf(x, n)[1] == x
    ensures n == 3 ==> BytesOf(x, n)[0] * 65536 + BytesOf(x, n)[1] * 256 + BytesOf(x, n)[2] == x
  {
    assert Pow256(0) == 1 && Pow256(1) == 256 && Pow256(2) == 65536 && Pow256(3) == 0x100_0000;
    if n == 2 {
      assert BytesOf(x, 2) == BytesOf(x / 256, 1) + [x % 256];
      assert BytesOf(x / 256, 1) == BytesOf(x / 256 / 256, 0) + [x / 256 % 256];
    } else if n == 3 {
      assert BytesOf(x, 3) == BytesOf(x / 256, 2) + [x % 256];
      assert BytesOf(x / 256, 2) == BytesOf(x / 256 / 256, 1) + [x / 256 % 256];
      assert BytesOf(x / 256 / 256, 1) == BytesOf(x / 256 / 256 / 256, 0) + [x / 256 / 256 % 256];
    }
  }

  lemma {:induction false} LeadingThree(x: nat)
    requires Size(x) >= 3
    ensures var b := BytesOf(x, Size(x));
            b[0] * 65536 + b[1] * 256 + b[2] == Mantissa(x)
  {
    var n := Size(x);
    LeadingBytes(x, n, 3);
    MantissaBound(x);
    assert Pow256(0) == 1 && Pow256(1) == 256 && Pow256(2) == 65536 && Pow256(3) == 0x100_0000;
    ShortBytes(Mantissa(x), 3);
    var b := BytesOf(x, n);
    assert b[..3][0] == b[0] && b[..3][1] == b[1] && b[..3][2] == b[2];
  }

  /** The compact form of a number that has fewer than 256 bytes. */
  method GetCompact(x: nat) returns (nCompact: nat)
    requires Size(x) < 256
    ensures nCompact == Encode(x) && nCompact < 0x1_0000_0000
  {
    var nSize := Size(x);
    var vch := BytesOf(x, nSize);
    nCompact := nSize * 0x100_0000;
    if nSize >= 1 {
      nCompact := nCompact + vch[0] * 65536;
    }
    if nSize >= 2 {
      nCompact := nCompact + vch[1] * 256;
    }
    if nSize >= 3 {
      nCompact := nCompact + vch[2];
    }
    MantissaBound(x);
    if nSize >= 3 {
      LeadingThree(x);
    } else if nSize > 0 {
      SizeBounds(x);
      ShortSize(x);
    }
  }

  lemma {:induction false} ShortSize(x: nat)
    requires 1 <= Size(x) <= 2
    ensures var b := BytesOf(x, Size(x));
            Mantissa(x) == b[0] * 65536 + if Size(x) == 2 then b[1] * 256 else 0
  {
    assert Pow256(0) == 1 && Pow256(1) == 256 && Pow256(2) == 65536 && Pow256(3) == 0x100_0000;
    SizeBounds(x);
    ShortBytes(x, Size(x));
  }

  lemma {:induction false} ValueOfZeros(b: seq<nat>, k: nat)
    ensures ValueOf(b + seq(k, _ => 0)) == ValueOf(b) * Pow256(k)
    decreases k
  {
    var z := b + seq(k, _ => 0);
    if k == 0 {
      assert z == b;
    } else {
      assert z[..|z| - 1] == b + seq(k - 1, _ => 0) && z[|z| - 1] == 0;
      ValueOfZeros(b, k - 1);
      Regroup(ValueOf(b), Pow256(k - 1));
    }
  }

  lemma {:induction false} ValueOfShort(b: seq<nat>)
    requires |b| <= 3
    ensures |b| == 0 ==> ValueOf(b) == 0
    ensures |b| == 1 ==> ValueOf(b) == b[0]
    ensures |b| == 2 ==> ValueOf(b) == b[0] * 256 + b[1]
    ensures |b| == 3 ==> ValueOf(b) == b[0] * 65536 + b[1] * 256 + b[2]
  {
    if b != [] {
      ValueOfShort(b[..|b| - 1]);
    }
  }

  /** A sign-and-magnitude number from its big-endian bytes, the first bit being the sign. */
  function FromMpi(vch: seq<nat>): int {
    if vch == [] then 0
    else
      var magnitude: int := ValueOf(if vch[0] >= 128 then vch[0 := vch[0] - 128] else vch);
      if vch[0] >= 128 then -magnitude else magnitude
  }

  lemma {:induction false} MpiValue(b: seq<nat>, n: nat, m: nat)
    requires |b| == 3 && b[0] < 128 && b[1] < 256 && b[2] < 256 && m == b[0] * 65536 + b[1] * 256 + b[2]
    ensures n >= 3 ==> ValueOf(b + seq(n - 3, _ => 0)) == m * Pow256(n - 3)
    ensures n < 3 ==> ValueOf(b[..n]) == m / Pow256(3 - n)
  {
    assert Pow256(0) == 1 && Pow256(1) == 256 && Pow256(2) == 65536 && Pow256(3) == 0x100_0000;
    ValueOfShort(b);
    if n >= 3 {
      ValueOfZeros(b, n - 3);
    } else {
      ValueOfShort(b[..n]);
    }
  }

  /** The number a compact form stands for, by way of a byte buffer of the given size. */
  method SetCompact(nCompact: nat) returns (bn: int)
    requires nCompact < 0x1_0000_0000
    ensures bn == Decode(nCompact)
  {
    var nSize := nCompact / 0x100_0000;
    var vch: seq<nat> := seq(nSize, _ => 0);
    if nSize >= 1 {
      vch := vch[0 := nCompact / 65536 % 256];
    }
    if nSize >= 2 {
      vch := vch[1 := nCompact / 256 % 256];
    }
    if nSize >= 3 {
      vch := vch[2 := nCompact % 256];
    }
    bn := FromMpi(vch);
    BufferValue(nCompact, vch);
  }

  lemma {:induction false} BufferValue(c: nat, vch: seq<nat>)
    requires c < 0x1_0000_0000 && |vch| == c / 0x100_0000
    requires |vch| >= 1 ==> vch[0] == c / 65536 % 256
    requires |vch| >= 2 ==> vch[1] == c / 256 % 256
    requires |vch| >= 3 ==> vch[2] == c % 256
    requires forall i :: 3 <= i < |vch| ==> vch[i] == 0
    ensures FromMpi(vch) == Decode(c)
  {
    LowBits(c);
    hide ValueOf, Pow256, Magnitude;
    if vch == [] {
      NoBuffer(c);
    } else {
      BufferMagnitude(c, vch);
    }
  }

  lemma {:induction false} NoBuffer(c: nat)
    requires c < 0x100_0000
    ensures Magnitude(c) == 0
  {
    assert Pow256(3) == 256 * Pow256(2) && Pow256(2) == 256 * Pow256(1) && Pow256(1) == 256 * Pow256(0);
    DivModUnique(c % 0x80_0000, 0x100_0000, 0, c % 0x80_0000);
  }

  lemma {:induction false} BufferMagnitude(c: nat, vch: seq<nat>)
    requires c < 0x1_0000_0000 && |vch| == c / 0x100_0000 && vch != []
    requires vch[0] == c / 65536 % 256
    requires |vch| >= 2 ==> vch[1] == c / 256 % 256
    requires |vch| >= 3 ==> vch[2] == c % 256
    requires forall i :: 3 <= i < |vch| ==> vch[i] == 0
    ensures ValueOf(if vch[0] >= 128 then vch[0 := vch[0] - 128] else vch) == Magnitude(c)
  {
    hide ValueOf, Pow256;
    var b: seq<nat> := [vch[0] % 128, c / 256 % 256, c % 256];
    LowBits(c);
    MpiValue(b, |vch|, c % 0x80_0000);
    BufferShape(vch, vch[0], b);
  }

  /** The buffer without its sign bit. */
  lemma {:induction false} BufferShape(vch: seq<nat>, first: nat, b: seq<nat>)
    requires vch != [] && vch[0] == first < 256 && |b| == 3 && b[0] == first % 128
    requires |vch| >= 2 ==> vch[1] == b[1]
    requires |vch| >= 3 ==> vch[2] == b[2]
    requires forall i :: 3 <= i < |vch| ==> vch[i] == 0
    ensures var v := if first >= 128 then vch[0 := first - 128] else vch;
            v == if |vch| >= 3 then b + seq(|vch| - 3, _ => 0) else b[..|vch|]
  {
  }

  /** The bytes and the sign of the low 24 bits. */
  lemma {:induction false} LowBits(c: nat)
    ensures c % 0x80_0000 == c / 65536 % 256 % 128 * 65536 + c / 256 % 256 * 256 + c % 256
    ensures c / 65536 % 256 >= 128 <==> c % 0x100_0000 >= 0x80_0000
  {
    var a := c / 256;
    var b := a / 256;
    DivDiv(c, 256, 256);
    var r0, r1, r2 := c % 256, a % 256, b % 256;
    var low := r2 * 65536 + r1 * 256 + r0;
    DivModUnique(c, 0x100_0000, b / 256, low);
    DivModUnique(c, 0x80_0000, 2 * (b / 256) + r2 / 128, r2 % 128 * 65536 + r1 * 256 + r0);
  }

  // ----- written out -----

  /** The compact form has the number of bytes above 24 bits that hold the three leading bytes. */
  lemma {:induction false} EncodeExactly(x: nat)
    ensures var n, m := Encode(x) / 16777216, Encode(x) % 16777216;
            && n == Size(x) && m < 8388608
            && (n >= 3 ==> m * Pow256(n - 3) <= x < (m + 1) * Pow256(n - 3))
            && (n < 3 ==> m == x * Pow256(3 - n))
  {
    hide *;
    MantissaBound(x);
    PartsAre(x);
    DivModUnique(Encode(x), 16777216, Size(x), Mantissa(x));
    var n := Size(x);
    if n >= 3 {
      WholePart(x, Pow256(n - 3));
    }
  }

  lemma PartsAre(x: nat)
    ensures Encode(x) == 16777216 * Size(x) + Mantissa(x)
    ensures Size(x) >= 3 ==> Mantissa(x) == x / Pow256(Size(x) - 3)
    ensures Size(x) < 3 ==> Mantissa(x) == x * Pow256(3 - Size(x))
  {
    hide Size, Pow256;
  }

  lemma WholePart(x: nat, d: nat)
    requires d > 0
    ensures x / d * d <= x < (x / d + 1) * d
  {
    assert x == d * (x / d) + x % d;
  }

  /** Some compact forms of both kinds, and what they stand for. */
  lemma {:induction false} CompactExamples()
    ensures Encode(0) == 0 && Encode(0x12) == 0x0112_0000 && Encode(0x80) == 0x0200_8000
    ensures Encode(0x1234_5678) == 0x0412_3456
    ensures Decode(0x0412_3456) == 0x1234_5600 && Decode(0x0492_3456) == -0x1234_5600
    ensures Decode(0x0112_3456) == 0x12 && Decode(0x0200_8000) == 0x80 && Decode(0x0500_9234) == 0x9234_0000
  {
    SmallPowers();
    SmallSizes();
    hide Pow256, Size;
  }

  lemma SmallPowers()
    ensures Pow256(0) == 1 && Pow256(1) == 256 && Pow256(2) == 65536 && Pow256(3) == 0x100_0000
  {
    assert Pow256(3) == 256 * Pow256(2) && Pow256(2) == 256 * Pow256(1) && Pow256(1) == 256 * Pow256(0);
  }

  lemma SmallSizes()
    ensures Size(0) == 0 && Size(0x12) == 1 && Size(0x80) == 2 && Size(0x1234_5678) == 4
  {
    assert Size(0x1234_5678) == 1 + Size(0x12_3456) && Size(0x12_3456) == 1 + Size(0x1234) &&
           Size(0x1234) == 1 + Size(0x12);
  }
}
