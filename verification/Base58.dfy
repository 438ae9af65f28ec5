/** Base58: a number written in another base, with leading zeros carried over one by one. */
module Base58 {
  import opened Arithmetic
  import opened Basics

  // ----- numbers in any base -----

  /** The digits of n, least significant one first, without zeros at the end. */
  function Digits(base: nat, n: nat): seq<nat>
    requires base >= 2
  {
    if n == 0 then [] else [n % base] + Digits(base, n / base)
  }

  function ValueOf(base: nat, d: seq<nat>): nat {
    if d == [] then 0 else d[0] + base * ValueOf(base, d[1..])
  }

  ghost predicate AreDigits(base: nat, d: seq<nat>) {
    forall i :: 0 <= i < |d| ==> d[i] < base
  }

  lemma {:induction false} DigitsAreDigits(base: nat, n: nat)
    requires base >= 2
    ensures AreDigits(base, Digits(base, n)) && (n > 0 ==> Digits(base, n)[|Digits(base, n)| - 1] != 0)
    decreases n
  {
    if n > 0 {
      Smaller(base, n);
      DigitsAreDigits(base, n / base);
      var rest := Digits(base, n / base);
      assert Digits(base, n) == [n % base] + rest;
    }
  }

  lemma {:induction false} Smaller(base: nat, n: nat)
    requires base >= 2 && n > 0
    ensures n / base < n
    ensures n / base == 0 ==> n % base == n
  {
    assert n == base * (n / base) + n % base;
    if n / base >= 1 {
      MulGrows(base, n / base);
    }
  }

  lemma {:induction false} MulGrows(base: nat, q: nat)
    requires base >= 2 && q >= 1
    ensures base * q > q
  {
  }

  lemma {:induction false} ValueOfDigits(base: nat, n: nat)
    requires base >= 2
    ensures ValueOf(base, Digits(base, n)) == n
    decreases n
  {
    if n > 0 {
      Smaller(base, n);
      ValueOfDigits(base, n / base);
      var rest := Digits(base, n / base);
      assert Digits(base, n) == [n % base] + rest && Digits(base, n)[1..] == rest;
      assert n == base * (n / base) + n % base;
    }
  }

  /** The digits of a value are the digits it was formed from, when these do not end in zero. */
  lemma {:induction false} DigitsOfValue(base: nat, d: seq<nat>)
    requires base >= 2 && AreDigits(base, d) && (d != [] ==> d[|d| - 1] != 0)
    ensures Digits(base, ValueOf(base, d)) == d
    ensures d != [] ==> ValueOf(base, d) > 0
    decreases |d|
  {
    if d != [] {
      var rest := d[1..];
      assert AreDigits(base, rest);
      DigitsOfValue(base, rest);
      var n := ValueOf(base, d);
      DivModUnique(n, base, ValueOf(base, rest), d[0]);
      if rest != [] {
        MulGrows(base, ValueOf(base, rest));
      }
    }
  }

  function Zeros(n: nat): (z: seq<nat>)
    ensures |z| == n
  {
    seq(n, _ => 0)
  }

  lemma {:induction false} ValueOfZeros(base: nat, d: seq<nat>, n: nat)
    ensures ValueOf(base, d + Zeros(n)) == ValueOf(base, d)
    decreases |d| + n
  {
    var z := d + Zeros(n);
    if d != [] {
      assert z[1..] == d[1..] + Zeros(n);
      ValueOfZeros(base, d[1..], n);
    } else if n > 0 {
      assert z[1..] == [] + Zeros(n - 1);
      ValueOfZeros(base, [], n - 1);
    } else {
      assert z == [];
    }
  }

  /** The number of zeros at the beginning. */
  function LeadingZeros(d: seq<nat>): (z: nat)
    ensures z <= |d| && (forall i :: 0 <= i < z ==> d[i] == 0) && (z < |d| ==> d[z] != 0)
  {
    if d == [] || d[0] != 0 then 0 else 1 + LeadingZeros(d[1..])
  }

  /** Most significant digits first: the same number in another base, with as many leading
      zeros. */
  function Rebase(from: nat, to: nat, d: seq<nat>): seq<nat>
    requires to >= 2
  {
    Zeros(LeadingZeros(d)) + Reverse(Digits(to, ValueOf(from, Reverse(d))))
  }

  /** A sequence is its leading zeros followed by the rest. */
  lemma {:induction false} SplitZeros(d: seq<nat>)
    ensures var z := LeadingZeros(d);
            && d == Zeros(z) + d[z..] && (d[z..] != [] ==> d[z..][0] != 0)
            && Reverse(d) == Reverse(d[z..]) + Zeros(z)
  {
  }

  lemma {:induction false} ReverseDigits(base: nat, s: seq<nat>)
    requires AreDigits(base, s)
    ensures AreDigits(base, Reverse(s)) && Reverse(Reverse(s)) == s
  {
  }

  lemma {:induction false} WithoutZeros(base: nat, rest: seq<nat>)
    requires base >= 2 && AreDigits(base, rest) && (rest != [] ==> rest[0] != 0)
    ensures Reverse(Digits(base, ValueOf(base, Reverse(rest)))) == rest
  {
    ReverseDigits(base, rest);
    DigitsOfValue(base, Reverse(rest));
  }

  /** A digit sequence is its leading zeros followed by the digits of its value. */
  lemma {:induction false} ZerosAndDigits(base: nat, d: seq<nat>)
    requires base >= 2 && AreDigits(base, d)
    ensures d == Zeros(LeadingZeros(d)) + Reverse(Digits(base, ValueOf(base, Reverse(d))))
  {
    SplitZeros(d);
    var z := LeadingZeros(d);
    hide Digits, ValueOf, LeadingZeros, Reverse;
    ValueOfZeros(base, Reverse(d[z..]), z);
    WithoutZeros(base, d[z..]);
  }

  lemma {:induction false} LeadingZerosAre(d: seq<nat>, z: nat)
    requires z <= |d| && (forall i :: 0 <= i < z ==> d[i] == 0) && (z < |d| ==> d[z] != 0)
    ensures LeadingZeros(d) == z
    decreases |d|
  {
    if z > 0 {
      LeadingZerosAre(d[1..], z - 1);
    }
  }

  /** Changing the base and back, in any two bases, gives the same digits, and all of them. */
  lemma {:induction false} RebaseRoundTrip(from: nat, to: nat, d: seq<nat>)
    requires from >= 2 && to >= 2 && AreDigits(from, d)
    ensures AreDigits(to, Rebase(from, to, d)) && Rebase(to, from, Rebase(from, to, d)) == d
  {
    var z, n := LeadingZeros(d), ValueOf(from, Reverse(d));
    var e := Digits(to, n);
    DigitsAreDigits(to, n);
    LeadingZerosAre(Zeros(z) + Reverse(e), z);
    assert Reverse(Zeros(z) + Reverse(e)) == e + Zeros(z);
    ValueOfZeros(to, e, z);
    ValueOfDigits(to, n);
    ZerosAndDigits(from, d);
  }

  // ----- the alphabet -----

  const ALPHABET := "123456789ABCDEFGH" + "JKLMNPQRSTUVWXYZ" + "abcdefghijkmnopqrstuvwxyz"

  /** The character of a digit, by the runs the alphabet is made of. */
  function InRun(k: nat): int
    requires k < 58
  {
    if k < 9 then 49 + k else if k < 17 then 65 + k - 9 else if k < 22 then 74 + k - 17 else if k < 33 then 80 + k - 22
    else if k < 44 then 97 + k - 33 else 109 + k - 44
  }

  lemma {:induction false} AlphabetRuns(k: nat)
    requires k < 58
    ensures |ALPHABET| == 58 && ALPHABET[k] as int == InRun(k)
  {
    assert k == 0 || k == 1 || k == 2 || k == 3 || k == 4 || k == 5 || k == 6 || k == 7 || k == 8 || k == 9 ||
           k == 10 || k == 11 || k == 12 || k == 13 || k == 14 || k == 15 || k == 16 || k == 17 || k == 18 || k == 19 ||
           k == 20 || k == 21 || k == 22 || k == 23 || k == 24 || k == 25 || k == 26 || k == 27 || k == 28 || k == 29 ||
             k == 30 || k == 31 || k == 32 || k == 33 || k == 34 || k == 35 || k == 36 || k == 37 || k == 38 ||
               k == 39 ||
           k == 40 || k == 41 || k == 42 || k == 43 || k == 44 || k == 45 || k == 46 || k == 47 || k == 48 || k == 49 ||
             k == 50 || k == 51 || k == 52 || k == 53 || k == 54 || k == 55 || k == 56 || k == 57;
  }

  /** Where a character is in the alphabet. */
  function Find(c: char, i: nat): (r: Option<nat>)
    requires i <= |ALPHABET|
    ensures r.Some? ==> i <= r.value < |ALPHABET| && ALPHABET[r.value] == c
    ensures r.None? ==> forall k :: i <= k < |ALPHABET| ==> ALPHABET[k] != c
    decreases |ALPHABET| - i
  {
    if i == |ALPHABET| then None else if ALPHABET[i] == c then Some(i) else Find(c, i + 1)
  }

  /** No character is in the alphabet twice. */
  lemma {:induction false} AlphabetDistinct(i: nat, j: nat)
    requires i < j < 58
    ensures |ALPHABET| == 58 && ALPHABET[i] != ALPHABET[j]
  {
    AlphabetRuns(i);
    AlphabetRuns(j);
    hide ALPHABET;
  }

  lemma {:induction false} FindsDigit(k: nat)
    requires k < 58
    ensures |ALPHABET| == 58 && Find(ALPHABET[k], 0) == Some(k)
  {
    AlphabetRuns(k);
    var r := Find(ALPHABET[k], 0).value;
    if r < k {
      AlphabetDistinct(r, k);
    } else if k < r {
      AlphabetDistinct(k, r);
    }
  }

  predicate IsSpace(c: char) {
    c == ' ' || c == '\t' || c == '\n' || c == '\U{000B}' || c == '\U{000C}' || c == '\r'
  }

  lemma {:induction false} SpaceIsNoDigit(c: char)
    requires IsSpace(c)
    ensures Find(c, 0).None?
  {
    if Find(c, 0).Some? {
      AlphabetRuns(Find(c, 0).value);
    }
  }

  // ----- text -----

  ghost predicate IsText(s: string) {
    forall i :: 0 <= i < |s| ==> Find(s[i], 0).Some?
  }

  function DigitOf(c: char): nat {
    var r := Find(c, 0);
    if r.Some? then r.value else 0
  }

  function DigitsOf(s: string): (d: seq<nat>)
    ensures |d| == |s| && forall i :: 0 <= i < |s| ==> d[i] == DigitOf(s[i])
  {
    seq(|s|, i requires 0 <= i < |s| => DigitOf(s[i]))
  }

  function TextOf(d: seq<nat>): (s: string)
    ensures |s| == |d|
  {
    seq(|d|, i requires 0 <= i < |d| => if d[i] < |ALPHABET| then ALPHABET[d[i]] else '?')
  }

  lemma {:induction false} TextRoundTrip(d: seq<nat>)
    requires AreDigits(58, d)
    ensures IsText(TextOf(d)) && DigitsOf(TextOf(d)) == d
  {
    forall i | 0 <= i < |d| ensures Find(TextOf(d)[i], 0) == Some(d[i]) {
      FindsDigit(d[i]);
    }
  }

  lemma {:induction false} DigitsRoundTrip(s: string)
    requires IsText(s)
    ensures AreDigits(58, DigitsOf(s)) && TextOf(DigitsOf(s)) == s
  {
    AlphabetRuns(0);
  }

  // ----- encoding -----

  ghost predicate AreBytes(v: seq<nat>) {
    AreDigits(256, v)
  }

  /** Divides by 58 until nothing is left, least significant digit first. */
  method DivideOut(n: nat) returns (str: string)
    ensures str == TextOf(Digits(58, n))
  {
    str := "";
    var bn := n;
    assert TextOf([]) == [];
    while bn > 0
      invariant TextOf(Digits(58, n)) == str + TextOf(Digits(58, bn))
    {
      Smaller(58, bn);
      TextStep(bn);
      var c := bn % 58;
      bn := bn / 58;
      str := str + [ALPHABET[c]];
      hide ALPHABET, Digits;
    }
  }

  lemma {:induction false} TextStep(n: nat)
    requires n > 0
    ensures |ALPHABET| == 58 && TextOf(Digits(58, n)) == [ALPHABET[n % 58]] + TextOf(Digits(58, n / 58))
  {
    AlphabetRuns(0);
    hide ALPHABET;
  }

  lemma {:induction false} TextOfReverse(a: seq<nat>)
    ensures TextOf(Reverse(a)) == Reverse(TextOf(a))
  {
  }

  /** The text of a byte string: its number in base 58 with a 1 for every leading zero byte. */
  method EncodeBase58(v: seq<nat>) returns (str: string)
    requires AreBytes(v)
    ensures str == TextOf(Rebase(256, 58, v))
  {
    hide ALPHABET, Digits, ValueOf, Find;
    var n := ValueOf(256, Reverse(v));
    str := DivideOut(n);
    AlphabetStart();
    var p := 0;
    while p < |v| && v[p] == 0
      invariant p <= LeadingZeros(v) && str == TextOf(Digits(58, n) + Zeros(p))
    {
      assert TextOf(Digits(58, n) + Zeros(p + 1)) == TextOf(Digits(58, n) + Zeros(p)) + [ALPHABET[0]];
      str := str + [ALPHABET[0]];
      p := p + 1;
    }
    TextOfReverse(Digits(58, n) + Zeros(p));
    assert Reverse(Digits(58, n) + Zeros(p)) == Zeros(p) + Reverse(Digits(58, n));
    str := Reverse(str);
  }

  lemma {:induction false} AlphabetStart()
    ensures |ALPHABET| == 58 && ALPHABET[0] == '1' && Find('1', 0) == Some(0)
  {
    AlphabetRuns(0);
  }

  // ----- decoding -----

  /** White space, then characters of the alphabet, then white space. */
  ghost predicate Shape(s: string, i: nat, j: nat) {
    && i <= j <= |s|
    && (forall k :: 0 <= k < i ==> IsSpace(s[k]))
    && (forall k :: i <= k < j ==> Find(s[k], 0).Some?)
    && forall k :: j <= k < |s| ==> IsSpace(s[k])
  }

  lemma {:induction false} NonSpaceInside(s: string, i: nat, j: nat, q: nat)
    requires Shape(s, i, j) && q < |s| && !IsSpace(s[q])
    ensures i <= q < j && Find(s[q], 0).Some?
  {
  }

  /** After the first white space, the characters and the white space that follow, something
      else comes: no reading of the text has the right shape. */
  lemma {:induction false} NoShape(s: string, i: nat, p: nat, q: nat, i': nat, j': nat)
    requires i <= p <= q < |s| && !IsSpace(s[q]) && !IsSpace(s[i]) && Find(s[p], 0).None?
    ensures !Shape(s, i', j')
  {
    hide ALPHABET, Find, IsSpace;
    if Shape(s, i', j') {
      NonSpaceInside(s, i', j', q);
      NonSpaceInside(s, i', j', i);
    }
  }

  lemma {:induction false} Horner(base: nat, d: seq<nat>, x: nat)
    ensures ValueOf(base, Reverse(d + [x])) == ValueOf(base, Reverse(d)) * base + x
  {
    assert Reverse(d + [x]) == [x] + Reverse(d);
  }

  /** The little-endian bytes of a number, with a zero byte when the top bit would be taken for
      a sign. */
  function SignedBytes(n: nat): seq<nat> {
    var v := Digits(256, n);
    if v != [] && v[|v| - 1] >= 128 then v + [0] else v
  }

  /** Without the sign byte, if there is one. */
  function Trimmed(v: seq<nat>): seq<nat> {
    if |v| >= 2 && v[|v| - 1] == 0 && v[|v| - 2] >= 128 then v[..|v| - 1] else v
  }

  lemma {:induction false} TrimmedBytes(n: nat)
    ensures Trimmed(SignedBytes(n)) == Digits(256, n)
  {
    DigitsAreDigits(256, n);
    var v := Digits(256, n);
    hide Digits;
    assert (v + [0])[..|v + [0]| - 1] == v;
  }

  lemma {:induction false} DigitsOfPrefix(s: string, i: nat, p: nat)
    requires i <= p < |s|
    ensures DigitsOf(s[i..p + 1]) == DigitsOf(s[i..p]) + [DigitOf(s[p])]
  {
  }

  lemma {:induction false} OneIsZero(c: char)
    ensures |ALPHABET| == 58 && (c == ALPHABET[0] ==> Find(c, 0) == Some(0) && !IsSpace(c))
    ensures c != ALPHABET[0] && Find(c, 0).Some? ==> DigitOf(c) != 0
  {
    AlphabetStart();
    if IsSpace(c) {
      SpaceIsNoDigit(c);
    }
  }

  lemma {:induction false} DigitIsNoSpace(s: string, i: nat, p: nat)
    requires i <= p <= |s| && (forall k :: i <= k < p ==> Find(s[k], 0).Some?)
    ensures i < p ==> !IsSpace(s[i])
  {
    if i < p {
      if IsSpace(s[i]) {
        SpaceIsNoDigit(s[i]);
      }
    }
  }

  /** Counts the characters for zero at the beginning. */
  method CountOnes(s: string, i: nat, j: nat) returns (n: nat)
    requires Shape(s, i, j)
    ensures n == LeadingZeros(DigitsOf(s[i..j]))
  {
    hide ALPHABET, Find, IsSpace;
    n := 0;
    var p := i;
    OneIsZero('1');
    while p < |s| && s[p] == ALPHABET[0]
      invariant i <= p <= j && n == p - i && forall k :: i <= k < p ==> DigitOf(s[k]) == 0
    {
      OneIsZero(s[p]);
      NonSpaceInside(s, i, j, p);
      p, n := p + 1, n + 1;
    }
    if p < j {
      OneIsZero(s[p]);
    }
    LeadingZerosAre(DigitsOf(s[i..j]), n);
  }

  /** Reads a number in base 58, up to the first other character. */
  method ReadNumber(s: string, i: nat) returns (p: nat, bn: nat)
    requires i <= |s|
    ensures i <= p <= |s| && (forall k :: i <= k < p ==> Find(s[k], 0).Some?) && (p < |s| ==> Find(s[p], 0).None?)
    ensures bn == ValueOf(58, Reverse(DigitsOf(s[i..p])))
  {
    hide ALPHABET, Find;
    p, bn := i, 0;
    assert DigitsOf(s[i..i]) == [];
    while p < |s| && Find(s[p], 0).Some?
      invariant i <= p <= |s| && bn == ValueOf(58, Reverse(DigitsOf(s[i..p])))
      invariant forall k :: i <= k < p ==> Find(s[k], 0).Some?
    {
      DigitsOfPrefix(s, i, p);
      Horner(58, DigitsOf(s[i..p]), DigitOf(s[p]));
      assert DigitOf(s[p]) == Find(s[p], 0).value;
      hide DigitsOf, ValueOf, Reverse, DigitOf;
      bn := bn * 58 + Find(s[p], 0).value;
      p := p + 1;
    }
  }

  /** The bytes of a text, which may have white space around it.  It fails exactly when there
      is anything else in it. */
  method DecodeBase58(s: string) returns (res: Option<seq<nat>>, ghost i: nat, ghost j: nat)
    ensures res.Some? <==> exists i, j :: Shape(s, i, j)
    ensures res.Some? ==> Shape(s, i, j) && res.value == Rebase(58, 256, DigitsOf(s[i..j]))
  {
    hide ALPHABET, Find, Digits, ValueOf, IsSpace;
    var psz := 0;
    while psz < |s| && IsSpace(s[psz])
      invariant psz <= |s| && forall k :: 0 <= k < psz ==> IsSpace(s[k])
    {
      psz := psz + 1;
    }
    var p, bn := ReadNumber(s, psz);
    var q := p;
    while q < |s| && IsSpace(s[q])
      invariant p <= q <= |s| && forall k :: p <= k < q ==> IsSpace(s[k])
    {
      q := q + 1;
    }
    i, j := psz, p;
    if q < |s| {
      forall i': nat, j': nat ensures !Shape(s, i', j') {
        NoShape(s, psz, p, q, i', j');
      }
      return None, i, j;
    }
    assert Shape(s, psz, p);
    TrimmedBytes(bn);
    var vchTmp := Trimmed(SignedBytes(bn));
    var nLeadingZeros := CountOnes(s, psz, p);
    res := Some(Zeros(nLeadingZeros) + Reverse(vchTmp));
  }

  // ----- both round trips -----

  lemma {:induction false} WholeShape(s: string, i: nat, j: nat)
    requires IsText(s) && Shape(s, i, j)
    ensures s[i..j] == s
  {
    if i > 0 {
      DigitIsNoSpace(s, 0, |s|);
    }
    if j < |s| {
      DigitIsNoSpace(s, j, |s|);
    }
  }

  /** Decoding an encoding gives every byte string back, leading zeros included. */
  method EncodeThenDecode(v: seq<nat>) returns (res: Option<seq<nat>>)
    requires AreBytes(v)
    ensures res == Some(v)
  {
    hide ALPHABET, Digits, ValueOf, Find;
    RebaseRoundTrip(256, 58, v);
    TextRoundTrip(Rebase(256, 58, v));
    var str := EncodeBase58(v);
    assert Shape(str, 0, |str|);
    ghost var i, j;
    res, i, j := DecodeBase58(str);
    WholeShape(str, i, j);
  }

  /** Encoding what a text over the alphabet decodes to gives the text back. */
  method DecodeThenEncode(s: string) returns (str: string)
    requires IsText(s)
    ensures str == s
  {
    hide ALPHABET, Digits, ValueOf, Find;
    assert Shape(s, 0, |s|);
    var res;
    ghost var i, j;
    res, i, j := DecodeBase58(s);
    WholeShape(s, i, j);
    DigitsRoundTrip(s);
    RebaseRoundTrip(58, 256, DigitsOf(s));
    str := EncodeBase58(res.value);
  }

  // ----- written out -----

  /** The characters of the digits in order, by their codes: the digits without 0, the capitals without I and O, and the
      small letters without l; and the white space that may surround a text. */
  lemma CharactersAre(k: nat, c: char)
    requires k < 58
    ensures |ALPHABET| == 58
    ensures ALPHABET[k] as int - k ==
            if k <= 8 then 49 else if k <= 16 then 56 else if k <= 21 then 57 else if k <= 32 then 58
            else if k <= 43 then 64 else 65
    ensures IsSpace(c) <==> c as int == 32 || 9 <= c as int <= 13
  {
    AlphabetRuns(k);
    hide ALPHABET;
  }

  /** A number and its digits, the most significant one first: one more digit at the end is times the base plus the
      digit, and the digits of the new base end with the remainder. */
  lemma {:induction false} NumbersAre(base: nat, d: seq<nat>, x: nat, n: nat)
    requires base >= 2
    ensures ValueOf(base, Reverse(d + [x])) - x == base * ValueOf(base, Reverse(d)) && ValueOf(base, Reverse([])) == 0
    ensures Reverse(Digits(base, 0)) == []
    ensures n > 0 ==> Reverse(Digits(base, n)) == Reverse(Digits(base, n / base)) + [n % base]
  {
    Horner(base, d, x);
    if n > 0 {
      assert Digits(base, n) == [n % base] + Digits(base, n / base);
    }
  }

  /** Another base changes neither the number nor how many zeros it begins with. */
  lemma {:induction false} RebaseKeeps(from: nat, to: nat, d: seq<nat>)
    requires from >= 2 && to >= 2 && AreDigits(from, d)
    ensures var e := Rebase(from, to, d);
            && AreDigits(to, e) && ValueOf(to, Reverse(e)) == ValueOf(from, Reverse(d))
            && LeadingZeros(e) == LeadingZeros(d)
  {
    var z, n := LeadingZeros(d), ValueOf(from, Reverse(d));
    var e := Digits(to, n);
    DigitsAreDigits(to, n);
    LeadingZerosAre(Zeros(z) + Reverse(e), z);
    assert Reverse(Zeros(z) + Reverse(e)) == e + Zeros(z);
    ValueOfZeros(to, e, z);
    ValueOfDigits(to, n);
  }

  lemma ValueStep(base: nat, x: nat, rest: seq<nat>)
    ensures ValueOf(base, []) == 0 && ValueOf(base, [x] + rest) == x + base * ValueOf(base, rest)
  {
    assert ([x] + rest)[1..] == rest;
  }

  lemma DigitsStep(base: nat, r: nat, q: nat)
    requires base >= 2 && r < base && r + base * q > 0
    ensures Digits(base, 0) == [] && Digits(base, r + base * q) == [r] + Digits(base, q)
  {
    DivModUnique(r + base * q, base, q, r);
  }

  lemma RebaseIs(from: nat, to: nat, d: seq<nat>, z: nat)
    requires to >= 2 && z <= |d| && (forall i :: 0 <= i < z ==> d[i] == 0) && (z < |d| ==> d[z] != 0)
    ensures Rebase(from, to, d) == Zeros(z) + Reverse(Digits(to, ValueOf(from, Reverse(d))))
  {
    LeadingZerosAre(d, z);
    hide Digits, ValueOf;
  }

  /** The texts of three byte strings. */
  lemma {:induction false} TextsAre()
    ensures TextOf(Rebase(256, 58, [97])) == "2g" && TextOf(Rebase(256, 58, [98, 98, 98])) == "a3gV"
    ensures TextOf(Rebase(256, 58, [0, 0, 1])) == "112"
  {
    OneByte();
    ThreeBytes();
    ZeroBytes();
    hide Rebase, ALPHABET;
    AlphabetPlaces();
    assert TextOf([1, 39]) == "2g" && TextOf([33, 2, 39, 28]) == "a3gV" && TextOf([0, 0, 1]) == "112";
  }

  lemma AlphabetPlaces()
    ensures |ALPHABET| == 58 && ALPHABET[0] == '1' && ALPHABET[1] == '2' && ALPHABET[39] == 'g' && ALPHABET[33] == 'a'
    ensures ALPHABET[2] == '3' && ALPHABET[28] == 'V'
  {
  }

  lemma OneByte()
    ensures Rebase(256, 58, [97]) == [1, 39]
  {
    hide ValueOf, Digits, Rebase;
    ValueStep(256, 97, []);
    DigitsStep(58, 39, 1);
    DigitsStep(58, 1, 0);
    RebaseIs(256, 58, [97], 0);
    assert Reverse([97]) == [97] == [97] + [];
    assert Reverse([39, 1]) == [1, 39];
  }

  lemma ThreeBytes()
    ensures Rebase(256, 58, [98, 98, 98]) == [33, 2, 39, 28]
  {
    hide *;
    ThreeBytesValue();
    FourDigits();
    RebaseIs(256, 58, [98, 98, 98], 0);
    ReversedBytes();
    var v: seq<nat> := [98, 98, 98];
    assert ValueOf(256, Reverse(v)) == 6447714;
    assert Reverse(Digits(58, 6447714)) == [33, 2, 39, 28];
    assert Zeros(0) == [];
    assert [] + [33, 2, 39, 28] == [33, 2, 39, 28];
  }

  lemma ReversedBytes()
    ensures var v: seq<nat> := [98, 98, 98]; Reverse(v) == v
    ensures var d: seq<nat> := [28, 39, 2, 33]; Reverse(d) == [33, 2, 39, 28]
  {
    hide Reverse;
  }

  lemma ThreeBytesValue()
    ensures ValueOf(256, [98, 98, 98]) == 6447714
  {
    hide *;
    ValueStep(256, 98, []);
    ValueStep(256, 98, [98]);
    ValueStep(256, 98, [98, 98]);
    assert [98] + [98, 98] == [98, 98, 98] && [98] + [98] == [98, 98] && [98] + [] == [98];
  }

  lemma FourDigits()
    ensures Digits(58, 6447714) == [28, 39, 2, 33]
  {
    hide *;
    DigitsStep(58, 28, 111167);
    DigitsStep(58, 39, 1916);
    DigitsStep(58, 2, 33);
    DigitsStep(58, 33, 0);
    assert [33] + [] == [33] && [2] + [33] == [2, 33] && [39] + [2, 33] == [39, 2, 33];
    assert [28] + [39, 2, 33] == [28, 39, 2, 33];
  }

  lemma ZeroBytes()
    ensures Rebase(256, 58, [0, 0, 1]) == [0, 0, 1]
  {
    hide ValueOf, Digits, Rebase;
    ValueStep(256, 0, []);
    ValueStep(256, 0, [0]);
    ValueStep(256, 1, [0, 0]);
    assert [1] + [0, 0] == [1, 0, 0] && [0] + [0] == [0, 0] && [0] + [] == [0];
    DigitsStep(58, 1, 0);
    RebaseIs(256, 58, [0, 0, 1], 2);
    assert Reverse([0, 0, 1]) == [1, 0, 0] && Reverse([1]) == [1];
  }
}
