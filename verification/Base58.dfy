/**
 Base 58 encoding (base58.cpp: EncodeBase58, DecodeBase58 and the checksummed forms).

 The methods convert in place in buffers sized by rational approximations of
 logarithms; neither ever carries out of its buffer. Main results:
 DecodeOfEncode, EncodeOfDecode, CheckedRoundTrip.
 */
module Base58 {
  import opened Options
  import opened Powers
  import opened Radix

  /** A string of C has no zero inside. */
  type CString = s: string | '\0' !in s witness ""

  /** The alphabet: digits, upper and lower case letters without 0, I, O and l. */
  function Char(d: nat): char
    requires d < 58
  {
    if d < 9 then '1' + d as char
    else if d < 17 then 'A' + (d - 9) as char
    else if d < 22 then 'J' + (d - 17) as char
    else if d < 33 then 'P' + (d - 22) as char
    else if d < 44 then 'a' + (d - 33) as char
    else 'm' + (d - 44) as char
  }

  /** The first place of a character in the alphabet from place i on, or -1 (strchr). */
  function Find(c: char, i: nat): (d: int)
    requires i <= 58
    ensures -1 <= d < 58 && (d >= 0 ==> d >= i && Char(d) == c)
    decreases 58 - i
  {
    if i == 58 then -1 else if Char(i) == c then i else Find(c, i + 1)
  }

  function Index(c: char): (d: int)
    ensures -1 <= d < 58 && (d >= 0 ==> Char(d) == c)
  {
    Find(c, 0)
  }

  lemma {:induction false} FindFinds(d: nat, i: nat)
    requires i <= d < 58
    ensures Find(Char(d), i) == d
    decreases d - i
  {
    if i < d {
      Distinct(i, d);
      FindFinds(d, i + 1);
    }
  }

  lemma Distinct(i: nat, d: nat)
    requires i < d < 58
    ensures Char(i) != Char(d)
  {
  }

  lemma IndexOfChar(d: nat)
    requires d < 58
    ensures Index(Char(d)) == d && !IsSpace(Char(d)) && Char(d) != '\0'
  {
    FindFinds(d, 0);
  }

  predicate IsSpace(c: char) {
    c == ' ' || c == '\t' || c == '\n' || c == '\r' || c == '\U{0B}' || c == '\U{0C}'
  }

  /** A character as the decoder sees it: a digit, -1 if it is not allowed, -2 for a space. */
  function Code(c: char): (i: int)
    ensures -2 <= i < 58
  {
    if IsSpace(c) then -2 else Index(c)
  }

  function Codes(s: string): (r: seq<int>)
    ensures |r| == |s| && forall i :: 0 <= i < |r| ==> r[i] == Code(s[i])
  {
    seq(|s|, i requires 0 <= i < |s| => Code(s[i]))
  }

  function Chars(ds: seq<nat>): (r: string)
    requires Digits(ds, 58)
    ensures |r| == |ds| && forall i :: 0 <= i < |r| ==> r[i] == Char(ds[i])
  {
    seq(|ds|, i requires 0 <= i < |ds| => Char(ds[i]))
  }

  lemma CodesOfChars(ds: seq<nat>)
    requires Digits(ds, 58)
    ensures Codes(Chars(ds)) == ds
  {
    forall i | 0 <= i < |ds| ensures Code(Chars(ds)[i]) == ds[i] {
      IndexOfChar(ds[i]);
    }
  }

  lemma CharsOfCodes(s: string, ds: seq<nat>)
    requires Digits(ds, 58) && Codes(s) == ds
    ensures Chars(ds) == s
  {
    forall i | 0 <= i < |s| ensures Char(ds[i]) == s[i] {
      assert Codes(s)[i] == Code(s[i]);
    }
  }

  // ----- what is computed -----

  function Repeat(x: nat, n: nat): (r: seq<nat>)
    ensures |r| == n && forall i :: 0 <= i < n ==> r[i] == x
  {
    seq(n, _ => x)
  }

  /** Leading zero bytes stay zeros; the rest is converted as a number. */
  function EncodedDigits(v: seq<nat>): (r: seq<nat>)
    requires Digits(v, 256)
    ensures Digits(r, 58)
  {
    var b := Stripped(v);
    Repeat(0, |v| - |b|) + Canonical(Value(b, 256), 58)
  }

  function Encoded(v: seq<nat>): string
    requires Digits(v, 256)
  {
    Chars(EncodedDigits(v))
  }

  /** The end of the word that starts at place i. */
  function WordEnd(x: seq<int>, i: nat): (k: nat)
    requires i <= |x|
    ensures i <= k <= |x|
    decreases |x| - i
  {
    if i < |x| && x[i] != -2 then WordEnd(x, i + 1) else i
  }

  lemma {:induction false} WordEndIs(x: seq<int>, i: nat, k: nat)
    requires i <= |x|
    ensures WordEnd(x, i) == k <==> i <= k <= |x| && (forall j :: i <= j < k ==> x[j] != -2) && (k < |x| ==> x[k] == -2)
    decreases |x| - i
  {
    if i < |x| && x[i] != -2 {
      WordEndIs(x, i + 1, k);
    }
  }

  predicate AllSpaces(x: seq<int>) {
    forall i :: 0 <= i < |x| ==> x[i] == -2
  }

  predicate AllDigits(x: seq<int>) {
    forall i :: 0 <= i < |x| ==> 0 <= x[i] < 58
  }

  /** The leading zeros of a word and its other digits. */
  datatype Word = Word(zeros: nat, digits: seq<nat>)

  /** The word from p on whose leading zeros end at q, if only spaces follow it. */
  function ScannedAt(x: seq<int>, p: nat, q: nat): (r: Option<Word>)
    requires p <= q <= |x|
    ensures r.Some? ==> Digits(r.value.digits, 58)
  {
    var e := WordEnd(x, q);
    if AllDigits(x[q..e]) && AllSpaces(x[e..]) then Some(Word(q - p, x[q..e])) else None
  }

  /** Spaces around one word are ignored. */
  function Scanned(x: seq<int>): (r: Option<Word>)
    ensures r.Some? ==> Digits(r.value.digits, 58)
  {
    var p := Run(x, -2, 0);
    ScannedAt(x, p, Run(x, 0, p))
  }

  function Bytes(w: Word): seq<nat> {
    Repeat(0, w.zeros) + Canonical(Value(w.digits, 58), 256)
  }

  function BytesOf(w: Option<Word>): Option<seq<nat>> {
    if w.Some? then Some(Bytes(w.value)) else None
  }

  function Decoded(s: string): Option<seq<nat>> {
    BytesOf(Scanned(Codes(s)))
  }

  /** The word of a string. */
  function Trimmed(s: string): string {
    var p := Run(Codes(s), -2, 0);
    s[p..WordEnd(Codes(s), p)]
  }

  // ----- the two are inverse -----

  lemma {:induction false} StripRepeated(z: nat, c: seq<nat>)
    requires c != [] ==> c[0] != 0
    ensures Stripped(Repeat(0, z) + c) == c
  {
    var s := Repeat(0, z) + c;
    RunIs(s, 0, 0, z);
    assert s[z..] == c;
  }

  lemma {:induction false} StripGivesBack(v: seq<nat>)
    ensures Repeat(0, |v| - |Stripped(v)|) + Stripped(v) == v
    ensures Stripped(v) != [] ==> Stripped(v)[0] != 0
  {
    var k := Run(v, 0, 0);
    RunIs(v, 0, 0, k);
    assert v == v[..k] + v[k..];
    assert v[..k] == Repeat(0, k);
  }

  /** Zeros and then digits that begin otherwise, without spaces, are read as such. */
  lemma {:induction false} ReadBack(z: nat, ds: seq<nat>)
    requires Digits(ds, 58) && (ds != [] ==> ds[0] != 0)
    ensures Scanned(Repeat(0, z) + ds) == Some(Word(z, ds))
  {
    var x: seq<int> := Repeat(0, z) + ds;
    RunIs(x, -2, 0, 0);
    RunIs(x, 0, 0, z);
    WordEndIs(x, z, |x|);
    assert x[z..|x|] == ds;
  }

  lemma {:induction false} CanonicalStart(n: nat, base: nat)
    requires base >= 2
    ensures Canonical(n, base) != [] ==> Canonical(n, base)[0] != 0
  {
    ValueOfCanonical(n, base);
    if n == 0 {
      assert Canonical(n, base) == [];
    }
  }

  /** Converting a number without leading zeros to another base and back. */
  lemma {:induction false} ConvertedBack(b: seq<nat>, from: nat, to: nat)
    requires from >= 2 && to >= 2 && Digits(b, from) && (b != [] ==> b[0] != 0)
    ensures Canonical(Value(Canonical(Value(b, from), to), to), from) == b
  {
    ValueOfCanonical(Value(b, from), to);
    CanonicalOfValue(b, from);
  }

  lemma {:induction false} DigitsReadBack(v: seq<nat>)
    requires Digits(v, 256)
    ensures Scanned(EncodedDigits(v)).Some? && Bytes(Scanned(EncodedDigits(v)).value) == v
  {
    var b := Stripped(v);
    var ds := Canonical(Value(b, 256), 58);
    CanonicalStart(Value(b, 256), 58);
    ReadBack(|v| - |b|, ds);
    assert Bytes(Word(|v| - |b|, ds)) == v by {
      StripGivesBack(v);
      ConvertedBack(b, 256, 58);
    }
  }

  /** Decoding inverts encoding. */
  lemma {:induction false} DecodeOfEncode(v: seq<nat>)
    requires Digits(v, 256)
    ensures Decoded(Encoded(v)) == Some(v)
  {
    CodesOfChars(EncodedDigits(v));
    DigitsReadBack(v);
  }

  /** Encoding a parsed word gives the digits of the word. */
  lemma {:induction false} UnparsedWord(z: nat, ds: seq<nat>)
    requires Digits(ds, 58) && (ds != [] ==> ds[0] != 0)
    ensures Digits(Bytes(Word(z, ds)), 256) && EncodedDigits(Bytes(Word(z, ds))) == Repeat(0, z) + ds
  {
    CanonicalStart(Value(ds, 58), 256);
    StripRepeated(z, Canonical(Value(ds, 58), 256));
    ConvertedBack(ds, 58, 256);
  }

  /** The codes of the word are its zeros and digits. */
  lemma {:induction false} ScannedWord(x: seq<int>)
    requires Scanned(x).Some?
    ensures var w := Scanned(x).value;
            var p := Run(x, -2, 0);
            (w.digits != [] ==> w.digits[0] != 0) && x[p..WordEnd(x, p)] == Repeat(0, w.zeros) + w.digits
  {
    var p := Run(x, -2, 0);
    var q := Run(x, 0, p);
    RunIs(x, 0, p, q);
    var e := WordEnd(x, q);
    WordEndIs(x, q, e);
    WordEndIs(x, p, e);
    assert x[p..q] == Repeat(0, q - p);
    Split(x, p, q, e);
  }

  lemma Split(x: seq<int>, p: nat, q: nat, e: nat)
    requires p <= q <= e <= |x|
    ensures x[p..e] == x[p..q] + x[q..e]
  {
  }

  lemma {:induction false} CodesOfSlice(s: string, a: nat, b: nat)
    requires a <= b <= |s|
    ensures Codes(s[a..b]) == Codes(s)[a..b]
  {
  }

  /** Encoding inverts decoding, up to spaces around the word. */
  lemma {:induction false} EncodeOfDecode(s: string)
    requires Decoded(s).Some?
    ensures Digits(Decoded(s).value, 256) && Encoded(Decoded(s).value) == Trimmed(s)
  {
    var x := Codes(s);
    var w := Scanned(x).value;
    ScannedWord(x);
    var p := Run(x, -2, 0);
    CodesOfSlice(s, p, WordEnd(x, p));
    UnparsedWord(w.zeros, w.digits);
    CharsOfCodes(Trimmed(s), Repeat(0, w.zeros) + w.digits);
  }

  /** So encoding is a bijection onto the accepted strings without spaces. */
  lemma {:induction false} WithoutSpaces(s: string)
    requires Decoded(s).Some? && forall i :: 0 <= i < |s| ==> !IsSpace(s[i])
    ensures Digits(Decoded(s).value, 256) && Encoded(Decoded(s).value) == s
  {
    EncodeOfDecode(s);
    NothingToTrim(s);
  }

  lemma {:induction false} NothingToTrim(s: string)
    requires forall i :: 0 <= i < |s| ==> !IsSpace(s[i])
    ensures Trimmed(s) == s
  {
    var x := Codes(s);
    assert forall i :: 0 <= i < |x| ==> x[i] != -2;
    RunIs(x, -2, 0, 0);
    WordEndIs(x, 0, |x|);
    assert s[0..|x|] == s;
  }

  // ----- buffer sizes -----

  /** 138/100 exceeds log(256)/log(58). */
  lemma {:induction false} EncodeRoom(n: nat)
    ensures Pow(58, n * 138 / 100 + 1) > Pow(256, n)
  {
    var k, j := 11, 8;
    assert Pow(58, k) >= Pow(256, j) by {
      assert Pow(58, 11) >= Pow(256, 8);
    }
    ReachesFurther(58, 256, k, j, n * 138 / 100 + 1, n);
  }

  /** 733/1000 exceeds log(58)/log(256). */
  lemma {:induction false} DecodeRoom(n: nat)
    ensures Pow(256, n * 733 / 1000 + 1) > Pow(58, n)
  {
    var k, j := 52, 71;
    SeventyOneDigits(k, j);
    ReachesFurther(256, 58, k, j, n * 733 / 1000 + 1, n);
  }

  /** 71 digits of base 58 fit into 52 bytes. */
  lemma {:induction false} SeventyOneDigits(k: nat, j: nat)
    requires k == 52 && j == 71
    ensures Pow(256, k) >= Pow(58, j)
  {
    SevenTimes(58, 10, 430804206899405824, 24986644000165537792);
    FourTimes(256, 13, 20282409603651670423947251286016);
  }

  lemma {:induction false} SevenTimes(b: nat, m: nat, x: nat, y: nat)
    requires Pow(b, m) == x && Pow(b, m + 1) == y
    ensures Pow(b, 7 * m + 1) == x * x * x * x * x * x * y
  {
    FourTimes(b, m, x);
    var x4 := x * x * x * x;
    assert Pow(b, 5 * m) == x4 * x by {
      PowAdd(b, 4 * m, m);
    }
    assert Pow(b, 6 * m) == x4 * x * x by {
      PowAdd(b, 5 * m, m);
    }
    PowAdd(b, 6 * m, m + 1);
  }

  lemma {:induction false} FourTimes(b: nat, m: nat, x: nat)
    requires Pow(b, m) == x
    ensures Pow(b, 4 * m) == x * x * x * x
  {
    PowAdd(b, m, m);
    PowAdd(b, m + m, m + m);
    assert x * x * (x * x) == x * x * x * x;
  }

  // ----- the program -----

  /** The next digit of a number fits into a buffer that has room for all its digits. */
  lemma {:induction false} RoomForDigit(digits: seq<nat>, k: nat, n: nat, from: nat, to: nat, size: nat)
    requires from >= 2 && k < |digits| <= n && Digits(digits, from) && Pow(to, size) > Pow(from, n)
    ensures Value(digits[..k + 1], from) == Value(digits[..k], from) * from + digits[k] < Pow(to, size)
  {
    assert digits[..k + 1][..k] == digits[..k];
    ValueBound(digits[..k + 1], from);
    if k + 1 < n {
      PowGrows(from, k + 1, n);
    }
  }

  lemma {:induction false} ZeroValue(n: nat, base: nat)
    ensures Value(Repeat(0, n), base) == 0
  {
    if n > 0 {
      assert Repeat(0, n)[..n - 1] == Repeat(0, n - 1);
      ZeroValue(n - 1, base);
    }
  }

  /** One step of a conversion: nothing is ever carried out. */
  method AddDigit(b: array<nat>, base: nat, mul: nat, digit: nat)
    requires base >= 2 && Digits(b[..], base) && Value(b[..], base) * mul + digit < Pow(base, b.Length)
    modifies b
    ensures Digits(b[..], base) && Value(b[..], base) == Value(old(b[..]), base) * mul + digit
  {
    ghost var total := Value(b[..], base) * mul + digit;
    var carry := MultiplyAdd(b, base, mul, digit);
    NothingCarried(Value(b[..], base), carry, total, Pow(base, b.Length));
    assert carry == 0; // the assertion of the program
  }

  method NewBuffer(size: nat, base: nat) returns (b: array<nat>)
    requires base >= 2
    ensures fresh(b) && b.Length == size && Digits(b[..], base) && Value(b[..], base) == 0
  {
    b := new nat[size](_ => 0);
    assert b[..] == Repeat(0, size);
    ZeroValue(size, base);
  }

  /** Skips leading zeros of a buffer. */
  method SkipZeros(b: seq<nat>) returns (it: nat)
    ensures it <= |b| && b[it..] == Stripped(b)
  {
    it := 0;
    while it < |b| && b[it] == 0
      invariant it <= |b| && Run(b, 0, it) == Run(b, 0, 0)
    {
      it := it + 1;
    }
  }

  method ToBase58(rest: seq<nat>) returns (b58: array<nat>)
    requires Digits(rest, 256)
    ensures fresh(b58) && Digits(b58[..], 58) && Value(b58[..], 58) == Value(rest, 256)
  {
    b58 := NewBuffer(|rest| * 138 / 100 + 1, 58);
    EncodeRoom(|rest|);
    for k := 0 to |rest|
      invariant Digits(b58[..], 58) && Value(b58[..], 58) == Value(rest[..k], 256)
    {
      RoomForDigit(rest, k, |rest|, 256, 58, b58.Length);
      AddDigit(b58, 58, 256, rest[k]);
    }
    assert rest[..|rest|] == rest;
  }

  method EncodeBase58(v: seq<nat>) returns (str: string)
    requires Digits(v, 256)
    ensures str == Encoded(v)
  {
    var zeroes := SkipZeros(v);
    var b58 := ToBase58(v[zeroes..]);
    var it := SkipZeros(b58[..]);
    assert b58[..][it..] == Canonical(Value(v[zeroes..], 256), 58) by {
      StrippedIsCanonical(b58[..], 58);
    }
    assert Repeat(0, zeroes) + b58[..][it..] == EncodedDigits(v);
    str := Translate(Repeat(0, zeroes) + b58[..][it..]);
  }

  method Translate(ds: seq<nat>) returns (str: string)
    requires Digits(ds, 58)
    ensures str == Chars(ds)
  {
    str := "";
    for i := 0 to |ds|
      invariant str == Chars(ds)[..i]
    {
      str := str + [Char(ds[i])];
    }
  }

  lemma CodeAt(s: string, p: nat)
    requires p < |s|
    ensures IsSpace(s[p]) <==> Codes(s)[p] == -2
    ensures !IsSpace(s[p]) ==> Codes(s)[p] == Index(s[p])
    ensures s[p] == '1' <==> Codes(s)[p] == 0
  {
    assert Codes(s)[p] == Code(s[p]);
  }

  lemma {:induction false} BadDigit(x: seq<int>, p: nat, q: nat, k: nat)
    requires p <= q <= k < |x| && AllDigits(x[q..k]) && x[k] == -1
    ensures ScannedAt(x, p, q) == None
  {
    forall j | q <= j < k ensures x[j] != -2 {
      assert x[j] == x[q..k][j - q];
    }
    EndsAfter(x, q, k);
    assert x[q..WordEnd(x, q)][k - q] == -1;
  }

  lemma {:induction false} EndsAfter(x: seq<int>, i: nat, k: nat)
    requires i <= k < |x| && forall j :: i <= j <= k ==> x[j] != -2
    ensures WordEnd(x, i) > k
    decreases k - i
  {
    if i < k {
      EndsAfter(x, i + 1, k);
    }
  }

  lemma {:induction false} NextDigit(x: seq<int>, q: nat, k: nat, size: nat)
    requires q <= k < |x| && AllDigits(x[q..k]) && 0 <= x[k] < 58 && Pow(256, size) > Pow(58, |x| - q)
    ensures AllDigits(x[q..k + 1])
    ensures Value(x[q..k + 1], 58) == Value(x[q..k], 58) * 58 + x[k] < Pow(256, size)
  {
    assert x[q..k + 1] == x[q..k] + [x[k]];
    var ds: seq<nat> := x[q..k + 1];
    assert ds[..k - q] == x[q..k] && ds[..k - q + 1] == ds;
    RoomForDigit(ds, k - q, |x| - q, 58, 256, size);
  }

  method NewDecodeBuffer(n: nat) returns (b256: array<nat>)
    ensures fresh(b256) && Digits(b256[..], 256) && Value(b256[..], 256) == 0 && Pow(256, b256.Length) > Pow(58, n)
  {
    b256 := NewBuffer(n * 733 / 1000 + 1, 256);
    DecodeRoom(n);
  }

  /** The buffer holds the number of the digits from q to k. */
  predicate Holds(b: seq<nat>, x: seq<int>, q: nat, k: nat) {
    q <= k <= |x| && AllDigits(x[q..k]) && Digits(b, 256) && Value(b, 256) == Value(x[q..k], 58)
  }

  /** Applies b256 = b256 * 58 + ch. */
  method TakeDigit(b256: array<nat>, ch: nat, ghost x: seq<int>, ghost q: nat, ghost k: nat)
    requires k < |x| && Holds(b256[..], x, q, k) && x[k] == ch < 58 && Pow(256, b256.Length) > Pow(58, |x| - q)
    modifies b256
    ensures Holds(b256[..], x, q, k + 1)
  {
    NextDigit(x, q, k, b256.Length);
    AddDigit(b256, 256, 58, ch);
  }

  /** Converts the word at q up to a space, the end, or a character that is not allowed. */
  method FromBase58(psz: string, q: nat) returns (b256: array<nat>, k: nat)
    requires q <= |psz|
    ensures fresh(b256) && k <= |psz|
    ensures var x := Codes(psz);
            && (k < |psz| ==> x[k] < 0)
            && Holds(b256[..], x, q, k)
  {
    b256 := NewDecodeBuffer(|psz| - q);
    ghost var x := Codes(psz);
    k := q;
    assert x[q..q] == [];
    while k < |psz| && !IsSpace(psz[k])
      invariant k <= |psz| && Holds(b256[..], x, q, k)
    {
      CodeAt(psz, k);
      var ch := Index(psz[k]);
      if ch == -1 {
        return;
      }
      TakeDigit(b256, ch, x, q, k);
      k := k + 1;
    }
    if k < |psz| {
      CodeAt(psz, k);
    }
  }

  lemma {:induction false} WordEnds(x: seq<int>, q: nat, k: nat)
    requires q <= k <= |x| && AllDigits(x[q..k]) && (k < |x| ==> x[k] == -2)
    ensures WordEnd(x, q) == k
  {
    forall i | q <= i < k ensures x[i] != -2 {
      assert x[i] == x[q..k][i - q];
    }
    WordEndIs(x, q, k);
  }

  method SkipLeadingSpaces(psz: string) returns (p: nat)
    ensures p == Run(Codes(psz), -2, 0)
  {
    ghost var x := Codes(psz);
    p := 0;
    while p < |psz| && IsSpace(psz[p])
      invariant p <= |psz| && Run(x, -2, p) == Run(x, -2, 0)
    {
      CodeAt(psz, p);
      p := p + 1;
    }
    if p < |psz| {
      CodeAt(psz, p);
    }
  }

  method SkipOnes(psz: string, p: nat) returns (q: nat)
    requires p <= |psz|
    ensures q == Run(Codes(psz), 0, p)
  {
    ghost var x := Codes(psz);
    q := p;
    while q < |psz| && psz[q] == '1'
      invariant p <= q <= |psz| && Run(x, 0, q) == Run(x, 0, p)
    {
      CodeAt(psz, q);
      q := q + 1;
    }
    if q < |psz| {
      CodeAt(psz, q);
    }
  }

  /** Do only spaces follow? */
  method SkipTrailingSpaces(psz: string, p: nat) returns (end: bool)
    requires p <= |psz|
    ensures end == AllSpaces(Codes(psz)[p..])
  {
    ghost var rest := Codes(psz)[p..];
    var i := p;
    while i < |psz| && IsSpace(psz[i])
      invariant p <= i <= |psz| && forall k :: 0 <= k < i - p ==> rest[k] == -2
    {
      CodeAt(psz, i);
      assert rest[i - p] == Codes(psz)[i];
      i := i + 1;
    }
    if i < |psz| {
      CodeAt(psz, i);
      assert rest[i - p] != -2;
    }
    end := i == |psz|;
  }

  /** The word whose leading ones are between p and q, and the spaces that follow. */
  method DecodeWord(psz: string, p: nat, q: nat, ghost x: seq<int>) returns (r: Option<seq<nat>>)
    requires p <= q <= |psz| && x == Codes(psz)
    ensures r == BytesOf(ScannedAt(x, p, q))
  {
    var b256, e := FromBase58(psz, q);
    if e < |psz| {
      CodeAt(psz, e);
      if !IsSpace(psz[e]) {
        BadDigit(x, p, q, e);
        return None;
      }
    }
    WordEnds(x, q, e);
    var end := SkipTrailingSpaces(psz, e);
    if !end {
      return None;
    }
    var it := SkipZeros(b256[..]);
    r := Some(Repeat(0, q - p) + b256[..][it..]);
    WordDecoded(x, p, q, e, b256[..]);
  }

  lemma {:induction false} WordDecoded(x: seq<int>, p: nat, q: nat, e: nat, b: seq<nat>)
    requires p <= q <= |x| && e == WordEnd(x, q) && AllDigits(x[q..e]) && AllSpaces(x[e..])
    requires Digits(b, 256) && Value(b, 256) == Value(x[q..e], 58)
    ensures BytesOf(ScannedAt(x, p, q)) == Some(Repeat(0, q - p) + Stripped(b))
  {
    StrippedIsCanonical(b, 256);
  }

  method DecodeBase58(psz: CString) returns (r: Option<seq<nat>>)
    ensures r == Decoded(psz)
  {
    var p := SkipLeadingSpaces(psz);
    var q := SkipOnes(psz, p);
    r := DecodeWord(psz, p, q, Codes(psz));
  }

  // ----- with a checksum -----

  /** The first four bytes of the hash. */
  type Checksum = seq<nat> -> seq<nat>

  ghost predicate IsChecksum(hash: Checksum) {
    forall v :: |hash(v)| == 4 && Digits(hash(v), 256)
  }

  method EncodeBase58Check(hash: Checksum, v: seq<nat>) returns (str: string)
    requires IsChecksum(hash) && Digits(v, 256)
    ensures Digits(v + hash(v), 256) && str == Encoded(v + hash(v))
  {
    str := EncodeBase58(v + hash(v));
  }

  function DecodedCheck(hash: Checksum, s: string): Option<seq<nat>> {
    var d := Decoded(s);
    if d.None? || |d.value| < 4 then None
    else
      var n := |d.value| - 4;
      if hash(d.value[..n]) == d.value[n..] then Some(d.value[..n]) else None
  }

  method DecodeBase58Check(hash: Checksum, psz: CString) returns (r: Option<seq<nat>>)
    requires IsChecksum(hash)
    ensures r == DecodedCheck(hash, psz)
  {
    var d := DecodeBase58(psz);
    if d.None? || |d.value| < 4 {
      return None;
    }
    var n := |d.value| - 4;
    if hash(d.value[..n]) != d.value[n..] {
      return None;
    }
    r := Some(d.value[..n]);
  }

  /** The checksummed forms are inverse to each other, for any hash. */
  lemma {:induction false} CheckedRoundTrip(hash: Checksum, v: seq<nat>)
    requires IsChecksum(hash) && Digits(v, 256)
    ensures Digits(v + hash(v), 256) && DecodedCheck(hash, Encoded(v + hash(v))) == Some(v)
  {
    var all := v + hash(v);
    DecodeOfEncode(all);
    assert all[..|v|] == v && all[|v|..] == hash(v);
  }

  lemma {:induction false} CheckedUnique(hash: Checksum, s: string)
    requires IsChecksum(hash) && DecodedCheck(hash, s).Some?
    ensures var v := DecodedCheck(hash, s).value;
            Digits(v + hash(v), 256) && Encoded(v + hash(v)) == Trimmed(s)
  {
    var v := DecodedCheck(hash, s).value;
    assert Decoded(s) == Some(v + hash(v)) by {
      var d := Decoded(s).value;
      assert d == d[..|d| - 4] + d[|d| - 4..];
    }
    EncodeOfDecode(s);
  }
}
