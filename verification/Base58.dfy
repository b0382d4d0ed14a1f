/** Base58 (src/base58.cpp): both conversions as the source runs them, on a digit buffer of fixed size, and the
    proof that the buffers always suffice and the two conversions are inverse. */
module Base58 {
  import opened Basics
  import opened Powers
  import opened Radix

  /* ---- Buffer sizes ---- */

  lemma Pow58To71()
    ensures Pow(58, 71) <= Pow(256, 52)
  {
    assert Pow(58, 12) == 1449225352009601191936;
    assert Pow(58, 11) == 24986644000165537792;
    assert Pow(256, 13) == 20282409603651670423947251286016;
    hide Pow;
    PowAdd(58, 12, 12);
    PowAdd(58, 12, 11);
    PowAdd(58, 24, 24);
    PowAdd(58, 48, 23);
    PowAdd(256, 13, 13);
    PowAdd(256, 26, 26);
  }

  lemma Scale(a: nat, p: nat, b: nat, q: nat, k: nat, p': nat, q': nat)
    requires Pow(a, p) <= Pow(b, q) && Pow(a, p') <= Pow(b, q')
    ensures Pow(a, p * k + p') <= Pow(b, q * k + q')
  {
    hide Pow;
    PowMul(a, p, k);
    PowMul(b, q, k);
    PowMonoBase(Pow(a, p), Pow(b, q), k);
    PowAdd(a, p * k, p');
    PowAdd(b, q * k, q');
    MulMonoBoth(Pow(a, p * k), Pow(b, q * k), Pow(a, p'), Pow(b, q'));
  }

  lemma EncodeRatio()
    ensures Pow(256, 100) <= Pow(58, 138)
  {
    assert Pow(256, 8) <= Pow(58, 11) && Pow(256, 4) <= Pow(58, 6);
    hide Pow;
    Scale(256, 8, 58, 11, 12, 4, 6);
  }

  lemma DecodeRatio()
    ensures Pow(58, 1000) <= Pow(256, 733)
  {
    assert Pow(58, 6) <= Pow(256, 5);
    hide Pow;
    Pow58To71();
    Scale(58, 71, 256, 52, 14, 6, 5);
  }

  /** If p digits of base a fit in q digits of base b, then n fit in n * q / p + 1. */
  lemma Fits(a: nat, p: nat, b: nat, q: nat, n: nat)
    requires p > 0 && b > 0 && Pow(a, p) <= Pow(b, q)
    ensures Pow(a, n) <= Pow(b, n * q / p + 1)
  {
    hide Pow;
    var m := n * q / p + 1;
    assert q * n <= m * p by { DivBounds(n * q, p); }
    PowMul(a, p, n);
    PowMul(a, n, p);
    assert p * n == n * p;
    PowMonoBase(Pow(a, p), Pow(b, q), n);
    PowMul(b, q, n);
    PowMonoExp(b, q * n, m * p);
    PowMul(b, m, p);
    PowPositive(b, m);
    PowRoot(Pow(a, n), Pow(b, m), p);
  }

  /** The buffer of EncodeBase58 holds every number of n bytes. */
  lemma EncodeFits(n: nat)
    ensures Pow(256, n) <= Pow(58, n * 138 / 100 + 1)
  {
    hide Pow;
    EncodeRatio();
    Fits(256, 100, 58, 138, n);
  }

  /** The buffer of DecodeBase58 holds every number of n base 58 digits. */
  lemma DecodeFits(n: nat)
    ensures Pow(58, n) <= Pow(256, n * 733 / 1000 + 1)
  {
    hide Pow;
    DecodeRatio();
    Fits(58, 1000, 256, 733, n);
  }

  /* ---- Characters ---- */

  /** pszBase58: the digits, then the letters without I, O and l. */
  function Char(d: int): char
    requires 0 <= d < 58
  {
    if d < 9 then ('1' as int + d) as char
    else if d < 17 then ('A' as int + d - 9) as char
    else if d < 22 then ('J' as int + d - 17) as char
    else if d < 33 then ('P' as int + d - 22) as char
    else if d < 44 then ('a' as int + d - 33) as char
    else ('m' as int + d - 44) as char
  }

  /** mapBase58: the value of a character, or -1. */
  function DigitOf(c: char): int {
    var x := c as int;
    if '1' <= c <= '9' then x - '1' as int
    else if 'A' <= c <= 'H' then x - 'A' as int + 9
    else if 'J' <= c <= 'N' then x - 'J' as int + 17
    else if 'P' <= c <= 'Z' then x - 'P' as int + 22
    else if 'a' <= c <= 'k' then x - 'a' as int + 33
    else if 'm' <= c <= 'z' then x - 'm' as int + 44
    else -1
  }

  predicate IsSpace(c: char) { c == ' ' || '\t' as int <= c as int <= '\r' as int }
  predicate NotSpace(c: char) { !IsSpace(c) }
  predicate IsNul(c: char) { c == '\0' }
  predicate NotOne(c: char) { c != '1' }
  predicate NotZero(x: int) { x != 0 }
  predicate IsValid(c: char) { DigitOf(c) != -1 }

  lemma CharDigit(d: int)
    requires 0 <= d < 58
    ensures DigitOf(Char(d)) == d && NotSpace(Char(d)) && !IsNul(Char(d)) && (Char(d) == '1' <==> d == 0)
  {
  }

  lemma DigitChar(c: char)
    requires IsValid(c)
    ensures 0 <= DigitOf(c) < 58 && Char(DigitOf(c)) == c && NotSpace(c) && !IsNul(c)
  {
  }

  /* ---- Text ---- */

  /** The index of the first element satisfying f, or the length. */
  function Until<T>(s: seq<T>, f: T -> bool): (k: nat)
    ensures k <= |s| && (k < |s| ==> f(s[k])) && forall i | 0 <= i < k :: !f(s[i])
  {
    if s == [] || f(s[0]) then 0 else 1 + Until(s[1..], f)
  }

  lemma UntilIs<T>(s: seq<T>, f: T -> bool, k: nat)
    requires k <= |s| && (k < |s| ==> f(s[k])) && forall i | 0 <= i < k :: !f(s[i])
    ensures Until(s, f) == k
  {
    hide Until;
    var j := Until(s, f);
    assert j <= k && k <= j;
  }

  function Chars(d: seq<int>): string
    requires IsDigits(58, d)
  {
    seq(|d|, i requires 0 <= i < |d| => Char(d[i]))
  }

  function DigitsOf(s: string): seq<int> { seq(|s|, i requires 0 <= i < |s| => DigitOf(s[i])) }

  predicate AllValid(s: string) { forall i | 0 <= i < |s| :: IsValid(s[i]) }

  function Repeat<T>(x: T, n: nat): seq<T> { seq(n, _ => x) }

  /** EncodeBase58: a '1' for every leading zero byte, then the base 58 digits of the whole. */
  function Encoded(b: seq<int>): string
    requires IsDigits(256, b)
  {
    ValBound(256, b);
    DigitsAre(58, Val(256, b));
    Repeat('1', Until(b, NotZero)) + Chars(Digits(58, Val(256, b)))
  }

  /** The C string: what comes before the first NUL. */
  function CString(s: string): string { s[..Until(s, IsNul)] }

  /** The text without leading spaces, and its part before the next space. */
  function Unindented(s: string): string { CString(s)[Until(CString(s), NotSpace)..] }
  function Body(s: string): string { Unindented(s)[..Until(Unindented(s), IsSpace)] }
  function Tail(s: string): string { Unindented(s)[|Body(s)|..] }

  /** DecodeBase58: surrounding spaces are allowed, anything else outside the alphabet is not. */
  predicate Accepted(s: string) { AllValid(Body(s)) && forall i | 0 <= i < |Tail(s)| :: IsSpace(Tail(s)[i]) }

  /** A zero byte for every leading '1', then the bytes of the whole. */
  function Bytes(body: string): seq<int>
    requires AllValid(body)
  {
    BodyVal(body);
    Repeat(0, Until(body, NotOne)) + Digits(256, Val(58, DigitsOf(body)))
  }

  lemma BodyVal(body: string)
    requires AllValid(body)
    ensures IsDigits(58, DigitsOf(body)) && Val(58, DigitsOf(body)) >= 0
  {
    forall i | 0 <= i < |body| ensures 0 <= DigitsOf(body)[i] < 58 {
      DigitChar(body[i]);
    }
    ValBound(58, DigitsOf(body));
  }

  function Decoded(s: string): Option<seq<int>> {
    if Accepted(s) then Some(Bytes(Body(s))) else None
  }

  /* ---- Inverses ---- */

  lemma CharsDigits(d: seq<int>)
    requires IsDigits(58, d)
    ensures AllValid(Chars(d)) && DigitsOf(Chars(d)) == d
    ensures forall i | 0 <= i < |d| ::
              NotSpace(Chars(d)[i]) && !IsNul(Chars(d)[i]) && (Chars(d)[i] == '1' <==> d[i] == 0)
  {
    forall i | 0 <= i < |d|
      ensures DigitOf(Chars(d)[i]) == d[i] && NotSpace(Chars(d)[i]) && !IsNul(Chars(d)[i])
              && (Chars(d)[i] == '1' <==> d[i] == 0)
    {
      CharDigit(d[i]);
    }
  }

  lemma DigitsChars(s: string)
    requires AllValid(s)
    ensures IsDigits(58, DigitsOf(s)) && Chars(DigitsOf(s)) == s
  {
    forall i | 0 <= i < |s| ensures 0 <= DigitOf(s[i]) < 58 && Char(DigitOf(s[i])) == s[i] {
      DigitChar(s[i]);
    }
    assert IsDigits(58, DigitsOf(s));
  }

  /** Text of alphabet characters is its own body. */
  lemma PlainBody(s: string)
    requires AllValid(s)
    ensures Body(s) == s && Accepted(s)
  {
    hide DigitOf, IsSpace, IsNul;
    forall i | 0 <= i < |s| ensures NotSpace(s[i]) && !IsSpace(s[i]) && !IsNul(s[i]) {
      DigitChar(s[i]);
      SpaceOrNot(s[i]);
    }
    UntilIs(s, IsNul, |s|);
    assert CString(s) == s;
    UntilIs(s, NotSpace, 0);
    assert Unindented(s) == s;
    UntilIs(s, IsSpace, |s|);
  }

  lemma SpaceOrNot(c: char)
    ensures NotSpace(c) <==> !IsSpace(c)
  {
  }

  /** A number padded with n leading zeros has exactly those, if it has none of its own. */
  lemma LeadingZeros(n: nat, d: seq<int>)
    requires NoLeadingZero(d)
    ensures Until(Repeat(0, n) + d, NotZero) == n
  {
    UntilIs(Repeat(0, n) + d, NotZero, n);
  }

  lemma SplitZeros(base: nat, b: seq<int>)
    requires base >= 2 && IsDigits(base, b)
    ensures Val(base, b) >= 0 && b == Repeat(0, Until(b, NotZero)) + Digits(base, Val(base, b))
  {
    hide Until, Val, Digits;
    var z := Until(b, NotZero);
    assert b == b[..z] + b[z..];
    assert b[..z] == Repeat(0, z);
    DropZeros(base, b[..z], b[z..]);
    Canonical(base, b[z..]);
  }

  lemma EncodedDigits(b: seq<int>)
    requires IsDigits(256, b)
    ensures AllValid(Encoded(b))
    ensures Until(Encoded(b), NotOne) == Until(b, NotZero)
    ensures Val(58, DigitsOf(Encoded(b))) == Val(256, b)
  {
    hide Until, Val, Digits, DigitOf, Char;
    ValBound(256, b);
    var v, z := Val(256, b), Until(b, NotZero);
    DigitsAre(58, v);
    var d := Digits(58, v);
    CharsDigits(d);
    CharDigit(0);
    OneIsZero();
    var e := Encoded(b);
    assert DigitsOf(e) == Repeat(0, z) + d;
    DropZeros(58, Repeat(0, z), d);
    assert forall i | 0 <= i < z :: e[i] == '1';
    assert z < |e| ==> e[z] == Chars(d)[0];
    UntilIs(e, NotOne, z);
  }

  lemma OneIsZero()
    ensures DigitOf('1') == 0 && IsValid('1')
  {
  }

  /** Decoding an encoded byte string gives the byte string back. */
  lemma DecodeEncode(b: seq<int>)
    requires IsDigits(256, b)
    ensures Decoded(Encoded(b)) == Some(b)
  {
    hide Until, Val, Digits, Encoded, Body, Accepted, AllValid, DigitsOf;
    EncodedDigits(b);
    PlainBody(Encoded(b));
    SplitZeros(256, b);
  }

  lemma BytesDigits(s: string)
    requires AllValid(s)
    ensures IsDigits(256, Bytes(s)) && Until(Bytes(s), NotZero) == Until(s, NotOne)
            && Val(256, Bytes(s)) == Val(58, DigitsOf(s))
  {
    hide Until, Val, Digits, DigitOf, DigitsOf, AllValid;
    BodyVal(s);
    var z, v := Until(s, NotOne), Val(58, DigitsOf(s));
    DigitsAre(256, v);
    LeadingZeros(z, Digits(256, v));
    DropZeros(256, Repeat(0, z), Digits(256, v));
  }

  lemma SplitOnes(s: string)
    requires AllValid(s)
    ensures IsDigits(58, DigitsOf(s)) && Val(58, DigitsOf(s)) >= 0
    ensures IsDigits(58, Digits(58, Val(58, DigitsOf(s))))
    ensures s == Repeat('1', Until(s, NotOne)) + Chars(Digits(58, Val(58, DigitsOf(s))))
  {
    hide Until, Val, Digits, DigitOf, Char;
    DigitsChars(s);
    var d, z := DigitsOf(s), Until(s, NotOne);
    OneIsZero();
    assert d == d[..z] + d[z..];
    assert Zeros(d[..z]);
    if z < |s| {
      DigitChar(s[z]);
      CharDigit(0);
      OneIsZero();
      ZeroIsOne(s[z]);
    }
    DropZeros(58, d[..z], d[z..]);
    Canonical(58, d[z..]);
    assert s[..z] == Repeat('1', z);
    assert s[z..] == Chars(d[z..]);
    assert s == s[..z] + s[z..];
  }

  lemma ZeroIsOne(c: char)
    requires IsValid(c)
    ensures DigitOf(c) == 0 <==> c == '1'
  {
  }

  /** Encoding what a text decodes to gives its body back: the text itself when it has no spaces. */
  lemma EncodeDecode(s: string)
    requires Decoded(s).Some?
    ensures IsDigits(256, Decoded(s).value) && Encoded(Decoded(s).value) == Body(s)
    ensures AllValid(s) ==> Encoded(Decoded(s).value) == s
  {
    hide Until, Val, Digits, Body, AllValid, DigitsOf, Bytes, Chars;
    BytesDigits(Body(s));
    SplitOnes(Body(s));
    if AllValid(s) {
      PlainBody(s);
    }
  }

  /* ---- The conversions ---- */

  /** The buffer without its leading zeros is the number it holds. */
  lemma Finish(base: nat, buf: seq<int>, it: nat)
    requires base >= 2 && it <= |buf| && IsDigits(base, buf) && Zeros(buf[..it]) && (it < |buf| ==> buf[it] != 0)
    ensures Val(base, buf) >= 0 && buf[it..] == Digits(base, Val(base, buf))
  {
    assert buf == buf[..it] + buf[it..];
    DropZeros(base, buf[..it], buf[it..]);
    Canonical(base, buf[it..]);
  }

  /** Reading one more digit keeps the number below the buffer's capacity. */
  lemma ReadOne(base: nat, to: nat, d: seq<int>, k: nat, n: nat, size: nat)
    requires k < |d| <= n && base > 0 && IsDigits(base, d) && Pow(base, n) <= Pow(to, size)
    ensures Val(base, d[..k + 1]) == base * Val(base, d[..k]) + d[k] < Pow(to, size)
  {
    hide Pow;
    assert d[..k + 1][..k] == d[..k];
    ValBound(base, d[..k + 1]);
    PowMonoExp(base, k + 1, n);
  }

  /** Reads a list of digits into a zeroed buffer. */
  method Convert(d: seq<int>, base: nat, to: nat, size: nat, ghost n: nat) returns (r: seq<int>)
    requires base >= 2 && to >= 2 && IsDigits(base, d) && |d| <= n && Pow(base, n) <= Pow(to, size)
    ensures Val(base, d) >= 0 && r == Digits(to, Val(base, d))
  {
    hide Pow, Val, Digits;
    var buf := new int[size](_ => 0);
    var length: nat := 0;
    ValZeros(to, buf[..]);
    EmptyVal(base, d[..0]);
    for k := 0 to |d|
      invariant length <= size && IsDigits(to, buf[..]) && Zeros(buf[..size - length])
      invariant Val(to, buf[..]) == Val(base, d[..k])
    {
      ReadOne(base, to, d, k, n, size);
      length := Accumulate(buf, to, base, length, d[k]);
    }
    r := Trim(buf, to, length);
    assert d[..|d|] == d;
  }

  /** The digits in a buffer from the first that is not zero on. */
  method Trim(buf: array<int>, base: nat, length: nat) returns (r: seq<int>)
    requires base >= 2 && length <= buf.Length && IsDigits(base, buf[..]) && Zeros(buf[..buf.Length - length])
    ensures Val(base, buf[..]) >= 0 && r == Digits(base, Val(base, buf[..]))
  {
    hide Pow, Val, Digits;
    var it := buf.Length - length;
    while it < buf.Length && buf[it] == 0
      invariant it <= buf.Length && Zeros(buf[..it])
    {
      it := it + 1;
    }
    Finish(base, buf[..], it);
    r := buf[it..];
  }

  lemma EmptyVal(base: nat, d: seq<int>)
    requires d == []
    ensures Val(base, d) == 0
  {
  }

  method EncodeBase58(vch: seq<int>) returns (str: string)
    requires IsDigits(256, vch)
    ensures str == Encoded(vch)
  {
    hide Pow, Val, Digits, Until, Char;
    var zeroes := 0;
    while zeroes < |vch| && vch[zeroes] == 0
      invariant zeroes <= |vch| && Zeros(vch[..zeroes])
    {
      zeroes := zeroes + 1;
    }
    UntilIs(vch, NotZero, zeroes);
    var rest := vch[zeroes..];
    EncodeFits(|rest|);
    var b58 := Convert(rest, 256, 58, |rest| * 138 / 100 + 1, |rest|);
    assert vch == vch[..zeroes] + rest;
    DropZeros(256, vch[..zeroes], rest);
    DigitsAre(58, Val(256, rest));
    str := Repeat('1', zeroes);
    for i := 0 to |b58|
      invariant str == Repeat('1', zeroes) + Chars(b58[..i])
    {
      str := str + [Char(b58[i])];
    }
    assert b58[..|b58|] == b58;
  }

  method DecodeBase58(str: string) returns (r: Option<seq<int>>)
    ensures r == Decoded(str)
  {
    hide IsSpace, Until, DigitOf;
    var s := CString(str);
    var p := 0;
    while p < |s| && IsSpace(s[p])
      invariant p <= |s| && forall i | 0 <= i < p :: IsSpace(s[i])
    {
      p := p + 1;
    }
    forall i | 0 <= i < |s| ensures NotSpace(s[i]) <==> !IsSpace(s[i]) { SpaceOrNot(s[i]); }
    UntilIs(s, NotSpace, p);
    r := DecodeText(s[p..]);
    TailSpaces(str);
  }

  lemma TailSpaces(s: string)
    ensures (forall i | 0 <= i < |Tail(s)| :: IsSpace(Tail(s)[i])) <==>
            (forall i | |Body(s)| <= i < |Unindented(s)| :: IsSpace(Unindented(s)[i]))
  {
    hide IsSpace, Until;
    var t, n := Unindented(s), |Body(s)|;
    if forall i | 0 <= i < |Tail(s)| :: IsSpace(Tail(s)[i]) {
      forall i | n <= i < |t| ensures IsSpace(t[i]) {
        assert Tail(s)[i - n] == t[i];
      }
    }
  }

  /** Decoding after the leading spaces. */
  method DecodeText(t: string) returns (r: Option<seq<int>>)
    ensures var body := t[..Until(t, IsSpace)];
            r == if AllValid(body) && (forall i | |body| <= i < |t| :: IsSpace(t[i])) then Some(Bytes(body)) else None
  {
    hide Pow, Val, Digits, Until, DigitOf;
    var zeroes := 0;
    while zeroes < |t| && t[zeroes] == '1'
      invariant zeroes <= |t| && forall i | 0 <= i < zeroes :: t[i] == '1'
    {
      zeroes := zeroes + 1;
    }
    var k, size := zeroes, (|t| - zeroes) * 733 / 1000 + 1;
    var buf := new int[size](_ => 0);
    var length: nat := 0;
    OneIsZero();
    DecodeFits(|t| - zeroes);
    ValZeros(256, buf[..]);
    EmptyVal(58, DigitsOf(t[zeroes..zeroes]));
    while k < |t| && !IsSpace(t[k])
      invariant zeroes <= k <= |t| && (forall i | 0 <= i < k :: !IsSpace(t[i]) && IsValid(t[i]))
      invariant length <= size && IsDigits(256, buf[..]) && Zeros(buf[..size - length])
      invariant Val(256, buf[..]) == Val(58, DigitsOf(t[zeroes..k]))
    {
      if DigitOf(t[k]) == -1 {
        InvalidBody(t, k);
        return None;
      }
      ReadChar(t, zeroes, k, size);
      length := Accumulate(buf, 256, 58, length, DigitOf(t[k]));
      k := k + 1;
    }
    UntilIs(t, IsSpace, k);
    ghost var body := t[..k];
    var end := k;
    while end < |t| && IsSpace(t[end])
      invariant k <= end <= |t| && forall i | k <= i < end :: IsSpace(t[i])
    {
      end := end + 1;
    }
    if end != |t| {
      return None;
    }
    ReadBody(body, zeroes);
    var b256 := Trim(buf, 256, length);
    assert body[zeroes..] == t[zeroes..k];
    r := Some(Repeat(0, zeroes) + b256);
  }

  /** One more character still fits the buffer. */
  lemma ReadChar(t: string, zeroes: nat, k: nat, size: nat)
    requires zeroes <= k < |t| && (forall i | zeroes <= i < k + 1 :: IsValid(t[i]))
    requires Pow(58, |t| - zeroes) <= Pow(256, size)
    ensures 0 <= DigitOf(t[k]) < 58
    ensures Val(58, DigitsOf(t[zeroes..k + 1])) == 58 * Val(58, DigitsOf(t[zeroes..k])) + DigitOf(t[k]) < Pow(256, size)
  {
    hide Pow, Val, DigitOf;
    var w := t[zeroes..k + 1];
    BodyVal(w);
    var d := DigitsOf(w);
    assert w[..k - zeroes] == t[zeroes..k] && d[..k - zeroes] == DigitsOf(t[zeroes..k]) && d[..k - zeroes + 1] == d;
    ReadOne(58, 256, d, k - zeroes, |t| - zeroes, size);
    assert d[k - zeroes] == DigitOf(t[k]);
  }

  lemma InvalidBody(t: string, k: nat)
    requires k < |t| && !IsSpace(t[k]) && !IsValid(t[k]) && forall i | 0 <= i < k :: !IsSpace(t[i])
    ensures !AllValid(t[..Until(t, IsSpace)])
  {
    hide Until;
    var j := Until(t, IsSpace);
    assert k < j;
    assert t[..j][k] == t[k];
  }

  lemma ReadBody(body: string, zeroes: nat)
    requires AllValid(body) && zeroes <= |body| && (forall i | 0 <= i < zeroes :: body[i] == '1')
             && (zeroes < |body| ==> body[zeroes] != '1')
    ensures AllValid(body[zeroes..]) && Until(body, NotOne) == zeroes
    ensures Val(58, DigitsOf(body)) == Val(58, DigitsOf(body[zeroes..]))
  {
    hide Val, Until, DigitOf;
    UntilIs(body, NotOne, zeroes);
    OneIsZero();
    var z := DigitsOf(body[..zeroes]);
    assert DigitsOf(body) == z + DigitsOf(body[zeroes..]);
    DropZeros(58, z, DigitsOf(body[zeroes..]));
  }
}
