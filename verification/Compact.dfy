/** The compact difficulty format and block work (SetCompact and GetCompact of src/arith_uint256.cpp, GetBlockProof of
    src/chain.cpp). */
module Compact {
  import opened Powers
  import opened Limbs
  import opened LimbShifts
  import opened ArithUint

  const WIDTH := 8
  const TWO_8 := 0x100
  const TWO_15 := 0x8000
  const TWO_16 := 0x1_0000
  const TWO_23 := 0x80_0000
  const TWO_24 := 0x100_0000

  lemma Constants()
    ensures Pow2(8) == TWO_8 && Pow2(15) == TWO_15 && Pow2(16) == TWO_16 && Pow2(23) == TWO_23 && Pow2(24) == TWO_24
  {
    assert Pow2(7) == 128 && Pow2(8) == 256;
    hide Pow2;
    Pow2Add(8, 8);
    Pow2Add(8, 7);
    Pow2Add(16, 7);
    Pow2Add(16, 8);
  }

  /* ---- Natural quotients and products ---- */

  lemma Shrinks(x: nat, p: nat)
    requires p >= 1
    ensures 0 <= x / p <= x
  {
    DivBounds(x, p);
    if x / p > x {
      MulMonoInt(1, p, x / p);
    }
  }

  function Div(x: nat, p: nat): (q: nat)
    requires p >= 1
  {
    Shrinks(x, p);
    x / p
  }

  lemma ProductSign(x: nat, p: nat)
    ensures x * p >= 0
  {
  }

  function Mul(x: nat, p: nat): (m: nat) {
    ProductSign(x, p);
    x * p
  }

  /* ---- Expanding ---- */

  datatype Expanded = Expanded(value: int, negative: bool, overflow: bool)

  function Size(c: nat): nat { c / TWO_24 }
  function Mantissa(c: nat): nat { c % TWO_23 }
  predicate Sign(c: nat) { c / TWO_23 % 2 == 1 }

  /** nWord: the mantissa, shifted down for small exponents. */
  function Word(c: nat): nat { if Size(c) <= 3 then Div(Mantissa(c), Pow2(8 * (3 - Size(c)))) else Mantissa(c) }

  /** What the format stands for, before it is cut to 256 bits. */
  function Magnitude(c: nat): nat { if Size(c) <= 3 then Word(c) else Mul(Word(c), Pow2(8 * (Size(c) - 3))) }

  /** SetCompact, with its own test for overflow. */
  function Expand(c: nat): Expanded {
    var w, n := Word(c), Size(c);
    Expanded(Magnitude(c) % W(WIDTH), w != 0 && Sign(c),
             w != 0 && (n > 34 || (w > 0xff && n > 33) || (w > 0xffff && n > 32)))
  }

  lemma WordBound(c: nat)
    ensures 0 <= Word(c) < TWO_23
  {
    if Size(c) <= 3 {
      var p := Pow2(8 * (3 - Size(c)));
      Shrinks(Mantissa(c), p);
    }
  }

  lemma ScaledBound(w: nat, a: nat, b: nat)
    ensures w < Pow2(b) ==> w * Pow2(a) < Pow2(a + b)
    ensures w >= Pow2(b) ==> w * Pow2(a) >= Pow2(a + b)
  {
    hide Pow2;
    Pow2Add(a, b);
    if w < Pow2(b) {
      MulMonoInt(w + 1, Pow2(b), Pow2(a));
      assert (w + 1) * Pow2(a) == w * Pow2(a) + Pow2(a);
    } else {
      MulMonoInt(Pow2(b), w, Pow2(a));
    }
  }

  /** The overflow flag is set exactly when the magnitude does not fit in 256 bits. */
  lemma OverflowExact(c: nat)
    ensures Expand(c).overflow <==> Magnitude(c) >= W(WIDTH)
    ensures !Expand(c).overflow ==> Expand(c).value == Magnitude(c)
  {
    hide Pow2;
    WordBound(c);
    Constants();
    var w, n := Word(c), Size(c);
    if n <= 3 {
      Pow2Mono(23, 256);
    } else if w == 0 {
    } else if n <= 32 {
      ScaledBound(w, 8 * (n - 3), 23);
      Pow2Mono(8 * (n - 3) + 23, 256);
    } else if n == 33 {
      ScaledBound(w, 240, 16);
    } else if n == 34 {
      ScaledBound(w, 248, 8);
    } else {
      UnitPow();
      ScaledBound(w, 8 * (n - 3), 0);
      Pow2Mono(256, 8 * (n - 3));
    }
    if Magnitude(c) < W(WIDTH) {
      Reduced(Magnitude(c), W(WIDTH), 0);
    }
  }

  /* ---- Compacting ---- */

  function BitsOf(v: nat): (n: nat)
    ensures BitLen(v, n)
  {
    if v == 0 then 0
    else if v == 1 then 1
    else 1 + BitsOf(v / 2)
  }

  /** GetCompact: the byte size and the top three bytes, renormalised if they would set the sign bit. */
  function TopBytes(v: nat): nat {
    var n := (BitsOf(v) + 7) / 8;
    if n <= 3 then Mul(v, Pow2(8 * (3 - n))) else Div(v, Pow2(8 * (n - 3)))
  }

  function CompactSize(v: nat): nat { (BitsOf(v) + 7) / 8 + if TopBytes(v) / TWO_23 % 2 == 1 then 1 else 0 }
  function CompactWord(v: nat): nat { if TopBytes(v) / TWO_23 % 2 == 1 then Div(TopBytes(v), TWO_8) else TopBytes(v) }

  function Compacted(v: nat, fNegative: bool): nat {
    CompactSize(v) * TWO_24 + CompactWord(v) + if fNegative && CompactWord(v) != 0 then TWO_23 else 0
  }

  lemma BitLenUp(v: nat, b: nat, k: nat)
    requires BitLen(v, b) && b > 0
    ensures BitLen(v * Pow2(k), b + k)
  {
    hide Pow2;
    ScaledBound(v, k, b);
    ScaledBound(v, k, b - 1);
  }

  lemma BitLenDown(v: nat, b: nat, k: nat)
    requires BitLen(v, b) && k < b
    ensures BitLen(v / Pow2(k), b - k)
  {
    hide Pow2;
    Pow2Add(b - k, k);
    Pow2Add(b - k - 1, k);
    QuotientBetween(v, Pow2(k), Pow2(b - k - 1), Pow2(b - k));
  }

  lemma QuotientBetween(v: int, p: int, lo: int, hi: int)
    requires p >= 1 && lo * p <= v < hi * p
    ensures lo <= v / p < hi
  {
    var q := v / p;
    DivBounds(v, p);
    if q >= hi {
      MulMonoInt(hi, q, p);
    }
    if q < lo {
      MulMonoInt(q + 1, lo, p);
    }
  }

  lemma DivDiv(x: nat, a: nat, b: nat)
    requires a >= 1 && b >= 1
    ensures a * b >= 1 && x / a / b == x / (a * b)
  {
    var y := x / a;
    var q := y / b;
    assert a * b >= 1 by { MulMonoInt(1, a, b); }
    DivBounds(x, a);
    DivBounds(y, b);
    assert q * b * a <= y * a by { MulMonoInt(q * b, y, a); }
    assert (y + 1) * a <= (q * b + b) * a by { MulMonoInt(y + 1, q * b + b, a); }
    assert q * b * a == q * (a * b) && (q * b + b) * a == q * (a * b) + a * b && (y + 1) * a == y * a + a;
    DivUnique(x, a * b, q);
  }

  /** A scaled number with size bytes, whichever side of three. */
  function Scaled3(v: nat, n: nat): nat { if n <= 3 then Mul(v, Pow2(8 * (3 - n))) else Div(v, Pow2(8 * (n - 3))) }

  lemma OneByteLess(v: nat, n: nat)
    ensures Scaled3(v, n) / TWO_8 == Scaled3(v, n + 1)
  {
    Constants();
    hide Pow2;
    if n < 3 {
      Pow2Add(8 * (2 - n), 8);
      var x := v * Pow2(8 * (2 - n));
      assert v * (Pow2(8 * (2 - n)) * TWO_8) == x * TWO_8;
      Reduced(0, TWO_8, x);
    } else if n == 3 {
      UnitPow();
    } else {
      Pow2Add(8 * (n - 3), 8);
      DivDiv(v, Pow2(8 * (n - 3)), TWO_8);
    }
  }

  lemma Scaled3Bits(v: nat, b: nat, n: nat)
    requires BitLen(v, b) && b > 0 && 8 * n < b + 24
    ensures BitLen(Scaled3(v, n), b + 24 - 8 * n)
  {
    hide Pow2, BitLen;
    if n <= 3 {
      BitLenUp(v, b, 8 * (3 - n));
    } else {
      BitLenDown(v, b, 8 * (n - 3));
    }
  }

  /** The size is one more than the number of whole bytes of bits, and the mantissa keeps 16 to 23 bits. */
  lemma NormalForm(v: nat)
    requires v > 0
    ensures CompactSize(v) == BitsOf(v) / 8 + 1 && CompactWord(v) == Scaled3(v, CompactSize(v))
    ensures TWO_15 <= CompactWord(v) < TWO_23
    ensures BitLen(CompactWord(v), BitsOf(v) + 24 - 8 * CompactSize(v))
  {
    hide Pow2, Scaled3;
    var b := BitsOf(v);
    var n := (b + 7) / 8;
    assert b > 0;
    Constants();
    Scaled3Bits(v, b, n);
    var m := TopBytes(v);
    assert m == Scaled3(v, n) by { TopIs(v); }
    var t := b + 24 - 8 * n;
    Pow2Mono(t, 24);
    TopBit(m, 23);
    if t == 24 {
      OneByteLess(v, n);
      Scaled3Bits(v, b, n + 1);
    } else {
      Pow2Mono(t, 23);
      Pow2Mono(15, t - 1);
    }
  }

  lemma TopIs(v: nat)
    ensures TopBytes(v) == Scaled3(v, (BitsOf(v) + 7) / 8)
  {
  }

  lemma ZeroForm()
    ensures CompactSize(0) == 0 && CompactWord(0) == 0
  {
  }

  /** The fields of a compact number read back as they were written. */
  lemma Fields(n: nat, m: nat, neg: bool)
    requires m < TWO_23
    ensures var c := n * TWO_24 + m + if neg then TWO_23 else 0; Size(c) == n && Mantissa(c) == m && Sign(c) == neg
  {
    var s := if neg then TWO_23 else 0;
    var c := n * TWO_24 + m + s;
    DivUnique(c, TWO_24, n);
    var k := 2 * n + if neg then 1 else 0;
    assert c == m + k * TWO_23;
    Reduced(m, TWO_23, k);
  }

  /** Where the top bytes stand, so the number they keep. */
  function Kept(v: nat, n: nat): nat { if n <= 3 then v else Mul(Div(v, Pow2(8 * (n - 3))), Pow2(8 * (n - 3))) }

  lemma ReadBack(v: nat, neg: bool)
    requires v > 0
    ensures var c := Compacted(v, neg); Word(c) != 0 && Magnitude(c) == Kept(v, CompactSize(v)) && Sign(c) == neg
  {
    hide Pow2, CompactSize, CompactWord;
    NormalForm(v);
    var n, m := CompactSize(v), CompactWord(v);
    Fields(n, m, neg);
    if n <= 3 {
      var p := Pow2(8 * (3 - n));
      Reduced(0, p, v);
    }
  }

  lemma KeptBound(v: nat, p: nat, m: nat)
    requires p >= 1 && m == v / p && m >= TWO_15
    ensures m * p <= v && (v - m * p) * TWO_15 < v
  {
    DivBounds(v, p);
    MulMonoInt(TWO_15, m, p);
  }

  /** Decoding an encoded number gives no flags but the sign asked for, and a value at most v that is off by less
      than one part in 2^15; encoding that value again changes nothing. */
  lemma CompactRoundTrip(v: nat, neg: bool)
    requires v < W(WIDTH)
    ensures var e := Expand(Compacted(v, neg));
            && e.negative == (neg && v > 0) && !e.overflow && 0 <= e.value <= v
            && (v > 0 ==> (v - e.value) * TWO_15 < v)
            && Compacted(e.value, neg) == Compacted(v, neg)
  {
    hide Pow2, CompactSize, CompactWord, W, Expand;
    var c := Compacted(v, neg);
    OverflowExact(c);
    if v == 0 {
      ZeroForm();
      ZeroExpands();
    } else {
      var n := CompactSize(v);
      ReadBack(v, neg);
      NormalForm(v);
      SignIs(c);
      if n > 3 {
        KeptBound(v, Pow2(8 * (n - 3)), CompactWord(v));
        KeptAgain(v);
      }
      WMin();
    }
  }

  lemma WMin()
    ensures W(WIDTH) > 0
  {
  }

  lemma SignIs(c: nat)
    ensures Expand(c).negative == (Word(c) != 0 && Sign(c))
  {
  }

  lemma ZeroExpands()
    ensures Expand(0) == Expanded(0, false, false)
  {
    hide Pow2, W;
    assert Word(0) == 0 by { Shrinks(0, Pow2(24)); }
    Reduced(0, W(WIDTH), 0);
  }

  /** The kept part has the same size and the same top bytes. */
  lemma KeptAgain(v: nat)
    requires v > 0 && CompactSize(v) > 3
    ensures var w := Kept(v, CompactSize(v)); CompactSize(w) == CompactSize(v) && CompactWord(w) == CompactWord(v)
  {
    hide Pow2, CompactSize, CompactWord;
    NormalForm(v);
    var n, m := CompactSize(v), CompactWord(v);
    var k := 8 * (n - 3);
    var w := m * Pow2(k);
    BitLenUp(m, BitsOf(v) + 24 - 8 * n, k);
    BitLenUnique(w, BitsOf(w), BitsOf(v));
    assert w > 0 by { MulMonoInt(1, m, Pow2(k)); }
    NormalForm(w);
    Reduced(0, Pow2(k), m);
  }

  lemma BitsMono(a: nat, b: nat)
    requires a <= b
    ensures BitsOf(a) <= BitsOf(b)
  {
    hide BitsOf;
    var m, n := BitsOf(a), BitsOf(b);
    if n < m {
      Pow2Mono(n, m - 1);
    }
  }

  lemma DivMono(a: nat, b: nat, p: nat)
    requires a <= b && p >= 1
    ensures a / p <= b / p
  {
    DivBounds(a, p);
    DivBounds(b, p);
    if a / p > b / p {
      MulMonoInt(b / p + 1, a / p, p);
    }
  }

  /** A larger number never has a smaller compact form. */
  lemma CompactMonotone(a: nat, b: nat)
    requires a <= b
    ensures Compacted(a, false) <= Compacted(b, false)
  {
    hide Pow2, CompactSize, CompactWord, BitsOf;
    if a == 0 {
      ZeroForm();
    } else {
      NormalForm(a);
      NormalForm(b);
      BitsMono(a, b);
      var n := CompactSize(a);
      if n == CompactSize(b) {
        if n <= 3 {
          MulMonoInt(a, b, Pow2(8 * (3 - n)));
        } else {
          DivMono(a, b, Pow2(8 * (n - 3)));
        }
      }
    }
  }

  /* ---- The operations ---- */

  method SetCompact(x: BaseUint, nCompact: nat) returns (fNegative: bool, fOverflow: bool)
    requires x.pn.Length == WIDTH
    modifies x.pn
    ensures x.Valid() && Expanded(x.Value(), fNegative, fOverflow) == Expand(nCompact)
  {
    hide Pow2, W, N;
    var nSize := nCompact / TWO_24;
    var nWord := nCompact % TWO_23;
    WordBound(nCompact);
    if nSize <= 3 {
      nWord := nWord / Pow2(8 * (3 - nSize));
      x.SetWord(nWord);
      FitsWidth(nWord);
    } else {
      x.SetWord(nWord);
      x.ShlAssign(8 * (nSize - 3));
    }
    fNegative := nWord != 0 && nCompact / TWO_23 % 2 == 1;
    fOverflow := nWord != 0 && (nSize > 34 || (nWord > 0xff && nSize > 33) || (nWord > 0xffff && nSize > 32));
  }

  lemma FitsWidth(w: nat)
    requires w < TWO_23
    ensures w % W(WIDTH) == w
  {
    hide Pow2;
    Constants();
    Pow2Mono(23, 256);
    Reduced(w, W(WIDTH), 0);
  }

  method GetLow64(x: BaseUint) returns (r: nat)
    requires x.Valid()
    ensures r == x.Value() % (B * B)
  {
    hide Pow2, W, N;
    ghost var s := x.pn[..];
    LowLimbs(s);
    r := Or(x.pn[0], x.pn[1] * B);
  }

  lemma LowLimbs(s: seq<int>)
    requires |s| >= 2 && IsLimbs(s)
    ensures Or(s[0], s[1] * B) == N(s) % (B * B)
  {
    hide Pow2, W, N, Or;
    BIs();
    OrDisjoint(s[0], s[1], 32);
    NSplit(s, 1);
    NStep(s, 0);
    NFull(s);
    WZero();
    WNext(0);
    WNext(1);
    assert s[1] * B <= (B - 1) * B by { MulMonoInt(s[1], B - 1, B); }
    Reduced(s[0] + s[1] * B, B * B, N(s[2..]));
    assert W(2) * N(s[2..]) == N(s[2..]) * (B * B);
  }

  /** The top three bytes, before any renormalisation. */
  method GetTop(x: BaseUint, nSize: nat) returns (t: nat)
    requires x.Valid() && x.Value() >= 0 && nSize == (BitsOf(x.Value()) + 7) / 8
    ensures t == TopBytes(x.Value())
  {
    hide Pow2, W, N, BitLen, BitsOf;
    ghost var v := x.Value();
    TopBound(v);
    if nSize <= 3 {
      LowEnough(v, nSize);
      t := GetLow64(x);
      t := Mul(t, Pow2(8 * (3 - nSize)));
    } else {
      var bn := new BaseUint.Copy(x);
      bn.ShrAssign(8 * (nSize - 3));
      t := GetLow64(bn);
      Reduced(TopBytes(v), B * B, 0);
    }
  }

  method GetCompact(x: BaseUint, fNegative: bool) returns (nCompact: nat)
    requires x.Valid() && x.pn.Length == WIDTH
    ensures x.Value() >= 0 && nCompact == Compacted(x.Value(), fNegative)
    ensures nCompact < B
  {
    hide Pow2, W, N, BitLen, BitsOf, TopBytes;
    ghost var v := x.Value();
    NBound(x.pn[..]);
    var bits := x.Bits();
    BitLenUnique(v, bits, BitsOf(v));
    var nSize := (bits + 7) / 8;
    nCompact := GetTop(x, nSize);
    if nCompact / TWO_23 % 2 == 1 {
      nCompact := Div(nCompact, TWO_8);
      nSize := nSize + 1;
    }
    assert nSize == CompactSize(v) && nCompact == CompactWord(v);
    FormBound(v);
    nCompact := nCompact + nSize * TWO_24 + if fNegative && nCompact % TWO_23 != 0 then TWO_23 else 0;
  }

  lemma TopBound(v: nat)
    ensures 0 <= TopBytes(v) < TWO_24
  {
    hide Pow2, BitsOf, Scaled3;
    if v == 0 {
      ZeroTop();
    } else {
      Constants();
      var b := BitsOf(v);
      var n := (b + 7) / 8;
      assert b > 0;
      TopIs(v);
      Scaled3Bits(v, b, n);
      Pow2Mono(b + 24 - 8 * n, 24);
    }
  }

  lemma ZeroTop()
    ensures TopBytes(0) == 0
  {
  }

  /** The asserts of GetCompact: the mantissa stays clear of the sign bit and the size fits a byte. */
  lemma FormBound(v: nat)
    ensures CompactWord(v) < TWO_23
    ensures v < W(WIDTH) ==> CompactSize(v) <= 33
  {
    hide Pow2, CompactSize, CompactWord, BitsOf;
    if v == 0 {
      ZeroForm();
    } else {
      NormalForm(v);
      if v < W(WIDTH) && BitsOf(v) > 256 {
        Pow2Mono(256, BitsOf(v) - 1);
      }
    }
  }

  lemma LowEnough(v: nat, n: nat)
    requires n == (BitsOf(v) + 7) / 8 <= 3
    ensures v % (B * B) == v
  {
    hide Pow2, BitsOf;
    Constants();
    Pow2Mono(BitsOf(v), 24);
    Reduced(v, B * B, 0);
  }

  /** The work a block of this target stands for: zero for a bad target. */
  ghost function Work(nBits: nat): int {
    var e := Expand(nBits);
    if e.negative || e.overflow || e.value == 0 then 0 else W(WIDTH) / (e.value + 1)
  }

  /** A target is never the largest number, so adding one does not wrap to zero. */
  lemma TargetBelow(nBits: nat)
    requires !Expand(nBits).overflow
    ensures 0 <= Expand(nBits).value < W(WIDTH) - 1
  {
    hide Pow2, W;
    OverflowExact(nBits);
    WordBound(nBits);
    FitsWidth(TWO_23 - 1);
    if Size(nBits) > 3 {
      TopByteEven(nBits);
    } else {
      WBig();
    }
  }

  lemma WBig()
    ensures W(WIDTH) > TWO_23
  {
    hide Pow2;
    Constants();
    Pow2Mono(23, 256);
  }

  lemma TopByteEven(nBits: nat)
    requires Size(nBits) > 3
    ensures Magnitude(nBits) % 2 == 0 && W(WIDTH) % 2 == 0
  {
    hide Pow2;
    var k := 8 * (Size(nBits) - 3);
    DoublePow(k - 1);
    assert Word(nBits) * (2 * Pow2(k - 1)) == 2 * (Word(nBits) * Pow2(k - 1));
    DoublePow(255);
  }

  lemma WorkIs(t: int, m: int)
    requires 0 < t < m - 1
    ensures (m - 1 - t) / (t + 1) + 1 == m / (t + 1) < m
  {
    var d := t + 1;
    var q := m / d;
    DivBounds(m, d);
    assert (q - 1) * d == q * d - d;
    DivUnique(m - d, d, q - 1);
    if q >= m {
      MulMonoInt(2, d, q);
    }
  }

  /** Never divides by zero, and equals floor(2^256 / (target + 1)) for every usable target. */
  method GetBlockProof(nBits: nat) returns (r: BaseUint)
    ensures r.Valid() && r.pn.Length == WIDTH && fresh(r) && fresh(r.pn) && r.Value() == Work(nBits)
  {
    hide Pow2, W, N, Expand;
    var bnTarget := new BaseUint(WIDTH, 0);
    var fNegative, fOverflow := SetCompact(bnTarget, nBits);
    var zero := new BaseUint(WIDTH, 0);
    var c := bnTarget.CompareTo(zero);
    if fNegative || fOverflow || c == 0 {
      return zero;
    }
    ghost var t, m := bnTarget.Value(), W(WIDTH);
    TargetBelow(nBits);
    WorkIs(t, m);
    Reduced(t + 1, m, 0);
    r := bnTarget.Complement();
    var one := new BaseUint(WIDTH, 1);
    bnTarget.AddAssign(one);
    var ok := r.DivAssign(bnTarget);
    assert ok;
    Reduced(m / (t + 1), m, 0);
    var one' := new BaseUint(WIDTH, 1);
    r.AddAssign(one');
  }
}
