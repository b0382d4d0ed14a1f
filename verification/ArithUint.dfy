/** base_uint (src/arith_uint256.h, src/arith_uint256.cpp): arithmetic on limb arrays of any width, each operation
    proved to be the arithmetic operation on numbers modulo two to the width. */
module ArithUint {
  import opened Powers
  import opened Limbs
  import opened LimbShifts

  /* ---- Long division ---- */

  /** Limb j has no bit below position t of the whole number. */
  predicate LimbClear(x: int, j: nat, t: nat) {
    (32 * j + 32 <= t ==> x == 0) && (32 * j < t < 32 * j + 32 ==> x % Pow2(t - 32 * j) == 0)
  }

  ghost predicate LowClear(s: seq<int>, t: nat) { forall j | 0 <= j < |s| :: LimbClear(s[j], j, t) }

  lemma HalfClear(x: int, m: nat)
    requires x % Pow2(m + 1) == 0
    ensures x % Pow2(m) == 0
  {
    var p, q := Pow2(m), x / Pow2(m + 1);
    assert x == q * (2 * p) == (2 * q) * p;
    Reduced(0, p, 2 * q);
  }

  lemma ZeroClear(m: nat)
    ensures 0 % Pow2(m) == 0
  {
  }

  lemma LowClearNext(s: seq<int>, t: nat)
    requires LowClear(s, t + 1)
    ensures LowClear(s, t)
  {
    hide Pow2;
    forall j | 0 <= j < |s| ensures LimbClear(s[j], j, t) {
      assert LimbClear(s[j], j, t + 1);
      if 32 * j < t < 32 * j + 32 {
        if t + 1 < 32 * j + 32 {
          HalfClear(s[j], t - 32 * j);
        } else {
          ZeroClear(t - 32 * j);
        }
      }
    }
  }

  /** A multiple of 2p below a power-of-two multiple of 2p leaves room for p. */
  lemma RoomForBit(y: int, q: int, p: int)
    requires 0 <= y && p >= 1 && q >= 1 && y * (2 * p) < q * (2 * p)
    ensures y * (2 * p) + p < q * (2 * p) && (y * (2 * p) + p) % p == 0
  {
    if y >= q {
      MulMonoInt(q, y, 2 * p);
    }
    MulMonoInt(y, q - 1, 2 * p);
    assert (q - 1) * (2 * p) == q * (2 * p) - 2 * p;
    assert y * (2 * p) + p == 0 + (2 * y + 1) * p;
    Reduced(0, p, 2 * y + 1);
  }

  /** Setting a bit above which everything lower is clear adds its weight. */
  lemma LimbBit(x: nat, r: nat)
    requires r < 32 && x < B && (if r == 31 then x == 0 else x % Pow2(r + 1) == 0)
    ensures Or(x, Pow2(r)) == x + Pow2(r) < B && (x + Pow2(r)) % Pow2(r) == 0
  {
    hide Pow2, Or;
    var p := Pow2(r);
    DoublePow(r);
    ZeroClear(r + 1);
    var y := x / (2 * p);
    assert x == y * (2 * p) && y >= 0 by { Exact(x, 2 * p); }
    BIs();
    Pow2Add(31 - r, r + 1);
    RoomForBit(y, Pow2(31 - r), p);
    OrDisjoint(p, y, r + 1);
    OrSym(p, x);
  }

  lemma Exact(x: nat, d: nat)
    requires d > 0 && x % d == 0
    ensures x == x / d * d && x / d >= 0
  {
  }

  lemma DoublePow(r: nat)
    ensures Pow2(r + 1) == 2 * Pow2(r)
  {
  }

  lemma QuotientBit(s: seq<int>, t: nat)
    requires IsLimbs(s) && t < 32 * |s| && LowClear(s, t + 1)
    ensures var k := t / 32; var v := Or(s[k], Pow2(t % 32));
            && IsLimbs(s[k := v]) && LowClear(s[k := v], t) && N(s[k := v]) == N(s) + Pow2(t)
  {
    hide Pow2, Or, N, W;
    var k, r := t / 32, t % 32;
    assert LimbClear(s[k], k, t + 1);
    LimbBit(s[k], r);
    var v := s[k] + Pow2(r);
    NPut(s, k, v);
    ShiftWeight(k, r);
    LowClearNext(s, t);
    var s' := s[k := v];
    forall j | 0 <= j < |s| ensures LimbClear(s'[j], j, t) {
      assert LimbClear(s[j], j, t);
    }
  }

  /** One round of the division loop, as arithmetic. */
  lemma DivRound(num: int, q: int, d: int, p: int, n: int)
    requires num + q * d == n && d > 0 && p >= 1
    ensures num - d * p + (q + p) * d == n
  {
    assert (q + p) * d == q * d + d * p;
  }

  lemma DivDone(num: int, q: int, d: int, n: int)
    requires num + q * d == n && 0 <= num < d
    ensures q == n / d
  {
    Reduced(num, d, q);
  }

  lemma Halve(d: int, t: nat)
    ensures d * Pow2(t + 1) == 2 * (d * Pow2(t)) && d * Pow2(t + 1) / 2 == d * Pow2(t)
  {
    assert d * (2 * Pow2(t)) == 2 * (d * Pow2(t));
  }

  /** Aligning the divisor with the dividend overshoots by less than one bit. */
  lemma Align(n: int, d: int, nb: nat, db: nat)
    requires BitLen(n, nb) && BitLen(d, db) && 0 < db <= nb
    ensures 0 < d * Pow2(nb - db) < Pow2(nb) && n < d * Pow2(nb - db + 1)
  {
    hide Pow2;
    var p := Pow2(nb - db);
    Pow2Add(db, nb - db);
    Pow2Add(db - 1, nb - db + 1);
    MulMonoInt(d + 1, Pow2(db), p);
    assert (d + 1) * p == d * p + p;
    MulMonoInt(Pow2(db - 1), d, Pow2(nb - db + 1));
    MulMonoInt(1, d, p);
  }

  class BaseUint {
    const pn: array<int>

    predicate Valid() reads pn { pn.Length >= 2 && IsLimbs(pn[..]) }

    ghost function Value(): int reads pn { N(pn[..]) }

    /** Two to the width: the modulus of the arithmetic. */
    ghost function Modulus(): int { W(pn.Length) }

    constructor (width: nat, b: nat)
      requires width >= 2 && b < B * B
      ensures Valid() && fresh(pn) && pn.Length == width && Value() == b
    {
      pn := new int[width](_ => 0);
      new;
      NZero(pn[..]);
      SetWord(b);
    }

    constructor Copy(b: BaseUint)
      requires b.Valid()
      ensures Valid() && fresh(pn) && pn.Length == b.pn.Length && pn[..] == b.pn[..]
    {
      pn := new int[b.pn.Length](i requires 0 <= i < b.pn.Length reads b.pn => b.pn[i]);
      new;
      assert pn[..] == b.pn[..];
    }

    /** Assignment of a 64-bit word. */
    method SetWord(b: nat)
      requires pn.Length >= 2 && b < B * B
      modifies pn
      ensures Valid() && Value() == b
    {
      hide W, N;
      pn[0] := b % B;
      pn[1] := b / B;
      for i := 2 to pn.Length
        invariant pn[0] == b % B && pn[1] == b / B && forall j | 2 <= j < i :: pn[j] == 0
      {
        pn[i] := 0;
      }
      TwoLimbs(pn[..], b);
    }

    method AddAssign(b: BaseUint)
      requires Valid() && b.Valid() && pn.Length == b.pn.Length
      modifies pn
      ensures Valid() && Value() == (old(Value()) + old(b.Value())) % Modulus()
    {
      hide N, W;
      ghost var x, y := pn[..], b.pn[..];
      var carry := 0;
      NFull(x);
      NFull(y);
      NFull(pn[..]);
      for i := 0 to pn.Length
        invariant IsLimbs(pn[..]) && 0 <= carry <= 1
        invariant pn[i..] == x[i..] && b.pn[i..] == y[i..]
        invariant N(pn[..i]) + carry * W(i) == N(x[..i]) + N(y[..i])
      {
        assert pn[i] == pn[i..][0] == x[i] && b.pn[i] == b.pn[i..][0] == y[i];
        ghost var before := pn[..i];
        AddStep(N(x[..i]), N(y[..i]), N(before), carry, x[i], y[i], i);
        NStep(x, i);
        NStep(y, i);
        var n := carry + pn[i] + b.pn[i];
        pn[i] := n % B;
        carry := n / B;
        assert pn[..i] == before;
        NStep(pn[..], i);
        assert pn[..][..i + 1] == pn[..i + 1] && pn[..][..i] == before;
        Tails(pn[..], x, i);
      }
      NFull(pn[..]);
      assert pn[..pn.Length] == pn[..];
      NBound(pn[..]);
      Reduced(Value(), W(pn.Length), carry);
    }

    /** Operator ~. */
    method Complement() returns (r: BaseUint)
      requires Valid()
      ensures r.Valid() && fresh(r) && fresh(r.pn) && r.pn.Length == pn.Length && r.Value() == Modulus() - 1 - Value()
    {
      hide N, W;
      r := new BaseUint(pn.Length, 0);
      for i := 0 to pn.Length
        invariant forall j | 0 <= j < i :: r.pn[j] == B - 1 - pn[j]
      {
        r.pn[i] := B - 1 - pn[i];
      }
      NComplement(pn[..], r.pn[..]);
    }

    /** Prefix ++: stops at the first limb that does not wrap. */
    method Increment()
      requires Valid()
      modifies pn
      ensures Valid() && Value() == (old(Value()) + 1) % Modulus()
    {
      hide N, W;
      ghost var x := pn[..];
      var i := 0;
      while i < pn.Length
        invariant i <= pn.Length && IsLimbs(pn[..])
        invariant forall j | 0 <= j < pn.Length :: if j < i then x[j] == B - 1 && pn[j] == 0 else pn[j] == x[j]
      {
        pn[i] := (pn[i] + 1) % B;
        if pn[i] != 0 {
          Carried(x, pn[..], i);
          return;
        }
        i := i + 1;
      }
      NOnes(x);
      NZero(pn[..]);
      Reduced(0, W(pn.Length), 1);
    }

    /** Unary minus. */
    method Negate() returns (r: BaseUint)
      requires Valid()
      ensures r.Valid() && fresh(r) && fresh(r.pn) && r.pn.Length == pn.Length
              && r.Value() == (Modulus() - Value()) % Modulus()
    {
      hide N, W;
      r := Complement();
      r.Increment();
    }

    method SubAssign(b: BaseUint)
      requires Valid() && b.Valid() && pn.Length == b.pn.Length
      modifies pn
      ensures Valid() && Value() == (old(Value()) - old(b.Value())) % Modulus()
    {
      hide N, W;
      ghost var x, y := Value(), b.Value();
      var m := b.Negate();
      AddAssign(m);
      SubWrap(x, y, W(pn.Length));
    }

    method CompareTo(b: BaseUint) returns (c: int)
      requires Valid() && b.Valid() && pn.Length == b.pn.Length
      ensures c == if Value() < b.Value() then -1 else if Value() > b.Value() then 1 else 0
    {
      hide N, W;
      var i := pn.Length - 1;
      while i >= 0
        invariant -1 <= i < pn.Length && forall j | i < j < pn.Length :: pn[j] == b.pn[j]
      {
        if pn[i] < b.pn[i] {
          NLess(pn[..], b.pn[..], i);
          return -1;
        }
        if pn[i] > b.pn[i] {
          NLess(b.pn[..], pn[..], i);
          return 1;
        }
        i := i - 1;
      }
      assert pn[..] == b.pn[..];
      return 0;
    }

    /** The number of significant bits. */
    method Bits() returns (n: nat)
      requires Valid()
      ensures BitLen(Value(), n) && n <= 32 * pn.Length
    {
      hide N, W;
      var pos := pn.Length - 1;
      while pos >= 0
        invariant -1 <= pos < pn.Length && forall j | pos < j < pn.Length :: pn[j] == 0
      {
        if pn[pos] != 0 {
          var k := LimbBits(pn[pos]);
          NBits(pn[..], pos, k);
          return 32 * pos + k;
        }
        pos := pos - 1;
      }
      NZero(pn[..]);
      return 0;
    }

    method ShlAssign(shift: nat)
      requires Valid()
      modifies pn
      ensures Valid() && Value() == old(Value()) * Pow2(shift) % Modulus()
    {
      hide N, W, Pow2, Low, High, ShlTo;
      var a := pn[..];
      ClearAll();
      var k, s := shift / 32, shift % 32;
      ShlStart(a, pn[..], k, s);
      for i := 0 to pn.Length
        invariant IsLimbs(pn[..]) && ShlTo(a, pn[..], k, s, i)
      {
        ghost var r := pn[..];
        ShlRoundIs(a, r, k, s, i);
        LowHigh(a[i], s);
        if i + k + 1 < pn.Length && s != 0 {
          pn[i + k + 1] := Or(pn[i + k + 1], High(a[i], s));
        }
        if i + k < pn.Length {
          pn[i + k] := Or(pn[i + k], Low(a[i], s));
        }
        assert pn[..] == ShlRound(a, r, k, s, i);
      }
      ShlIs(a, pn[..], k, s);
      assert 32 * k + s == shift;
    }

    method ShrAssign(shift: nat)
      requires Valid()
      modifies pn
      ensures Valid() && Value() == old(Value()) / Pow2(shift)
    {
      hide N, W, Pow2, Low, High, ShrTo, Shr32;
      var a := pn[..];
      ClearAll();
      var k, s := shift / 32, shift % 32;
      ShrStart(a, pn[..], k, s);
      for i := 0 to pn.Length
        invariant IsLimbs(pn[..]) && ShrTo(a, pn[..], k, s, i)
      {
        ghost var r := pn[..];
        ShrRoundIs(a, r, k, s, i);
        LowHigh(a[i], 32 - s);
        if i - k - 1 >= 0 && s != 0 {
          pn[i - k - 1] := Or(pn[i - k - 1], Low(a[i], 32 - s));
        }
        if i - k >= 0 {
          pn[i - k] := Or(pn[i - k], Shr32(a[i], s));
        }
        assert pn[..] == ShrRound(a, r, k, s, i);
      }
      ShrIs(a, pn[..], k, s);
      assert 32 * k + s == shift;
    }

    method ClearAll()
      modifies pn
      ensures forall j | 0 <= j < pn.Length :: pn[j] == 0
    {
      for i := 0 to pn.Length
        invariant forall j | 0 <= j < i :: pn[j] == 0
      {
        pn[i] := 0;
      }
    }

    /** Multiplication by a 32-bit word. */
    method MulWord(b32: int)
      requires Valid() && 0 <= b32 < B
      modifies pn
      ensures Valid() && Value() == old(Value()) * b32 % Modulus()
    {
      hide N, W;
      ghost var x := pn[..];
      var carry := 0;
      NFull(x);
      NFull(pn[..]);
      for i := 0 to pn.Length
        invariant IsLimbs(pn[..]) && 0 <= carry < B && pn[i..] == x[i..]
        invariant N(pn[..i]) + carry * W(i) == N(x[..i]) * b32
      {
        assert pn[i] == pn[i..][0] == x[i];
        ghost var before := pn[..i];
        MulStep(N(x[..i]), N(before), carry, x[i], b32, i);
        NStep(x, i);
        var n := carry + b32 * pn[i];
        pn[i] := n % B;
        carry := n / B;
        assert pn[..i] == before;
        NStep(pn[..], i);
        assert pn[..][..i + 1] == pn[..i + 1] && pn[..][..i] == before;
        Tails(pn[..], x, i);
      }
      NFull(pn[..]);
      assert pn[..pn.Length] == pn[..];
      NBound(pn[..]);
      Reduced(Value(), W(pn.Length), carry);
    }

    /** Adds x * b, moved up by j limbs, to an accumulator. */
    method AddProduct(a: array<int>, x: int, j: nat) returns (ghost carry: int)
      requires Valid() && a != pn && a.Length == pn.Length && IsLimbs(a[..]) && 0 <= x < B && j < pn.Length
      modifies a
      ensures IsLimbs(a[..]) && N(a[..]) + carry * W(pn.Length) == old(N(a[..])) + x * W(j) * N(pn[..pn.Length - j])
    {
      hide N, W;
      ghost var sum := N(a[..]);
      var c, i := 0, 0;
      NFull(pn[..]);
      assert pn[..][..0] == pn[..0];
      while i + j < pn.Length
        invariant i + j <= pn.Length && IsLimbs(a[..]) && 0 <= c < B
        invariant N(a[..]) + c * W(i + j) == sum + x * W(j) * N(pn[..i])
      {
        ghost var s := a[..];
        var n := c + a[i + j] + x * pn[i];
        ProductBound(c, a[i + j], x, pn[i]);
        NPut(s, i + j, n % B);
        ProductStep(N(s), sum, c, s[i + j], x, pn[i], N(pn[..i]), i, j);
        NStep(pn[..], i);
        assert pn[..][..i + 1] == pn[..i + 1] && pn[..][..i] == pn[..i];
        a[i + j] := n % B;
        assert a[..] == s[i + j := n % B];
        c := n / B;
        i := i + 1;
      }
      carry := c;
    }

    method MulAssign(b: BaseUint)
      requires Valid() && b.Valid() && pn.Length == b.pn.Length
      modifies pn
      ensures Valid() && Value() == old(Value()) * old(b.Value()) % Modulus()
    {
      hide N, W, IsLimbs;
      ghost var x, y := pn[..], b.pn[..];
      var a := new int[pn.Length](_ => 0);
      NZero(a[..]);
      ZeroLimbs(a[..]);
      NFull(x);
      ghost var k := 0;
      for j := 0 to pn.Length
        invariant IsLimbs(a[..]) && pn[..] == x && b.pn[..] == y
        invariant N(a[..]) + k * W(pn.Length) == N(x[..j]) * N(y)
      {
        ghost var s := N(a[..]);
        LimbAt(x, j);
        ghost var c := b.AddProduct(a, pn[j], j);
        ProductRow(s, N(a[..]), k, c, x, y, j);
        k := k + c + x[j] * N(y[pn.Length - j..]);
      }
      NBound(a[..]);
      Reduced(N(a[..]), W(pn.Length), k);
      Assign(a);
    }

    /** operator=: limb by limb. */
    method Assign(a: array<int>)
      requires a.Length == pn.Length && a != pn
      modifies pn
      ensures pn[..] == a[..]
    {
      for i := 0 to pn.Length
        modifies pn
        invariant pn[..i] == a[..i]
      {
        pn[i] := a[i];
      }
      assert pn[..] == pn[..pn.Length] && a[..] == a[..a.Length];
    }

    /** Sets a bit of the quotient. */
    method SetQuotientBit(shift: nat)
      requires Valid() && shift < 32 * pn.Length && LowClear(pn[..], shift + 1)
      modifies pn
      ensures Valid() && LowClear(pn[..], shift) && Value() == old(Value()) + Pow2(shift)
    {
      hide N, LowClear, Pow2, Or;
      QuotientBit(pn[..], shift);
      ghost var s := pn[..];
      pn[shift / 32] := Or(pn[shift / 32], Pow2(shift % 32));
      assert pn[..] == s[shift / 32 := Or(s[shift / 32], Pow2(shift % 32))];
    }

    /** One round of long division: decides bit `shift` of the quotient. */
    method DivideBit(num: BaseUint, div: BaseUint, shift: nat, ghost d: int, ghost n: int)
      requires Valid() && num.Valid() && div.Valid() && num.pn.Length == div.pn.Length == pn.Length
               && shift < 32 * pn.Length
      requires pn != num.pn && pn != div.pn && num.pn != div.pn && d > 0
      requires LowClear(pn[..], shift + 1) && num.Value() + Value() * d == n
      requires 0 <= num.Value() < d * Pow2(shift + 1) && div.Value() == d * Pow2(shift)
      modifies pn, num.pn, div.pn
      ensures Valid() && num.Valid() && div.Valid()
      ensures LowClear(pn[..], shift) && num.Value() + Value() * d == n
      ensures 0 <= num.Value() < d * Pow2(shift) && (shift > 0 ==> div.Value() == d * Pow2(shift - 1))
    {
      hide N, W, Pow2, LowClear, IsLimbs;
      ghost var m, q := num.Value(), Value();
      Halve(d, shift);
      HalfShift(d, shift);
      var c := num.CompareTo(div);
      if c >= 0 {
        assert d * Pow2(shift) >= 0 by { MulMonoInt(0, d, Pow2(shift)); }
        SmallSub(num.pn[..], m - d * Pow2(shift));
        num.SubAssign(div);
        SetQuotientBit(shift);
        DivRound(m, q, d, Pow2(shift), n);
      } else {
        LowClearNext(pn[..], shift);
      }
      div.ShrAssign(1);
    }

    /** Shift and subtract. The quotient is exact; a zero divisor is an error, reported after this number has
        been cleared. */
    method DivAssign(b: BaseUint) returns (ok: bool)
      requires Valid() && b.Valid() && pn.Length == b.pn.Length
      modifies pn
      ensures Valid() && (ok <==> old(b.Value()) != 0)
      ensures Value() == if ok then old(Value()) / old(b.Value()) else 0
    {
      hide N, W, Pow2, LowClear, BitLen, IsLimbs;
      ghost var n, d := Value(), b.Value();
      var div := new BaseUint.Copy(b);
      var num := new BaseUint.Copy(this);
      SetWord(0);
      var numBits := num.Bits();
      var divBits := div.Bits();
      ZeroBits(n, numBits);
      ZeroBits(d, divBits);
      if divBits == 0 {
        return false;
      }
      ok := true;
      Sizes(n, d, numBits, divBits);
      if divBits > numBits {
        return;
      }
      var shift := numBits - divBits;
      Align(n, d, numBits, divBits);
      Fits(d * Pow2(shift), numBits, pn.Length);
      div.ShlAssign(shift);
      AllClear(pn[..], shift + 1);
      while shift >= 0
        invariant -1 <= shift < 32 * pn.Length && Valid() && num.Valid() && div.Valid()
        invariant num.pn.Length == div.pn.Length == pn.Length && fresh(num.pn) && fresh(div.pn) && num.pn != div.pn
        invariant LowClear(pn[..], shift + 1) && num.Value() + Value() * d == n
        invariant 0 <= num.Value() < d * Pow2(shift + 1)
        invariant shift >= 0 ==> div.Value() == d * Pow2(shift)
        decreases shift
      {
        DivideBit(num, div, shift, d, n);
        shift := shift - 1;
      }
      UnitPow();
      DivDone(num.Value(), Value(), d, n);
    }
  }

  lemma MulStep(v: int, r: int, carry: int, x: int, b: int, i: nat)
    requires r + carry * W(i) == v * b && 0 <= carry < B && 0 <= x < B && 0 <= b < B
    ensures var n := carry + b * x; r + n % B * W(i) + n / B * W(i + 1) == (v + x * W(i)) * b && 0 <= n / B < B
  {
    hide W;
    var n := carry + b * x;
    WNext(i);
    var q, m := n / B, n % B;
    assert n == q * B + m;
    assert q * (B * W(i)) + m * W(i) == n * W(i) by { assert (q * B + m) * W(i) == q * B * W(i) + m * W(i); }
    assert n * W(i) == carry * W(i) + b * x * W(i);
    assert (v + x * W(i)) * b == v * b + b * x * W(i);
    ProductBound(carry, 0, b, x);
  }

  lemma ProductBound(c: int, a: int, x: int, y: int)
    requires 0 <= c < B && 0 <= a < B && 0 <= x < B && 0 <= y < B
    ensures 0 <= (c + a + x * y) / B < B && 0 <= (c + a + x * y) % B < B
  {
    assert 0 <= x * y <= (B - 1) * (B - 1) by {
      MulMonoInt(x, B - 1, y);
      MulMonoInt(y, B - 1, B - 1);
      MulMonoInt(0, x, y);
    }
    var n := c + a + x * y;
    assert n < B * B;
    DivBounds(n, B);
  }

  lemma ProductStep(n: int, sum: int, c: int, old': int, x: int, y: int, v: int, i: nat, j: nat)
    requires n + c * W(i + j) == sum + x * W(j) * v
    ensures var m := c + old' + x * y;
            n + (m % B - old') * W(i + j) + m / B * W(i + 1 + j) == sum + x * W(j) * (v + y * W(i))
  {
    hide W;
    var m, w := c + old' + x * y, W(i + j);
    WNext(i + j);
    WAdd(j, i);
    assert i + 1 + j == i + j + 1 && j + i == i + j;
    var q, r := m / B, m % B;
    assert m == q * B + r;
    assert (r - old') * w + q * (B * w) == (r + q * B - old') * w;
    assert (c + x * y) * w == c * w + x * y * w;
    assert x * y * (W(j) * W(i)) == x * W(j) * (y * W(i));
    assert x * W(j) * (v + y * W(i)) == x * W(j) * v + x * W(j) * (y * W(i));
  }

  lemma ProductRow(s: int, s': int, k: int, c: int, x: seq<int>, y: seq<int>, j: nat)
    requires |x| == |y| && j < |x| && s + k * W(|x|) == N(x[..j]) * N(y)
    requires s' + c * W(|x|) == s + x[j] * W(j) * N(y[..|x| - j])
    ensures s' + (k + c + x[j] * N(y[|x| - j..])) * W(|x|) == N(x[..j + 1]) * N(y)
  {
    hide N, W;
    var m := |x| - j;
    assert y == y[..m] + y[m..];
    NConcat(y[..m], y[m..]);
    WAdd(j, m);
    NStep(x, j);
    RowArith(s, s', k, c, N(x[..j]), x[j], W(j), N(y[..m]), N(y[m..]), W(m));
  }

  lemma RowArith(s: int, s': int, k: int, c: int, v: int, x: int, wj: int, lo: int, up: int, wm: int)
    requires s + k * (wj * wm) == v * (lo + wm * up) && s' + c * (wj * wm) == s + x * wj * lo
    ensures s' + (k + c + x * up) * (wj * wm) == (v + x * wj) * (lo + wm * up)
  {
    var w := wj * wm;
    assert (k + c + x * up) * w == k * w + c * w + x * up * w;
    assert x * up * w == x * wj * (wm * up);
    assert x * wj * (lo + wm * up) == x * wj * lo + x * wj * (wm * up);
    assert (v + x * wj) * (lo + wm * up) == v * (lo + wm * up) + x * wj * (lo + wm * up);
  }

  lemma ZeroLimbs(s: seq<int>)
    requires forall i | 0 <= i < |s| :: s[i] == 0
    ensures IsLimbs(s)
  {
  }

  lemma LimbAt(s: seq<int>, i: nat)
    requires IsLimbs(s) && i < |s|
    ensures 0 <= s[i] < B
  {
  }

  lemma TwoLimbs(s: seq<int>, b: nat)
    requires |s| >= 2 && b < B * B && s[0] == b % B && s[1] == b / B && forall j | 2 <= j < |s| :: s[j] == 0
    ensures IsLimbs(s) && N(s) == b
  {
    hide W, N;
    DivBounds(b, B);
    var t := s[2..];
    assert s == s[..2] + t;
    NConcat(s[..2], t);
    NZero(t);
    NStep(s, 0);
    NStep(s, 1);
    NFull(s);
    WZero();
    WNext(0);
    assert W(2) * N(t) == 0;
    assert 0 <= b / B < B;
  }

  lemma Tails(a: seq<int>, x: seq<int>, i: nat)
    requires |a| == |x| && i < |a| && forall j | i < j < |a| :: a[j] == x[j]
    ensures a[i + 1..] == x[i + 1..]
  {
  }

  /** The number after a one has been carried into limb i. */
  lemma Carried(x: seq<int>, y: seq<int>, i: nat)
    requires IsLimbs(x) && |x| == |y| && i < |x| && x[i] < B - 1 && y[i] == x[i] + 1
    requires forall j | 0 <= j < |x| && j != i :: if j < i then x[j] == B - 1 && y[j] == 0 else y[j] == x[j]
    ensures IsLimbs(y) && N(y) == (N(x) + 1) % W(|x|)
  {
    hide N, W;
    NSplit(x, i);
    NSplit(y, i);
    assert x[i + 1..] == y[i + 1..];
    NOnes(x[..i]);
    NZero(y[..i]);
    assert y[i] * W(i) == x[i] * W(i) + W(i);
    NBound(y);
    Reduced(N(y), W(|x|), 0);
  }

  lemma SubWrap(x: int, y: int, m: int)
    requires m > 0
    ensures (x + (m - y) % m) % m == (x - y) % m
  {
    var q := (m - y) / m;
    assert (m - y) % m == m - y - q * m;
    ModShift(x - y, m, 1 - q);
    assert x + (m - y) % m == x - y + (1 - q) * m;
  }

  lemma ModShift(v: int, m: int, k: int)
    requires m > 0
    ensures (v + k * m) % m == v % m
  {
    var q, r := v / m, v % m;
    assert v == q * m + r;
    assert v + k * m == r + (q + k) * m;
    Reduced(r, m, q + k);
  }

  /** The inner loop of bits(): the position of the highest set bit of a nonzero limb. */
  method LimbBits(x: int) returns (n: nat)
    requires 0 < x < B
    ensures 0 < n <= 32 && BitLen(x, n)
  {
    BIs();
    hide Pow2;
    var nbits := 31;
    while nbits > 0
      invariant 0 <= nbits <= 31 && x < Pow2(nbits + 1)
    {
      TopBit(x, nbits);
      if x / Pow2(nbits) % 2 == 1 {
        return nbits + 1;
      }
      nbits := nbits - 1;
    }
    UnitPow();
    return 1;
  }

  lemma TopBit(x: int, n: nat)
    requires 0 <= x < Pow2(n + 1)
    ensures x / Pow2(n) % 2 == 1 <==> x >= Pow2(n)
  {
    var p := Pow2(n);
    if x >= p {
      DivUnique(x, p, 1);
    } else {
      DivUnique(x, p, 0);
    }
  }

  lemma ShlStart(a: seq<int>, r: seq<int>, k: nat, s: nat)
    requires |r| == |a| && s < 32 && forall j | 0 <= j < |r| :: r[j] == 0
    ensures IsLimbs(r) && ShlTo(a, r, k, s, 0)
  {
  }

  lemma ShrStart(a: seq<int>, r: seq<int>, k: nat, s: nat)
    requires |r| == |a| && s < 32 && forall j | 0 <= j < |r| :: r[j] == 0
    ensures IsLimbs(r) && ShrTo(a, r, k, s, 0)
  {
  }

  lemma ZeroBits(d: int, n: nat)
    requires BitLen(d, n)
    ensures n == 0 <==> d == 0
    ensures d >= 0
  {
  }

  /** A longer divisor is a larger one. */
  lemma Sizes(n: int, d: int, nb: nat, db: nat)
    requires BitLen(n, nb) && BitLen(d, db) && db > 0
    ensures db > nb ==> n / d == 0
  {
    if db > nb {
      Pow2Mono(nb, db - 1);
      DivUnique(n, d, 0);
    }
  }

  lemma AllClear(s: seq<int>, t: nat)
    requires IsLimbs(s) && N(s) == 0
    ensures LowClear(s, t)
  {
    hide Pow2;
    forall j | 0 <= j < |s| ensures LimbClear(s[j], j, t) {
      ZeroLimb(s, j);
      if 32 * j < t < 32 * j + 32 {
        ZeroClear(t - 32 * j);
      }
    }
  }

  lemma ZeroLimb(s: seq<int>, j: nat)
    requires IsLimbs(s) && N(s) == 0 && j < |s|
    ensures s[j] == 0
  {
    hide N, W;
    NSplit(s, j);
    NBound(s[..j]);
    NBound(s[j + 1..]);
    assert W(j + 1) * N(s[j + 1..]) >= 0 by { MulMonoInt(0, N(s[j + 1..]), W(j + 1)); }
    if s[j] > 0 {
      MulMonoInt(1, s[j], W(j));
    }
  }

  lemma Fits(v: int, bits: nat, width: nat)
    requires 0 <= v < Pow2(bits) && bits <= 32 * width
    ensures v % W(width) == v
  {
    hide Pow2;
    Pow2Mono(bits, 32 * width);
    Reduced(v, W(width), 0);
  }

  lemma SmallSub(s: seq<int>, v: int)
    requires IsLimbs(s) && 0 <= v <= N(s)
    ensures v % W(|s|) == v
  {
    NBound(s);
    Reduced(v, W(|s|), 0);
  }

  lemma HalfShift(d: int, t: nat)
    ensures Pow2(1) == 2 && (t > 0 ==> d * Pow2(t) / 2 == d * Pow2(t - 1))
  {
    if t > 0 {
      Halve(d, t - 1);
    }
  }
}
