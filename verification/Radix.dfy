/** Numbers written in a base, most significant digit first, and the digit buffer that Base58 conversion
    multiplies and adds in place (src/base58.cpp). */
module Radix {
  import opened Powers

  function Val(base: nat, d: seq<int>): int {
    if d == [] then 0 else Val(base, d[..|d| - 1]) * base + d[|d| - 1]
  }

  predicate IsDigits(base: nat, d: seq<int>) { forall i | 0 <= i < |d| :: 0 <= d[i] < base }

  predicate NoLeadingZero(d: seq<int>) { d == [] || d[0] != 0 }

  predicate Zeros(d: seq<int>) { forall i | 0 <= i < |d| :: d[i] == 0 }

  /** The digits of a number, without leading zeros. */
  function Digits(base: nat, v: nat): seq<int>
    requires base >= 2
    decreases v
  {
    if v == 0 then [] else Digits(base, v / base) + [v % base]
  }

  lemma AppendBound(base: nat, v: int, p: int, x: int)
    requires 0 <= v < p && 0 <= x < base
    ensures 0 <= v * base + x < base * p
  {
    MulMonoInt(v + 1, p, base);
    assert 0 <= v * base;
  }

  lemma {:induction false} ValBound(base: nat, d: seq<int>)
    requires IsDigits(base, d)
    ensures 0 <= Val(base, d) < Pow(base, |d|)
    decreases |d|
  {
    if d != [] {
      var h := d[..|d| - 1];
      ValBound(base, h);
      AppendBound(base, Val(base, h), Pow(base, |h|), d[|d| - 1]);
    }
  }

  lemma {:induction false} ValConcat(base: nat, a: seq<int>, b: seq<int>)
    ensures Val(base, a + b) == Val(base, a) * Pow(base, |b|) + Val(base, b)
    decreases |b|
  {
    if b == [] {
      assert a + b == a;
    } else {
      var h, x := b[..|b| - 1], b[|b| - 1];
      ValConcat(base, a, h);
      assert (a + b)[..|a + b| - 1] == a + h;
      Spread(Val(base, a), Pow(base, |h|), Val(base, h), base);
    }
  }

  lemma Spread(v: int, p: int, w: int, base: int)
    ensures (v * p + w) * base == v * (base * p) + w * base
  {
    assert v * p * base == v * (base * p);
  }

  lemma {:induction false} ValZeros(base: nat, d: seq<int>)
    requires Zeros(d)
    ensures Val(base, d) == 0
    decreases |d|
  {
    if d != [] {
      ValZeros(base, d[..|d| - 1]);
    }
  }

  lemma DropZeros(base: nat, z: seq<int>, d: seq<int>)
    requires Zeros(z)
    ensures Val(base, z + d) == Val(base, d)
  {
    ValConcat(base, z, d);
    ValZeros(base, z);
  }

  lemma DivMod(a: int, base: int, x: int)
    requires 0 <= x < base
    ensures (a * base + x) / base == a && (a * base + x) % base == x
  {
    DivUnique(a * base + x, base, a);
    var q := (a * base + x) / base;
    assert q * base == a * base;
  }

  lemma Split(base: nat, v: nat)
    requires base >= 2 && v > 0
    ensures v / base < v && v / base * base + v % base == v && 0 <= v % base < base && (v / base == 0 ==> v % base == v)
  {
    var q, r := v / base, v % base;
    assert v == base * q + r;
    assert q >= 0;
    MulMonoInt(2, base, q);
  }

  lemma {:induction false} DigitsAre(base: nat, v: nat)
    requires base >= 2
    ensures Val(base, Digits(base, v)) == v && IsDigits(base, Digits(base, v)) && NoLeadingZero(Digits(base, v))
    decreases v
  {
    if v > 0 {
      Split(base, v);
      DigitsAre(base, v / base);
      var h := Digits(base, v / base);
      assert Digits(base, v)[..|h|] == h;
    }
  }

  /** A number has one representation without leading zeros. */
  lemma {:induction false} Canonical(base: nat, d: seq<int>)
    requires base >= 2 && IsDigits(base, d) && NoLeadingZero(d)
    ensures Val(base, d) >= 0 && Digits(base, Val(base, d)) == d
    decreases |d|
  {
    if d != [] {
      var h, x := d[..|d| - 1], d[|d| - 1];
      Canonical(base, h);
      DivMod(Val(base, h), base, x);
      assert Val(base, h) * base >= 0;
      if h != [] {
        Positive(base, h);
        assert Val(base, h) * base >= base by { MulMonoInt(1, Val(base, h), base); }
      }
      assert d == h + [x];
    }
  }

  lemma {:induction false} Positive(base: nat, d: seq<int>)
    requires base >= 2 && IsDigits(base, d) && d != [] && d[0] != 0
    ensures Val(base, d) > 0
    decreases |d|
  {
    if |d| > 1 {
      Positive(base, d[..|d| - 1]);
      MulMonoInt(1, Val(base, d[..|d| - 1]), base);
    }
  }

  /* ---- The buffer ---- */

  /** One step of the carry loop, as arithmetic. */
  lemma CarryStep(base: nat, mul: nat, p: int, new': int, old': int, carry: int, ch: int, x: int)
    requires base >= 2 && new' + carry * p == mul * old' + ch
    ensures var c := carry + mul * x; c % base * p + new' + c / base * (base * p) == mul * (x * p + old') + ch
  {
    var c := carry + mul * x;
    assert c == c / base * base + c % base;
    assert c / base * (base * p) == (c / base * base) * p;
    assert c % base * p + (c / base * base) * p == c * p by {
      assert (c % base + c / base * base) * p == c % base * p + (c / base * base) * p;
    }
    assert c * p == carry * p + mul * x * p;
    assert mul * (x * p + old') == mul * x * p + mul * old';
  }

  lemma CarryBound(base: nat, mul: nat, carry: int, x: int)
    requires base >= 2 && 0 <= carry < mul && 0 <= x < base
    ensures 0 <= (carry + mul * x) / base < mul && 0 <= (carry + mul * x) % base < base
  {
    var c := carry + mul * x;
    assert 0 <= mul * x <= mul * (base - 1) by { MulMonoInt(x, base - 1, mul); MulMonoInt(0, x, mul); }
    assert c < mul * base;
    DivBounds(c, base);
    if c / base >= mul {
      MulMonoInt(mul, c / base, base);
    }
  }

  lemma SuffixStep(base: nat, s: seq<int>, k: nat)
    requires k < |s|
    ensures Val(base, s[k..]) == s[k] * Pow(base, |s| - k - 1) + Val(base, s[k + 1..])
  {
    assert s[k..] == [s[k]] + s[k + 1..];
    ValConcat(base, [s[k]], s[k + 1..]);
    assert Val(base, [s[k]]) == s[k] by { assert [s[k]][..0] == []; }
  }

  /** The state of the carry loop after i digits from the right. */
  ghost predicate Carried(base: nat, mul: nat, ch: int, was: seq<int>, now: seq<int>, i: nat, carry: int) {
    && i <= |was| == |now| && IsDigits(base, now) && 0 <= carry < mul
    && now[..|was| - i] == was[..|was| - i]
    && Val(base, now[|was| - i..]) + carry * Pow(base, i) == mul * Val(base, was[|was| - i..]) + ch
  }

  lemma CarriedStep(base: nat, mul: nat, ch: int, was: seq<int>, now: seq<int>, i: nat, carry: int)
    requires base >= 2 && IsDigits(base, was) && Carried(base, mul, ch, was, now, i, carry) && i < |was|
    ensures var k := |was| - i - 1; var c := carry + mul * now[k];
            Carried(base, mul, ch, was, now[k := c % base], i + 1, c / base)
  {
    var k := |was| - i - 1;
    var x := now[k];
    assert now[..k + 1][k] == was[..k + 1][k];
    var c := carry + mul * x;
    var next := now[k := c % base];
    CarryBound(base, mul, carry, x);
    assert next[..k] == was[..k] by { assert now[..k] == now[..k + 1][..k] == was[..k + 1][..k]; }
    SuffixStep(base, was, k);
    SuffixStep(base, next, k);
    assert next[k + 1..] == now[k + 1..];
    CarryStep(base, mul, Pow(base, i), Val(base, now[k + 1..]), Val(base, was[k + 1..]), carry, ch, x);
  }

  lemma CarriedDone(base: nat, mul: nat, ch: int, was: seq<int>, now: seq<int>, i: nat)
    requires Carried(base, mul, ch, was, now, i, 0) && Zeros(was[..|was| - i])
    ensures Val(base, now) == mul * Val(base, was) + ch && Zeros(now[..|was| - i])
  {
    var k := |was| - i;
    assert now == now[..k] + now[k..] && was == was[..k] + was[k..];
    DropZeros(base, was[..k], was[k..]);
    DropZeros(base, now[..k], now[k..]);
  }

  /** If the result fits, no carry is left when the buffer is used up. */
  lemma NoOverflow(base: nat, mul: nat, ch: int, was: seq<int>, now: seq<int>, carry: int)
    requires Carried(base, mul, ch, was, now, |was|, carry) && mul * Val(base, was) + ch < Pow(base, |was|)
    ensures carry == 0
  {
    assert now[0..] == now && was[0..] == was;
    ValBound(base, now);
    if carry > 0 {
      MulMonoInt(1, carry, Pow(base, |was|));
    }
  }

  /** The carry loop: the number in the buffer becomes mul times itself plus ch. The `assert` of the source,
      that nothing is carried out of the buffer, holds whenever the result fits. */
  method Accumulate(buf: array<int>, base: nat, mul: nat, length: nat, ch: nat) returns (length': nat)
    requires base >= 2 && ch < mul && length <= buf.Length
    requires IsDigits(base, buf[..]) && Zeros(buf[..buf.Length - length])
    requires mul * Val(base, buf[..]) + ch < Pow(base, buf.Length)
    modifies buf
    ensures length' <= buf.Length && IsDigits(base, buf[..]) && Zeros(buf[..buf.Length - length'])
    ensures Val(base, buf[..]) == mul * old(Val(base, buf[..])) + ch
  {
    hide Val, Pow;
    ghost var was := buf[..];
    var carry, i := ch, 0;
    Start(base, mul, ch, was);
    while (carry != 0 || i < length) && i < buf.Length
      invariant Carried(base, mul, ch, was, buf[..], i, carry)
      decreases buf.Length - i
    {
      CarriedStep(base, mul, ch, was, buf[..], i, carry);
      var it := buf.Length - i - 1;
      carry := carry + mul * buf[it];
      buf[it] := carry % base;
      carry := carry / base;
      i := i + 1;
    }
    if i == buf.Length {
      NoOverflow(base, mul, ch, was, buf[..], carry);
    }
    assert carry == 0;
    CarriedDone(base, mul, ch, was, buf[..], i);
    length' := i;
  }

  lemma Start(base: nat, mul: nat, ch: int, was: seq<int>)
    requires IsDigits(base, was) && 0 <= ch < mul
    ensures Carried(base, mul, ch, was, was, 0, ch)
  {
    assert was[|was|..] == [];
  }
}
