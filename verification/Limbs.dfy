/** Numbers as 32-bit limbs, least significant first (src/arith_uint256.h, src/arith_uint256.cpp), on values: what each
    limb loop adds up to. */
module Limbs {
  import opened Powers

  const B := 0x1_0000_0000

  lemma BIs()
    ensures B == Pow2(32)
  {
    assert Pow2(8) == 256;
    hide Pow2;
    Pow2Add(8, 8);
    Pow2Add(16, 16);
  }

  /** The weight of a limb. */
  function W(i: nat): (w: nat) ensures w >= 1 { Pow2(32 * i) }

  lemma WNext(i: nat)
    ensures W(i + 1) == B * W(i)
  {
    BIs();
    Pow2Add(32, 32 * i);
  }

  lemma WAdd(i: nat, j: nat)
    ensures W(i + j) == W(i) * W(j)
  {
    hide Pow2;
    Pow2Add(32 * i, 32 * j);
  }

  predicate IsLimbs(s: seq<int>) { forall i | 0 <= i < |s| :: 0 <= s[i] < B }

  /** The number the limbs stand for. */
  function N(s: seq<int>): int {
    if s == [] then 0 else N(s[..|s| - 1]) + s[|s| - 1] * W(|s| - 1)
  }

  lemma NStep(s: seq<int>, i: nat)
    requires i < |s|
    ensures N(s[..i + 1]) == N(s[..i]) + s[i] * W(i)
  {
    assert s[..i + 1][..i] == s[..i];
  }

  lemma NFull(s: seq<int>)
    ensures N(s[..0]) == 0 && N(s[..|s|]) == N(s)
  {
    assert s[..|s|] == s;
  }

  lemma {:induction false} NBound(s: seq<int>)
    requires IsLimbs(s)
    ensures 0 <= N(s) < W(|s|)
    decreases |s|
  {
    if s != [] {
      var h, x := s[..|s| - 1], s[|s| - 1];
      NBound(h);
      WNext(|h|);
      assert 0 <= x * W(|h|) <= (B - 1) * W(|h|) by { MulMonoInt(x, B - 1, W(|h|)); MulMonoInt(0, x, W(|h|)); }
    }
  }

  lemma {:induction false} NConcat(a: seq<int>, b: seq<int>)
    ensures N(a + b) == N(a) + W(|a|) * N(b)
    decreases |b|
  {
    if b == [] {
      assert a + b == a;
    } else {
      var h, x := b[..|b| - 1], b[|b| - 1];
      NConcat(a, h);
      assert (a + b)[..|a + b| - 1] == a + h;
      hide W;
      WAdd(|a|, |h|);
      Gather(W(|a|), N(h), x, W(|h|));
    }
  }

  lemma Gather(w: int, n: int, x: int, v: int)
    ensures w * n + x * (w * v) == w * (n + x * v)
  {
    assert x * (w * v) == w * (x * v);
  }

  lemma {:induction false} NZero(s: seq<int>)
    requires forall i | 0 <= i < |s| :: s[i] == 0
    ensures N(s) == 0
    decreases |s|
  {
    if s != [] {
      NZero(s[..|s| - 1]);
    }
  }

  /** Changing one limb. */
  lemma NPut(s: seq<int>, k: nat, v: int)
    requires k < |s|
    ensures N(s[k := v]) == N(s) + (v - s[k]) * W(k)
  {
    hide N, W;
    var t := s[k := v];
    NSplit(s, k);
    NSplit(t, k);
    assert t[..k] == s[..k] && t[k + 1..] == s[k + 1..];
    assert (v - s[k]) * W(k) == v * W(k) - s[k] * W(k);
  }

  lemma NSplit(s: seq<int>, k: nat)
    requires k < |s|
    ensures N(s) == N(s[..k]) + s[k] * W(k) + W(k + 1) * N(s[k + 1..])
  {
    NStep(s, k);
    assert s == s[..k + 1] + s[k + 1..];
    NConcat(s[..k + 1], s[k + 1..]);
  }

  /** A number below the capacity is its own remainder. */
  lemma Reduced(x: int, m: int, q: int)
    requires m > 0 && 0 <= x < m
    ensures (x + q * m) % m == x && (x + q * m) / m == q
  {
    DivUnique(x + q * m, m, q);
  }

  /* ---- Addition ---- */

  lemma AddStep(a: int, b: int, r: int, carry: int, x: int, y: int, i: nat)
    requires r + carry * W(i) == a + b
    ensures var n := carry + x + y; r + n % B * W(i) + n / B * W(i + 1) == a + x * W(i) + (b + y * W(i))
  {
    var n := carry + x + y;
    WNext(i);
    var q, m := n / B, n % B;
    assert n == q * B + m;
    assert q * (B * W(i)) == (q * B) * W(i);
    assert m * W(i) + (q * B) * W(i) == n * W(i) by { assert (m + q * B) * W(i) == m * W(i) + (q * B) * W(i); }
    assert n * W(i) == carry * W(i) + x * W(i) + y * W(i);
  }

  /* ---- Complement and increment ---- */

  lemma {:induction false} NComplement(s: seq<int>, c: seq<int>)
    requires |s| == |c| && forall i | 0 <= i < |s| :: c[i] == B - 1 - s[i]
    ensures N(c) == W(|s|) - 1 - N(s)
    decreases |s|
  {
    if s != [] {
      var k := |s| - 1;
      NComplement(s[..k], c[..k]);
      WNext(k);
      hide W;
      assert c[k] * W(k) == (B - 1 - s[k]) * W(k) == B * W(k) - W(k) - s[k] * W(k);
    }
  }

  /** Carrying a one past limbs that wrapped to zero. */
  lemma {:induction false} NOnes(s: seq<int>)
    requires forall i | 0 <= i < |s| :: s[i] == B - 1
    ensures N(s) == W(|s|) - 1
    decreases |s|
  {
    if s != [] {
      var k := |s| - 1;
      NOnes(s[..k]);
      WNext(k);
      assert (B - 1) * W(k) == B * W(k) - W(k);
    }
  }

  /* ---- Order ---- */

  /** Limbs that agree above k are ordered as limb k is. */
  lemma NLess(s: seq<int>, t: seq<int>, k: nat)
    requires |s| == |t| && k < |s| && IsLimbs(s) && IsLimbs(t) && s[k] < t[k] && forall j | k < j < |s| :: s[j] == t[j]
    ensures N(s) < N(t)
  {
    hide N, W;
    NSplit(s, k);
    NSplit(t, k);
    NBound(s[..k]);
    NBound(t[..k]);
    assert s[k + 1..] == t[k + 1..];
    LessBy(N(s[..k]), N(t[..k]), s[k], t[k], W(k));
  }

  lemma LessBy(a: int, b: int, x: int, y: int, w: int)
    requires 0 <= a < w && 0 <= b && x < y
    ensures a + x * w < b + y * w
  {
    MulMonoInt(x + 1, y, w);
    assert (x + 1) * w == x * w + w;
  }

  /* ---- Bit length ---- */

  /** x has exactly n significant bits. */
  predicate BitLen(x: int, n: nat) { if n == 0 then x == 0 else Pow2(n - 1) <= x < Pow2(n) }

  lemma BitLenUnique(x: int, m: nat, n: nat)
    requires BitLen(x, m) && BitLen(x, n)
    ensures m == n
  {
    if m < n {
      Pow2Mono(m, n - 1);
    } else if n < m {
      Pow2Mono(n, m - 1);
    }
  }

  /** The bit length of a number whose top limb is k. */
  lemma NBits(s: seq<int>, k: nat, n: nat)
    requires k < |s| && IsLimbs(s) && (forall i | k < i < |s| :: s[i] == 0) && 0 < n <= 32 && BitLen(s[k], n)
    ensures BitLen(N(s), 32 * k + n)
  {
    hide N, W;
    NSplit(s, k);
    NZero(s[k + 1..]);
    NBound(s[..k]);
    assert W(k + 1) * N(s[k + 1..]) == 0;
    Scaled(N(s[..k]), s[k], W(k), n);
    ShiftWeight(k, n);
    ShiftWeight(k, n - 1);
  }

  lemma ShiftWeight(k: nat, n: nat)
    ensures Pow2(32 * k + n) == Pow2(n) * W(k)
  {
    hide Pow2;
    Pow2Add(32 * k, n);
    assert W(k) * Pow2(n) == Pow2(n) * W(k);
  }

  lemma Scaled(a: int, x: int, w: int, n: nat)
    requires 0 <= a < w && 0 < n && BitLen(x, n)
    ensures Pow2(n - 1) * w <= a + x * w < Pow2(n) * w
  {
    hide Pow2;
    MulMonoInt(Pow2(n - 1), x, w);
    MulMonoInt(x + 1, Pow2(n), w);
    assert (x + 1) * w == x * w + w;
  }

  /* ---- Bitwise or ---- */

  function Or(x: nat, y: nat): nat
    decreases x + y
  {
    if x == 0 && y == 0 then 0
    else 2 * Or(x / 2, y / 2) + if x % 2 == 1 || y % 2 == 1 then 1 else 0
  }

  lemma {:induction false} OrSym(x: nat, y: nat)
    ensures Or(x, y) == Or(y, x)
    decreases x + y
  {
    if x + y > 0 {
      OrSym(x / 2, y / 2);
    }
  }

  /** Or is addition when the operands share no bit position. */
  lemma {:induction false} OrDisjoint(x: nat, y: nat, n: nat)
    requires x < Pow2(n)
    ensures Or(x, y * Pow2(n)) == x + y * Pow2(n)
    decreases n
  {
    if n == 0 {
      OrZero(y);
    } else {
      var p := Pow2(n - 1);
      assert y * Pow2(n) == 2 * (y * p);
      OrDisjoint(x / 2, y, n - 1);
    }
  }

  lemma {:induction false} OrZero(y: nat)
    ensures Or(0, y) == y
    decreases y
  {
    if y > 0 {
      OrZero(y / 2);
    }
  }
}
