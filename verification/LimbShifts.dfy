/** Shifting limbs (operators <<= and >>= of src/arith_uint256.cpp) on values: the limb by limb result is the
    number times, or divided by, a power of two. */
module LimbShifts {
  import opened Powers
  import opened Limbs

  /* ---- Parts of a limb ---- */

  /** The bits of x << s that stay in the limb, and those that move to the next one. */
  function Low(x: int, s: nat): int { x * Pow2(s) % B }
  function High(x: int, s: nat): int
    requires s <= 32
  {
    x / Pow2(32 - s)
  }

  lemma Halves(s: nat)
    requires s <= 32
    ensures Pow2(s) * Pow2(32 - s) == B
  {
    hide Pow2;
    BIs();
    Pow2Add(s, 32 - s);
  }

  lemma PartsOf(x: int, p: int, q: int)
    requires p >= 1 && q >= 1 && p * q == B && 0 <= x < B
    ensures x * p % B == x % q * p && x * p / B == x / q && 0 <= x / q < p
  {
    var h, y := x / q, x % q;
    DivBounds(x, q);
    assert x == h * q + y;
    assert x * p == h * B + y * p by { assert (h * q) * p == h * (p * q); }
    assert y * p <= (q - 1) * p by { MulMonoInt(y, q - 1, p); }
    assert (q - 1) * p == B - p;
    assert 0 <= y * p by { MulMonoInt(0, y, p); }
    Reduced(y * p, B, h);
    if h >= p {
      MulMonoInt(p, h, q);
    }
  }

  lemma LowHigh(x: int, s: nat)
    requires s <= 32 && 0 <= x < B
    ensures x * Pow2(s) == High(x, s) * B + Low(x, s)
    ensures 0 <= High(x, s) < Pow2(s) && 0 <= Low(x, s) < B
    ensures Low(x, s) == x % Pow2(32 - s) * Pow2(s)
  {
    hide Pow2;
    Halves(s);
    PartsOf(x, Pow2(s), Pow2(32 - s));
    var v := x * Pow2(s);
    assert v == v / B * B + v % B;
  }

  /* ---- Left ---- */

  /** Limb j of the result once the first n limbs have been moved. */
  function ShlLimb(a: seq<int>, k: nat, s: nat, n: nat, j: nat): int
    requires s <= 32 && n <= |a|
  {
    (if k <= j && j - k < n then Low(a[j - k], s) else 0) + (if k + 1 <= j && j - k - 1 < n then High(a[j - k - 1], s)
        else 0)
  }

  ghost predicate ShlTo(a: seq<int>, r: seq<int>, k: nat, s: nat, n: nat) {
    |r| == |a| && n <= |a| && s <= 32 && forall j | 0 <= j < |r| :: r[j] == ShlLimb(a, k, s, n, j)
  }

  function Carry(a: seq<int>, s: nat, m: nat): int
    requires s <= 32 && m <= |a|
  {
    if m == 0 then 0 else High(a[m - 1], s)
  }

  lemma ShlArith(r: int, c: int, n: int, x: int, p: int, hi: int, lo: int, wk: int, wm: int)
    requires r + c * (wk * wm) == n * p * wk && x * p == hi * B + lo
    ensures r + (lo + c) * (wk * wm) + hi * (B * (wk * wm)) == (n + x * wm) * p * wk
  {
    var w := wk * wm;
    assert (lo + c) * w == lo * w + c * w;
    assert hi * (B * w) + lo * w == (hi * B + lo) * w;
    assert x * p * w == x * wm * p * wk;
    assert (n + x * wm) * p * wk == n * p * wk + x * wm * p * wk;
  }

  lemma {:induction false} ShlPrefix(a: seq<int>, r: seq<int>, k: nat, s: nat, m: nat)
    requires IsLimbs(a) && ShlTo(a, r, k, s, |a|) && k + m <= |a|
    ensures N(r[..k + m]) + Carry(a, s, m) * W(k + m) == N(a[..m]) * Pow2(s) * W(k)
    decreases m
  {
    hide Pow2, N, W, Low, High;
    if m == 0 {
      NZero(r[..k]);
      NFull(a);
    } else {
      ShlPrefix(a, r, k, s, m - 1);
      NStep(r, k + m - 1);
      NStep(a, m - 1);
      WAdd(k, m - 1);
      WNext(k + m - 1);
      LowHigh(a[m - 1], s);
      ShlArith(N(r[..k + m - 1]), Carry(a, s, m - 1), N(a[..m - 1]), a[m - 1], Pow2(s), High(a[m - 1], s),
          Low(a[m - 1], s), W(k), W(m - 1));
    }
  }

  lemma ShlLimbs(a: seq<int>, r: seq<int>, k: nat, s: nat, n: nat)
    requires IsLimbs(a) && ShlTo(a, r, k, s, n) && s < 32
    ensures IsLimbs(r)
  {
    hide Low, High, Pow2;
    forall j | 0 <= j < |r| ensures 0 <= r[j] < B {
      if k <= j && j - k < n {
        LowHigh(a[j - k], s);
      }
      if k + 1 <= j && j - k - 1 < n {
        LowHigh(a[j - k - 1], s);
      }
      Room(a, k, s, n, j);
    }
  }

  /** The two parts meeting in a limb do not overlap. */
  lemma Room(a: seq<int>, k: nat, s: nat, n: nat, j: nat)
    requires IsLimbs(a) && s < 32 && n <= |a|
    ensures 0 <= ShlLimb(a, k, s, n, j) < B
  {
    hide Low, High, Pow2;
    var p, q := Pow2(s), Pow2(32 - s);
    Halves(s);
    if k <= j && j - k < n {
      var x := a[j - k];
      LowHigh(x, s);
      var y := x % q;
      assert y * p <= (q - 1) * p by { MulMonoInt(y, q - 1, p); }
      assert (q - 1) * p == B - p;
    } else {
      assert p <= B by { MulMonoInt(1, q, p); }
    }
    if k + 1 <= j && j - k - 1 < n {
      LowHigh(a[j - k - 1], s);
    }
  }

  lemma ShlWrap(r: int, c: int, low: int, up: int, p: int, wk: int, wm: int)
    requires r + c * (wk * wm) == low * p * wk && 0 <= r < wk * wm
    ensures (low + wm * up) * (p * wk) % (wk * wm) == r
  {
    var w := wk * wm;
    assert wm * up * (p * wk) == up * p * w;
    assert low * (p * wk) == low * p * wk;
    assert (low + wm * up) * (p * wk) == low * (p * wk) + wm * up * (p * wk);
    assert r + (up * p + c) * w == r + up * p * w + c * w;
    Reduced(r, w, up * p + c);
  }

  lemma ShlNear(a: seq<int>, r: seq<int>, k: nat, s: nat)
    requires IsLimbs(a) && IsLimbs(r) && |r| == |a| && s <= 32 && ShlTo(a, r, k, s, |a|) && k <= |a|
    ensures N(r) == N(a) * (Pow2(s) * W(k)) % W(|a|)
  {
    hide Pow2, N, W, ShlTo, Carry, IsLimbs;
    var m := |a| - k;
    ShlPrefix(a, r, k, s, m);
    NFull(r);
    NBound(r);
    assert a == a[..m] + a[m..];
    NConcat(a[..m], a[m..]);
    WAdd(k, m);
    ShlWrap(N(r), Carry(a, s, m), N(a[..m]), N(a[m..]), Pow2(s), W(k), W(m));
  }

  lemma ShlFar(a: seq<int>, r: seq<int>, k: nat, s: nat)
    requires ShlTo(a, r, k, s, |a|) && k > |a|
    ensures N(r) == N(a) * (Pow2(s) * W(k)) % W(|a|)
  {
    hide Pow2, N, W, ShlTo;
    AllZero(a, r, k, s);
    WAdd(|a|, k - |a|);
    Regroup(N(a), Pow2(s), W(|a|), W(k - |a|));
    Reduced(0, W(|a|), N(a) * (Pow2(s) * W(k - |a|)));
  }

  /** Left shift is multiplication by a power of two, modulo the width. */
  lemma ShlIs(a: seq<int>, r: seq<int>, k: nat, s: nat)
    requires IsLimbs(a) && |r| == |a| && ShlTo(a, r, k, s, |a|) && s < 32
    ensures IsLimbs(r) && N(r) == N(a) * Pow2(32 * k + s) % W(|a|)
  {
    hide Pow2, N, W, ShlTo, IsLimbs;
    ShlLimbs(a, r, k, s, |a|);
    ShiftWeight(k, s);
    if k <= |a| {
      ShlNear(a, r, k, s);
    } else {
      ShlFar(a, r, k, s);
    }
  }

  lemma Regroup(n: int, p: int, w: int, v: int)
    ensures n * (p * (w * v)) == n * (p * v) * w
  {
  }

  lemma AllZero(a: seq<int>, r: seq<int>, k: nat, s: nat)
    requires ShlTo(a, r, k, s, |a|) && k > |a|
    ensures N(r) == 0
  {
    hide N, Low, High;
    NZero(r);
  }

  /* ---- Right ---- */

  function ShrLimb(a: seq<int>, k: nat, s: nat, n: nat, j: nat): int
    requires s <= 32 && n <= |a|
  {
    (if j + k < n then a[j + k] / Pow2(s) else 0) + (if j + k + 1 < n then Low(a[j + k + 1], 32 - s) else 0)
  }

  ghost predicate ShrTo(a: seq<int>, r: seq<int>, k: nat, s: nat, n: nat) {
    |r| == |a| && n <= |a| && s <= 32 && forall j | 0 <= j < |r| :: r[j] == ShrLimb(a, k, s, n, j)
  }

  function Rest(a: seq<int>, k: nat, s: nat): int { if k < |a| then a[k] % Pow2(s) else 0 }

  lemma ShrArith(r: int, m0: int, n: int, x: int, p: int, q: int, next: int, w: int)
    requires p >= 1 && p * q == B && r * p + m0 == n + x % p * w
    ensures (r + (x / p + next * q) * w) * p + m0 == n + x * w + next * (B * w)
  {
    assert x == x / p * p + x % p;
    assert (x / p + next * q) * w * p == (x / p * p) * w + next * (p * q) * w;
    assert x * w == (x / p * p) * w + x % p * w by { assert (x / p * p + x % p) * w == (x / p * p) * w + x % p * w; }
    assert next * (p * q) * w == next * (B * w);
    assert (r + (x / p + next * q) * w) * p == r * p + (x / p + next * q) * w * p;
  }

  lemma {:induction false} ShrPrefix(a: seq<int>, r: seq<int>, k: nat, s: nat, m: nat)
    requires IsLimbs(a) && ShrTo(a, r, k, s, |a|) && k + m <= |a|
    ensures N(r[..m]) * Pow2(s) + Rest(a, k, s) == N(a[k..][..m]) + Rest(a, k + m, s) * W(m)
    decreases m
  {
    hide Pow2, N, W, Low;
    if m == 0 {
      NFull(r);
      NFull(a[k..]);
      assert W(0) == 1 by { WZero(); }
    } else {
      ShrPrefix(a, r, k, s, m - 1);
      NStep(r, m - 1);
      NStep(a[k..], m - 1);
      WNext(m - 1);
      Halves(s);
      if k + m < |a| {
        LowHigh(a[k + m], 32 - s);
      }
      ShrArith(N(r[..m - 1]), Rest(a, k, s), N(a[k..][..m - 1]), a[k + m - 1], Pow2(s), Pow2(32 - s),
          Rest(a, k + m, s), W(m - 1));
    }
  }

  lemma WZero()
    ensures W(0) == 1
  {
  }

  lemma ShrQuotient(n: int, low: int, up: int, w: int, p: int, r: int, rest: int)
    requires n == low + w * up && 0 <= low < w && p >= 1 && r * p + rest == up && 0 <= rest < p
    ensures n / (p * w) == r
  {
    assert w * up == w * (r * p) + w * rest;
    assert w * (r * p) == r * (p * w);
    assert 0 <= w * rest <= w * (p - 1) by { MulMonoInt(rest, p - 1, w); MulMonoInt(0, rest, w); }
    assert w * (p - 1) == p * w - w;
    assert p * w >= 1 by { MulMonoInt(1, p, w); }
    DivUnique(n, p * w, r);
  }

  lemma ShrTail(a: seq<int>, r: seq<int>, k: nat, s: nat)
    requires IsLimbs(a) && ShrTo(a, r, k, s, |a|) && k <= |a|
    ensures N(r) == N(r[..|a| - k])
  {
    hide N, W, Low, Pow2;
    var m := |a| - k;
    assert r == r[..m] + r[m..];
    NConcat(r[..m], r[m..]);
    NZero(r[m..]);
  }

  lemma ShrNear(a: seq<int>, r: seq<int>, k: nat, s: nat)
    requires IsLimbs(a) && |r| == |a| && ShrTo(a, r, k, s, |a|) && k <= |a|
    ensures N(r) == N(a) / (Pow2(s) * W(k))
  {
    hide Pow2, N, W, ShrTo, IsLimbs, Rest;
    var m := |a| - k;
    assert a == a[..k] + a[k..];
    NConcat(a[..k], a[k..]);
    assert IsLimbs(a[..k]) by { Part(a, k); }
    NBound(a[..k]);
    ShrPrefix(a, r, k, s, m);
    NFull(a[k..]);
    ShrTail(a, r, k, s);
    RestBound(a, k, s);
    RestEnd(a, k + m, s);
    ShrQuotient(N(a), N(a[..k]), N(a[k..]), W(k), Pow2(s), N(r[..m]), Rest(a, k, s));
  }

  lemma Part(a: seq<int>, k: nat)
    requires IsLimbs(a) && k <= |a|
    ensures IsLimbs(a[..k])
  {
  }

  lemma RestEnd(a: seq<int>, k: nat, s: nat)
    requires k >= |a|
    ensures Rest(a, k, s) == 0
  {
  }

  lemma ShrFar(a: seq<int>, r: seq<int>, k: nat, s: nat)
    requires IsLimbs(a) && ShrTo(a, r, k, s, |a|) && k > |a|
    ensures N(r) == N(a) / (Pow2(s) * W(k))
  {
    hide Pow2, N, W, ShrTo, IsLimbs;
    ShrNone(a, r, k, s);
    NBound(a);
    WAdd(|a|, k - |a|);
    assert W(k) >= W(|a|) by { MulMonoInt(1, W(k - |a|), W(|a|)); }
    assert Pow2(s) * W(k) >= W(k) by { MulMonoInt(1, Pow2(s), W(k)); }
    Reduced(N(a), Pow2(s) * W(k), 0);
  }

  /** Right shift is division by a power of two. */
  lemma ShrIs(a: seq<int>, r: seq<int>, k: nat, s: nat)
    requires IsLimbs(a) && |r| == |a| && ShrTo(a, r, k, s, |a|) && s < 32
    ensures IsLimbs(r) && N(r) == N(a) / Pow2(32 * k + s)
  {
    hide Pow2, N, W, ShrTo, IsLimbs;
    ShrLimbs(a, r, k, s, |a|);
    ShiftWeight(k, s);
    if k <= |a| {
      ShrNear(a, r, k, s);
    } else {
      ShrFar(a, r, k, s);
    }
  }

  lemma RestBound(a: seq<int>, k: nat, s: nat)
    ensures 0 <= Rest(a, k, s) < Pow2(s)
  {
  }

  lemma ShrNone(a: seq<int>, r: seq<int>, k: nat, s: nat)
    requires ShrTo(a, r, k, s, |a|) && k > |a|
    ensures N(r) == 0
  {
    hide N, Low, Pow2;
    NZero(r);
  }

  lemma ShrLimbs(a: seq<int>, r: seq<int>, k: nat, s: nat, n: nat)
    requires IsLimbs(a) && ShrTo(a, r, k, s, n) && s < 32
    ensures IsLimbs(r)
  {
    hide Low, Pow2;
    forall j | 0 <= j < |r| ensures 0 <= r[j] < B {
      ShrRoom(a, k, s, n, j);
    }
  }

  lemma ShrRoom(a: seq<int>, k: nat, s: nat, n: nat, j: nat)
    requires IsLimbs(a) && s < 32 && n <= |a|
    ensures 0 <= ShrLimb(a, k, s, n, j) < B
  {
    hide Low, Pow2;
    var p, q := Pow2(s), Pow2(32 - s);
    Halves(s);
    if j + k < n {
      PartsOf(a[j + k], q, p);
    }
    if j + k + 1 < n {
      var x := a[j + k + 1];
      LowHigh(x, 32 - s);
      var y := x % p;
      assert y * q <= (p - 1) * q by { MulMonoInt(y, p - 1, q); }
      assert (p - 1) * q == B - q;
    } else {
      assert q <= B by { MulMonoInt(1, p, q); }
    }
  }

  /* ---- The loops ---- */

  /** One round of the left shift loop. */
  function ShlRound(a: seq<int>, r: seq<int>, k: nat, s: nat, i: nat): seq<int>
    requires |r| == |a| && i < |a| && s < 32 && IsLimbs(a) && IsLimbs(r)
  {
    LowHigh(a[i], s);
    var r1 := if i + k + 1 < |r| && s != 0 then r[i + k + 1 := Or(r[i + k + 1], High(a[i], s))] else r;
    if i + k < |r| then r1[i + k := Or(r1[i + k], Low(a[i], s))] else r1
  }

  lemma ShlRoundIs(a: seq<int>, r: seq<int>, k: nat, s: nat, i: nat)
    requires IsLimbs(a) && |r| == |a| && i < |a| && s < 32 && IsLimbs(r) && ShlTo(a, r, k, s, i)
    ensures ShlTo(a, ShlRound(a, r, k, s, i), k, s, i + 1) && IsLimbs(ShlRound(a, r, k, s, i))
  {
    hide Low, High, Pow2, Or;
    var t := ShlRound(a, r, k, s, i);
    LowHigh(a[i], s);
    if s == 0 {
      NoHigh(a[i]);
    }
    OrZero(High(a[i], s));
    OrZero(Low(a[i], s));
    if i > 0 {
      LowHigh(a[i - 1], s);
      OrDisjoint(High(a[i - 1], s), a[i] % Pow2(32 - s), s);
    }
    forall j | 0 <= j < |t| ensures t[j] == ShlLimb(a, k, s, i + 1, j) {
      assert r[j] == ShlLimb(a, k, s, i, j);
    }
    ShlLimbs(a, t, k, s, i + 1);
  }

  lemma NoHigh(x: int)
    requires 0 <= x < B
    ensures High(x, 0) == 0
  {
    BIs();
  }

  /** One round of the right shift loop. */
  function ShrRound(a: seq<int>, r: seq<int>, k: nat, s: nat, i: nat): seq<int>
    requires |r| == |a| && i < |a| && s < 32 && IsLimbs(a) && IsLimbs(r)
  {
    LowHigh(a[i], 32 - s);
    DivBounds(a[i], Pow2(s));
    var r1 := if i >= k + 1 && s != 0 then r[i - k - 1 := Or(r[i - k - 1], Low(a[i], 32 - s))] else r;
    if i >= k then r1[i - k := Or(r1[i - k], Shr32(a[i], s))] else r1
  }

  /** A limb shifted right. */
  function Shr32(x: int, s: nat): (r: int)
    ensures x >= 0 ==> r >= 0
  {
    DivBounds(x, Pow2(s));
    QuotientSign(x, Pow2(s));
    x / Pow2(s)
  }

  lemma QuotientSign(x: int, p: int)
    requires p >= 1
    ensures x >= 0 ==> x / p >= 0
  {
  }

  lemma NoLow(x: int)
    ensures Low(x, 32) == 0
  {
    hide Pow2;
    BIs();
    Reduced(0, B, x);
  }

  lemma ShrRoundIs(a: seq<int>, r: seq<int>, k: nat, s: nat, i: nat)
    requires IsLimbs(a) && |r| == |a| && i < |a| && s < 32 && IsLimbs(r) && ShrTo(a, r, k, s, i)
    ensures ShrTo(a, ShrRound(a, r, k, s, i), k, s, i + 1) && IsLimbs(ShrRound(a, r, k, s, i))
  {
    hide Low, High, Pow2, Or;
    var t := ShrRound(a, r, k, s, i);
    LowHigh(a[i], 32 - s);
    if s == 0 {
      NoLow(a[i]);
    }
    OrZero(Shr32(a[i], s));
    if i > 0 {
      Halves(s);
      PartsOf(a[i - 1], Pow2(32 - s), Pow2(s));
      OrDisjoint(a[i - 1] / Pow2(s), a[i] % Pow2(s), 32 - s);
    }
    forall j | 0 <= j < |t| ensures t[j] == ShrLimb(a, k, s, i + 1, j) {
      assert r[j] == ShrLimb(a, k, s, i, j);
    }
    ShrLimbs(a, t, k, s, i + 1);
  }
}
