/** Powers and division facts shared by the arithmetic and tree modules. */
module Powers {

  function Pow(b: nat, e: nat): nat { if e == 0 then 1 else b * Pow(b, e - 1) }

  function Pow2(e: nat): (p: nat) ensures p >= 1 { if e == 0 then 1 else 2 * Pow2(e - 1) }

  lemma UnitPow()
    ensures Pow2(0) == 1
  {
  }

  lemma MulMono(a: nat, b: nat, c: nat)
    requires a <= b
    ensures a * c <= b * c
  {
  }

  lemma {:induction false} PowPositive(b: nat, e: nat)
    requires b > 0
    ensures Pow(b, e) > 0
    decreases e
  {
    if e > 0 {
      PowPositive(b, e - 1);
      assert b * Pow(b, e - 1) >= 1 * Pow(b, e - 1) by { MulMono(1, b, Pow(b, e - 1)); }
    }
  }

  lemma {:induction false} Pow2Add(a: nat, b: nat)
    ensures Pow2(a + b) == Pow2(a) * Pow2(b)
    decreases a
  {
    if a > 0 {
      Pow2Add(a - 1, b);
      assert 2 * (Pow2(a - 1) * Pow2(b)) == (2 * Pow2(a - 1)) * Pow2(b);
    }
  }

  lemma {:induction false} Pow2Mono(a: nat, b: nat)
    requires a <= b
    ensures Pow2(a) <= Pow2(b)
    ensures a < b ==> 2 * Pow2(a) <= Pow2(b)
    decreases b
  {
    if a < b {
      Pow2Mono(a, b - 1);
    }
  }

  /** q is the quotient of x by d, given the division equation. */
  lemma DivUnique(x: int, d: int, q: int)
    requires d > 0 && q * d <= x < q * d + d
    ensures x / d == q
  {
    var r := x / d;
    assert r * d <= x < r * d + d by { DivBounds(x, d); }
    if r < q {
      MulMonoInt(r + 1, q, d);
    } else if q < r {
      MulMonoInt(q + 1, r, d);
    }
  }

  lemma DivBounds(x: int, d: int)
    requires d > 0
    ensures x / d * d <= x < x / d * d + d
  {
  }

  lemma MulMonoInt(a: int, b: int, c: int)
    requires a <= b && c >= 0
    ensures a * c <= b * c
  {
  }

  lemma {:induction false} PowAdd(b: nat, m: nat, n: nat)
    ensures Pow(b, m + n) == Pow(b, m) * Pow(b, n)
    decreases m
  {
    if m > 0 {
      PowAdd(b, m - 1, n);
      assert b * (Pow(b, m - 1) * Pow(b, n)) == (b * Pow(b, m - 1)) * Pow(b, n);
    }
  }

  lemma {:induction false} PowMul(b: nat, m: nat, n: nat)
    ensures Pow(b, m * n) == Pow(Pow(b, m), n)
    decreases n
  {
    if n > 0 {
      PowMul(b, m, n - 1);
      PowAdd(b, m, m * (n - 1));
      assert m * n == m + m * (n - 1);
    } else {
      assert m * n == 0;
    }
  }

  lemma MulMonoBoth(a: nat, b: nat, c: nat, d: nat)
    requires a <= b && c <= d
    ensures a * c <= b * d
  {
    MulMono(a, b, c);
    assert b * c <= b * d by { MulMono(c, d, b); }
  }

  lemma {:induction false} PowMonoBase(a: nat, b: nat, n: nat)
    requires a <= b
    ensures Pow(a, n) <= Pow(b, n)
    decreases n
  {
    if n > 0 {
      PowMonoBase(a, b, n - 1);
      MulMonoBoth(a, b, Pow(a, n - 1), Pow(b, n - 1));
    }
  }

  lemma {:induction false} PowMonoExp(b: nat, m: nat, n: nat)
    requires b >= 1 && m <= n
    ensures Pow(b, m) <= Pow(b, n)
    decreases n
  {
    if m < n {
      PowMonoExp(b, m, n - 1);
      MulMono(1, b, Pow(b, n - 1));
    }
  }

  lemma {:induction false} PowStrict(a: nat, b: nat, n: nat)
    requires n > 0 && 0 < b < a
    ensures Pow(b, n) < Pow(a, n)
  {
    PowMonoBase(b, a, n - 1);
    PowPositive(b, n - 1);
    MulMono(Pow(b, n - 1), Pow(a, n - 1), b);
    MulMono(b + 1, a, Pow(a, n - 1));
    assert (b + 1) * Pow(a, n - 1) == b * Pow(a, n - 1) + Pow(a, n - 1);
  }

  /** Taking roots keeps order. */
  lemma PowRoot(a: nat, b: nat, n: nat)
    requires n > 0 && Pow(a, n) <= Pow(b, n) && b > 0
    ensures a <= b
  {
    if a > b {
      PowStrict(a, b, n);
    }
  }
}
