/** Bech32 (src/bech32.cpp; the "Bech32" section of BIP 173, with a limit of 140 characters): the checksum as a linear
    map over bits, and the consequences for encoding, decoding and error detection. Text is a list of bytes and
    a symbol is five bits. */
module Bech32 {
  type State = bv30
  type Sym = bv5
  type Text = seq<bv8>

  /* ---- The checksum step ---- */

  /** Multiples of the generator, for the low and the high bits of the leading coefficient. */
  function FoldLow(c0: bv5): State {
    (if c0 & 1 != 0 then 0x3b6a57b2 else 0) ^ (if c0 & 2 != 0 then 0x26508e6d else 0) ^
    (if c0 & 4 != 0 then 0x1ea119fa else 0)
  }

  function FoldHigh(c0: bv5): State {
    (if c0 & 8 != 0 then 0x3d4233dd else 0) ^ (if c0 & 16 != 0 then 0x2a1462b3 else 0)
  }

  function Top(c: State): bv5 { (c >> 25) as bv5 }
  function Shift(c: State): State { (c & 0x1ffffff) << 5 }
  function Wide(v: Sym): State { v as bv30 }
  function Xor(a: State, b: State): State { a ^ b }
  function Xor5(a: Sym, b: Sym): Sym { a ^ b }

  /** One round of PolyMod: times x plus v, modulo the generator. */
  function Step(c: State, v: Sym): State { Xor(Xor(Shift(c), Wide(v)), Xor(FoldLow(Top(c)), FoldHigh(Top(c)))) }

  lemma LowLinear(a: bv5, b: bv5)
    ensures FoldLow(Xor5(a, b)) == Xor(FoldLow(a), FoldLow(b))
  {
  }

  lemma HighLinear(a: bv5, b: bv5)
    ensures FoldHigh(Xor5(a, b)) == Xor(FoldHigh(a), FoldHigh(b))
  {
  }

  lemma TopLinear(a: State, b: State)
    ensures Top(Xor(a, b)) == Xor5(Top(a), Top(b))
  {
  }

  lemma ShiftLinear(a: State, b: State)
    ensures Shift(Xor(a, b)) == Xor(Shift(a), Shift(b))
  {
  }

  lemma WideLinear(a: Sym, b: Sym)
    ensures Wide(Xor5(a, b)) == Xor(Wide(a), Wide(b))
  {
  }

  lemma Commute(a: State, b: State)
    ensures Xor(a, b) == Xor(b, a)
  {
  }

  lemma Associate(a: State, b: State, c: State)
    ensures Xor(Xor(a, b), c) == Xor(a, Xor(b, c))
  {
  }

  lemma Cancel(a: State)
    ensures Xor(a, a) == 0 && Xor(a, 0) == a && Xor(0, a) == a
  {
  }

  lemma Swap(a: State, b: State, c: State, d: State)
    ensures Xor(Xor(a, b), Xor(c, d)) == Xor(Xor(a, c), Xor(b, d))
  {
    hide Xor;
    Associate(a, b, Xor(c, d));
    Associate(b, c, d);
    Commute(b, c);
    Associate(c, b, d);
    Associate(a, c, Xor(b, d));
  }

  lemma StepLinear(c: State, d: State, u: Sym, v: Sym)
    ensures Step(Xor(c, d), Xor5(u, v)) == Xor(Step(c, u), Step(d, v))
  {
    hide Xor, Xor5, Shift, Wide, FoldLow, FoldHigh, Top;
    ShiftLinear(c, d);
    WideLinear(u, v);
    TopLinear(c, d);
    LowLinear(Top(c), Top(d));
    HighLinear(Top(c), Top(d));
    Swap(Shift(c), Shift(d), Wide(u), Wide(v));
    Swap(FoldLow(Top(c)), FoldLow(Top(d)), FoldHigh(Top(c)), FoldHigh(Top(d)));
    Swap(Xor(Shift(c), Wide(u)), Xor(Shift(d), Wide(v)), Xor(FoldLow(Top(c)), FoldHigh(Top(c))),
        Xor(FoldLow(Top(d)), FoldHigh(Top(d))));
  }

  /** Multiplying by x loses nothing: the generator's constant coefficient is not zero. */
  lemma StepKernel(c: State)
    requires Step(c, 0) == 0
    ensures c == 0
  {
  }

  function Low5(m: State): Sym { (m & 31) as bv5 }

  lemma PopStep(m: State)
    ensures Step(m >> 5, Low5(m)) == m
  {
  }

  lemma StepZero(c: State, v: Sym)
    requires c < 0x2000000 && Step(c, v) == 0
    ensures c == 0 && v == 0
  {
  }

  function Limit(k: nat): State
    requires k <= 5
  {
    if k == 0 then 1 else if k == 1 then 0x20 else if k == 2 then 0x400 else if k == 3 then 0x8000
        else if k == 4 then 0x100000 else 0x2000000
  }

  lemma StepLimit(c: State, v: Sym, k: nat)
    requires k < 5 && c < Limit(k)
    ensures Step(c, v) < Limit(k + 1)
  {
  }

  /* ---- The checksum of a list ---- */

  function Run(c: State, v: seq<Sym>): State { if v == [] then c else Step(Run(c, v[..|v| - 1]), v[|v| - 1]) }

  function PolyMod(v: seq<Sym>): State { Run(1, v) }

  function XorSeq(u: seq<Sym>, v: seq<Sym>): seq<Sym>
    requires |u| == |v|
  {
    seq(|u|, i requires 0 <= i < |u| => Xor5(u[i], v[i]))
  }

  function Zeros(n: nat): seq<Sym> { seq(n, _ => 0 as bv5) }

  lemma {:induction false} RunConcat(c: State, u: seq<Sym>, v: seq<Sym>)
    ensures Run(c, u + v) == Run(Run(c, u), v)
    decreases |v|
  {
    hide Step;
    if v == [] {
      assert u + v == u;
    } else {
      RunConcat(c, u, v[..|v| - 1]);
      assert (u + v)[..|u + v| - 1] == u + v[..|v| - 1];
    }
  }

  /** PolyMod is linear over bits. */
  lemma {:induction false} RunLinear(c: State, d: State, u: seq<Sym>, v: seq<Sym>)
    requires |u| == |v|
    ensures Run(Xor(c, d), XorSeq(u, v)) == Xor(Run(c, u), Run(d, v))
    decreases |u|
  {
    hide Step, Xor, Xor5;
    if u != [] {
      var k := |u| - 1;
      RunLinear(c, d, u[..k], v[..k]);
      assert XorSeq(u, v)[..k] == XorSeq(u[..k], v[..k]);
      StepLinear(Run(c, u[..k]), Run(d, v[..k]), u[k], v[k]);
    }
  }

  /** Trailing zeros keep a nonzero state nonzero. */
  lemma {:induction false} RunKernel(c: State, n: nat)
    requires Run(c, Zeros(n)) == 0
    ensures c == 0
    decreases n
  {
    hide Step;
    if n > 0 {
      assert Zeros(n)[..n - 1] == Zeros(n - 1);
      StepKernel(Run(c, Zeros(n - 1)));
      RunKernel(c, n - 1);
    }
  }

  lemma {:induction false} RunZeros(n: nat)
    ensures Run(0, Zeros(n)) == 0
    decreases n
  {
    hide Step;
    if n > 0 {
      assert Zeros(n)[..n - 1] == Zeros(n - 1);
      RunZeros(n - 1);
      StepOnZero();
    }
  }

  lemma StepOnZero()
    ensures Step(0, 0) == 0
  {
  }

  /** Up to six symbols fit in the state without reduction, so only zeros give zero. */
  lemma {:induction false} RunShort(e: seq<Sym>)
    requires |e| <= 6
    ensures |e| <= 5 ==> Run(0, e) < Limit(|e|)
    ensures Run(0, e) == 0 ==> e == Zeros(|e|)
    decreases |e|
  {
    hide Step;
    if e != [] {
      var k := |e| - 1;
      var c := Run(0, e[..k]);
      RunShort(e[..k]);
      LimitTop(c, k);
      if k < 5 {
        StepLimit(c, e[k], k);
      }
      if Run(0, e) == 0 {
        StepZero(c, e[k]);
        assert e == e[..k] + [e[k]];
      }
    }
  }

  lemma LimitTop(c: State, k: nat)
    requires k <= 5 && c < Limit(k)
    ensures c < 0x2000000
  {
  }

  /* ---- Error detection ---- */

  /** Two lists that agree except inside a window of n symbols. */
  ghost predicate Window(x: seq<Sym>, y: seq<Sym>, at: nat, n: nat) {
    |x| == |y| && at + n <= |x| && x[..at] == y[..at] && x[at + n..] == y[at + n..]
  }

  ghost predicate Burst(x: seq<Sym>, y: seq<Sym>, at: nat, n: nat) { n <= 6 && Window(x, y, at, n) }

  lemma XorWindow(x: seq<Sym>, y: seq<Sym>, at: nat, n: nat)
    requires Window(x, y, at, n)
    ensures XorSeq(x, y) == Zeros(at) + XorSeq(x[at..at + n], y[at..at + n]) + Zeros(|x| - at - n)
  {
    hide Xor5;
    var z := Zeros(at) + XorSeq(x[at..at + n], y[at..at + n]) + Zeros(|x| - at - n);
    forall i | 0 <= i < |x| ensures XorSeq(x, y)[i] == z[i] {
      if i < at {
        assert x[i] == x[..at][i] == y[..at][i] == y[i];
        XorSame(x[i]);
      } else if i >= at + n {
        assert x[i] == x[at + n..][i - at - n] == y[at + n..][i - at - n] == y[i];
        XorSame(x[i]);
      }
    }
  }

  lemma XorSame(a: Sym)
    ensures Xor5(a, a) == 0
  {
  }

  lemma XorZero(a: Sym, b: Sym)
    requires Xor5(a, b) == 0
    ensures a == b
  {
  }

  lemma XorSeqZero(u: seq<Sym>, v: seq<Sym>)
    requires |u| == |v| && XorSeq(u, v) == Zeros(|u|)
    ensures u == v
  {
    hide Xor5;
    forall i | 0 <= i < |u| ensures u[i] == v[i] {
      assert XorSeq(u, v)[i] == 0;
      XorZero(u[i], v[i]);
    }
  }

  /** Equal checksums leave no trace of what changed inside the window. */
  lemma WindowChecksum(c: State, x: seq<Sym>, y: seq<Sym>, at: nat, n: nat)
    requires Window(x, y, at, n) && Run(c, x) == Run(c, y)
    ensures Run(0, XorSeq(x[at..at + n], y[at..at + n])) == 0
  {
    hide Step, Xor, Xor5, Run;
    var e := XorSeq(x[at..at + n], y[at..at + n]);
    var rest := |x| - at - n;
    RunLinear(c, c, x, y);
    Cancel(c);
    Cancel(Run(c, x));
    XorWindow(x, y, at, n);
    assert Zeros(at) + e + Zeros(rest) == Zeros(at) + (e + Zeros(rest));
    RunConcat(0, Zeros(at), e + Zeros(rest));
    RunZeros(at);
    RunConcat(0, e, Zeros(rest));
    RunKernel(Run(0, e), rest);
  }

  lemma SameInside(x: seq<Sym>, y: seq<Sym>, at: nat, n: nat)
    requires Window(x, y, at, n) && XorSeq(x[at..at + n], y[at..at + n]) == Zeros(n)
    ensures x == y
  {
    hide Xor5;
    XorSeqZero(x[at..at + n], y[at..at + n]);
    assert x == x[..at] + x[at..at + n] + x[at + n..] && y == y[..at] + y[at..at + n] + y[at + n..];
  }

  /** Different lists that agree outside six consecutive symbols, at any length and position, have different
      checksums from any start. A single changed symbol is the shortest case. */
  lemma BurstDetected(c: State, x: seq<Sym>, y: seq<Sym>, at: nat, n: nat)
    requires Burst(x, y, at, n) && Run(c, x) == Run(c, y)
    ensures x == y
  {
    hide Step, Xor, Xor5, Run;
    WindowChecksum(c, x, y, at, n);
    RunShort(XorSeq(x[at..at + n], y[at..at + n]));
    SameInside(x, y, at, n);
  }

  /* ---- Human-readable part and checksum symbols ---- */

  function ExpandHRP(hrp: Text): seq<Sym> {
    seq(|hrp|, i requires 0 <= i < |hrp| => High3(hrp[i])) + [0] + seq(|hrp|, i requires 0 <= i < |hrp| => Low8(hrp[i]))
  }

  function High3(c: bv8): Sym { (c >> 5) as bv5 }
  function Low8(c: bv8): Sym { (c & 0x1f) as bv5 }

  predicate VerifyChecksum(hrp: Text, values: seq<Sym>) { PolyMod(ExpandHRP(hrp) + values) == 1 }

  /** The six symbols of a state, highest first. */
  function Groups(m: State): seq<Sym> {
    [Low5(m >> 25), Low5(m >> 20), Low5(m >> 15), Low5(m >> 10), Low5(m >> 5), Low5(m)]
  }

  function Checksum(hrp: Text, values: seq<Sym>): seq<Sym> {
    Groups(Xor(PolyMod(ExpandHRP(hrp) + values + Zeros(6)), 1))
  }

  lemma RunOne(c: State, v: seq<Sym>, s: Sym)
    ensures Run(c, v + [s]) == Step(Run(c, v), s)
  {
    assert (v + [s])[..|v|] == v;
  }

  function Down(m: State): State { m >> 5 }

  function Popped(m: State, k: nat): seq<Sym> { if k == 0 then [] else Popped(Down(m), k - 1) + [Low5(m)] }

  lemma DownLimit(m: State, k: nat)
    requires 0 < k <= 6 && (k <= 5 ==> m < Limit(k))
    ensures Down(m) < Limit(k - 1)
  {
  }

  lemma {:induction false} RunPopped(m: State, k: nat)
    requires k <= 6 && (k <= 5 ==> m < Limit(k))
    ensures Run(0, Popped(m, k)) == m
    decreases k
  {
    hide Step, Low5, Run, Down;
    if k == 0 {
      RunNone(0);
    } else {
      DownLimit(m, k);
      RunPopped(Down(m), k - 1);
      RunOne(0, Popped(Down(m), k - 1), Low5(m));
      PopDown(m);
    }
  }

  lemma PopDown(m: State)
    ensures Step(Down(m), Low5(m)) == m
  {
    hide Step;
    PopStep(m);
  }

  lemma DownIs(m: State)
    ensures Down(m) == m >> 5 && Down(m >> 5) == m >> 10 && Down(m >> 10) == m >> 15 && Down(m >> 15) == m >> 20
            && Down(m >> 20) == m >> 25
  {
  }

  lemma GroupsPopped(m: State)
    ensures Groups(m) == Popped(m, 6)
  {
    hide Low5, Popped;
    DownIs(m);
    hide Down;
    PopOne(m, 5);
    PopOne(m >> 5, 4);
    PopOne(m >> 10, 3);
    PopOne(m >> 15, 2);
    PopOne(m >> 20, 1);
    PopOne(m >> 25, 0);
    PopNone(Down(m >> 25));
  }

  lemma PopOne(m: State, k: nat)
    ensures Popped(m, k + 1) == Popped(Down(m), k) + [Low5(m)]
  {
  }

  lemma PopNone(m: State)
    ensures Popped(m, 0) == []
  {
  }

  /** Feeding the symbols of a state into an empty one restores it. */
  lemma RunGroups(m: State)
    ensures Run(0, Groups(m)) == m
  {
    hide Run, Groups, Popped;
    GroupsPopped(m);
    RunPopped(m, 6);
  }

  lemma RunNone(c: State)
    ensures Run(c, []) == c
  {
  }

  lemma XorSeqZeros(v: seq<Sym>)
    ensures XorSeq(Zeros(|v|), v) == v
  {
    forall i | 0 <= i < |v| ensures Xor5(0, v[i]) == v[i] {
    }
  }

  /** A created checksum verifies. */
  lemma ChecksumVerifies(hrp: Text, values: seq<Sym>)
    ensures VerifyChecksum(hrp, values + Checksum(hrp, values))
  {
    hide Run, Step, Xor, Xor5, Groups, ExpandHRP;
    var enc := ExpandHRP(hrp) + values;
    var c := Run(1, enc);
    var p := Run(c, Zeros(6));
    var m := Xor(p, 1);
    RunConcat(1, enc, Zeros(6));
    assert |Groups(m)| == 6 by { SixGroups(m); }
    RunConcat(1, enc, Groups(m));
    RunLinear(c, 0, Zeros(6), Groups(m));
    XorSeqZeros(Groups(m));
    Cancel(c);
    RunGroups(m);
    Associate(p, p, 1);
    Cancel(p);
    Cancel(1);
    assert ExpandHRP(hrp) + (values + Groups(m)) == enc + Groups(m);
  }

  lemma SixGroups(m: State)
    ensures |Groups(m)| == 6
  {
  }

  /** No other six symbols verify: the checksum is determined by what it protects. */
  lemma ChecksumUnique(hrp: Text, values: seq<Sym>, check: seq<Sym>)
    requires |check| == 6 && VerifyChecksum(hrp, values + check)
    ensures check == Checksum(hrp, values)
  {
    hide Run, Step, Xor, Groups, ExpandHRP;
    ChecksumVerifies(hrp, values);
    var made := Checksum(hrp, values);
    SixGroups(Xor(PolyMod(ExpandHRP(hrp) + values + Zeros(6)), 1));
    var enc := ExpandHRP(hrp) + values;
    var x, y := ExpandHRP(hrp) + (values + check), ExpandHRP(hrp) + (values + made);
    assert x == enc + check && y == enc + made;
    assert x[..|enc|] == enc == y[..|enc|] && x[|enc| + 6..] == [] == y[|enc| + 6..];
    BurstDetected(1, x, y, |enc|, 6);
    assert check == x[|enc|..] && made == y[|enc|..];
  }

  /** A list that verifies stops verifying when up to six consecutive symbols are changed. */
  lemma CorruptionDetected(hrp: Text, x: seq<Sym>, y: seq<Sym>, at: nat, n: nat)
    requires VerifyChecksum(hrp, x) && Burst(x, y, at, n) && x != y
    ensures !VerifyChecksum(hrp, y)
  {
    hide Run, Step, ExpandHRP;
    var h := ExpandHRP(hrp);
    assert x == (h + x)[|h|..] && y == (h + y)[|h|..];
    if VerifyChecksum(hrp, y) {
      ShiftWindow(h, x, y, at, n);
      BurstDetected(1, h + x, h + y, |h| + at, n);
    }
  }

  lemma ShiftWindow(h: seq<Sym>, x: seq<Sym>, y: seq<Sym>, at: nat, n: nat)
    requires Window(x, y, at, n)
    ensures Window(h + x, h + y, |h| + at, n)
  {
    assert (h + x)[..|h| + at] == h + x[..at] && (h + y)[..|h| + at] == h + y[..at];
    assert (h + x)[|h| + at + n..] == x[at + n..] && (h + y)[|h| + at + n..] == y[at + n..];
  }
}
