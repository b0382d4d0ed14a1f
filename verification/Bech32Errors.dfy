/** Which changes the Bech32 checksum detects (the comment on PolyMod in src/bech32.cpp; the "Checksum" section of
    BIP 173): any one, two or three changed symbols inside a window of 1023. */
module Bech32Errors {
  import opened Bech32
  import opened Bech32Field

  /* ---- The value of a state at a root ---- */

  /** Times the root 24 + k. */
  function TimesRoot(k: nat, z: Elem): Elem {
    Apply(if k == 0 then M24 else if k == 1 then M25 else M26, z)
  }

  lemma RootIs(k: nat, z: Elem)
    requires k < 3
    ensures TimesRoot(k, z) == PowB(24 + k, z)
  {
    hide Apply, PowB;
    Is24(z);
    Is25(z);
    Is26(z);
  }

  function Tail(c: State): Elem { (c & 31) as bv10 }
  function Embed(v: Sym): Elem { v as bv10 }

  function Next(k: nat, y: Elem, c: Elem): Elem { Plus(TimesRoot(k, y), c) }

  /** The polynomial of a state at the root, by Horner's rule. */
  function Eval(k: nat, c: State): Elem {
    Next(k, Next(k, Next(k, Next(k, Next(k, Tail(c >> 25), Tail(c >> 20)), Tail(c >> 15)), Tail(c >> 10)),
                 Tail(c >> 5)),
         Tail(c))
  }

  lemma TailLinear(c: State, d: State)
    ensures Tail(Xor(c, d)) == Plus(Tail(c), Tail(d))
  {
  }

  lemma Tail5Linear(c: State, d: State)
    ensures Tail(Xor(c, d) >> 5) == Plus(Tail(c >> 5), Tail(d >> 5))
  {
  }

  lemma Tail10Linear(c: State, d: State)
    ensures Tail(Xor(c, d) >> 10) == Plus(Tail(c >> 10), Tail(d >> 10))
  {
  }

  lemma Tail15Linear(c: State, d: State)
    ensures Tail(Xor(c, d) >> 15) == Plus(Tail(c >> 15), Tail(d >> 15))
  {
  }

  lemma Tail20Linear(c: State, d: State)
    ensures Tail(Xor(c, d) >> 20) == Plus(Tail(c >> 20), Tail(d >> 20))
  {
  }

  lemma Tail25Linear(c: State, d: State)
    ensures Tail(Xor(c, d) >> 25) == Plus(Tail(c >> 25), Tail(d >> 25))
  {
  }

  lemma RootLinear(k: nat, x: Elem, y: Elem)
    requires k < 3
    ensures TimesRoot(k, Plus(x, y)) == Plus(TimesRoot(k, x), TimesRoot(k, y))
  {
    hide TimesRoot, PowB, Plus;
    RootIs(k, x);
    RootIs(k, y);
    RootIs(k, Plus(x, y));
    PowLinear(24 + k, x, y);
  }

  lemma NextLinear(k: nat, x: Elem, a: Elem, y: Elem, b: Elem)
    requires k < 3
    ensures Next(k, Plus(x, y), Plus(a, b)) == Plus(Next(k, x, a), Next(k, y, b))
  {
    hide TimesRoot, Plus;
    RootLinear(k, x, y);
    PlusSwap(TimesRoot(k, x), TimesRoot(k, y), a, b);
  }

  lemma EvalLinear(k: nat, c: State, d: State)
    requires k < 3
    ensures Eval(k, Xor(c, d)) == Plus(Eval(k, c), Eval(k, d))
  {
    TailLinear(c, d);
    Tail5Linear(c, d);
    Tail10Linear(c, d);
    Tail15Linear(c, d);
    Tail20Linear(c, d);
    Tail25Linear(c, d);
    hide Next, Plus, Tail, Xor;
    var x4, y4 := Next(k, Tail(c >> 25), Tail(c >> 20)), Next(k, Tail(d >> 25), Tail(d >> 20));
    NextLinear(k, Tail(c >> 25), Tail(c >> 20), Tail(d >> 25), Tail(d >> 20));
    var x3, y3 := Next(k, x4, Tail(c >> 15)), Next(k, y4, Tail(d >> 15));
    NextLinear(k, x4, Tail(c >> 15), y4, Tail(d >> 15));
    var x2, y2 := Next(k, x3, Tail(c >> 10)), Next(k, y3, Tail(d >> 10));
    NextLinear(k, x3, Tail(c >> 10), y3, Tail(d >> 10));
    var x1, y1 := Next(k, x2, Tail(c >> 5)), Next(k, y2, Tail(d >> 5));
    NextLinear(k, x2, Tail(c >> 5), y2, Tail(d >> 5));
    NextLinear(k, x1, Tail(c), y1, Tail(d));
  }

  function Lead(t: Sym): State { (t as bv30) << 25 }
  function Rest(c: State): State { c & 0x1ffffff }
  function Fold(t: Sym): State { Xor(FoldLow(t), FoldHigh(t)) }

  /** A multiple of the generator is zero at the root. */
  ghost predicate Vanishes(k: nat, t: Sym) { Eval(k, Fold(t)) == TimesRoot(k, Eval(k, Lead(t))) }

  lemma VanishBits(k: nat)
    requires k < 3
    ensures Vanishes(k, 0) && Vanishes(k, 1) && Vanishes(k, 2)
    ensures Vanishes(k, 4) && Vanishes(k, 8) && Vanishes(k, 16)
  {
    hide Vanishes;
    if k == 0 {
      Bits0();
    } else if k == 1 {
      Bits1();
    } else {
      Bits2();
    }
    VanishNone(k);
  }

  lemma VanishNone(k: nat)
    requires k < 3
    ensures Vanishes(k, 0)
  {
    Nothing();
    hide Eval, TimesRoot, Fold, Lead, Xor, Plus;
    EvalLinear(k, 0, 0);
    PlusZero(Eval(k, 0), Eval(k, 0));
    RootZero(k);
  }

  lemma Nothing()
    ensures Fold(0) == 0 && Lead(0) == 0 && Xor(0, 0) == 0
  {
  }

  /** Horner's rule, with its intermediate values. */
  lemma EvalIs(k: nat, c: State, y4: Elem, y3: Elem, y2: Elem, y1: Elem, y: Elem)
    requires y4 == Next(k, Tail(c >> 25), Tail(c >> 20)) && y3 == Next(k, y4, Tail(c >> 15))
    requires y2 == Next(k, y3, Tail(c >> 10)) && y1 == Next(k, y2, Tail(c >> 5)) && y == Next(k, y1, Tail(c))
    ensures Eval(k, c) == y
  {
    hide Next, Tail;
  }

  lemma FoldBits()
    ensures Fold(1) == 0x3b6a57b2 && Fold(2) == 0x26508e6d && Fold(4) == 0x1ea119fa
    ensures Fold(8) == 0x3d4233dd && Fold(16) == 0x2a1462b3
  {
  }

  lemma LeadBits()
    ensures Lead(1) == 0x2000000 && Lead(2) == 0x4000000 && Lead(4) == 0x8000000
    ensures Lead(8) == 0x10000000 && Lead(16) == 0x20000000
  {
  }

  lemma Bits0()
    ensures Vanishes(0, 1) && Vanishes(0, 2) && Vanishes(0, 4) && Vanishes(0, 8) && Vanishes(0, 16)
  {
    hide Vanishes;
    Bit1At0();
    Bit2At0();
    Bit4At0();
    Bit8At0();
    Bit16At0();
  }

  lemma Bit1At0()
    ensures Vanishes(0, 1)
  {
    FoldBits();
    LeadBits();
    EvalIs(0, 0x3b6a57b2, 0x2e3, 0x2e3, 0x2e2, 0x13a, 0xa1);
    EvalIs(0, 0x2000000, 0x3d0, 0x159, 0x2c6, 0x51, 0x42);
    assert TimesRoot(0, 0x42) == 0xa1;
    hide Eval, TimesRoot, Fold, Lead;
  }

  lemma Bit2At0()
    ensures Vanishes(0, 2)
  {
    FoldBits();
    LeadBits();
    EvalIs(0, 0x26508e6d, 0xe6, 0xe6, 0xe4, 0x25d, 0x142);
    EvalIs(0, 0x4000000, 0x2a9, 0x29b, 0xac, 0x8b, 0x84);
    assert TimesRoot(0, 0x84) == 0x142;
    hide Eval, TimesRoot, Fold, Lead;
  }

  lemma Bit4At0()
    ensures Vanishes(0, 4)
  {
    FoldBits();
    LeadBits();
    EvalIs(0, 0x1ea119fa, 0x1cc, 0x1cc, 0x1c8, 0x1b3, 0x284);
    EvalIs(0, 0x8000000, 0x72, 0x3f, 0x158, 0x116, 0x108);
    assert TimesRoot(0, 0x108) == 0x284;
    hide Eval, TimesRoot, Fold, Lead;
  }

  lemma Bit8At0()
    ensures Vanishes(0, 8)
  {
    FoldBits();
    LeadBits();
    EvalIs(0, 0x3d4233dd, 0x398, 0x398, 0x390, 0x34f, 0x28);
    EvalIs(0, 0x10000000, 0xcd, 0x57, 0x299, 0x205, 0x210);
    assert TimesRoot(0, 0x210) == 0x28;
    hide Eval, TimesRoot, Fold, Lead;
  }

  lemma Bit16At0()
    ensures Vanishes(0, 16)
  {
    FoldBits();
    LeadBits();
    EvalIs(0, 0x2a1462b3, 0x239, 0x239, 0x229, 0x3be, 0x50);
    EvalIs(0, 0x20000000, 0x19a, 0x87, 0x3b, 0x12a, 0x129);
    assert TimesRoot(0, 0x129) == 0x50;
    hide Eval, TimesRoot, Fold, Lead;
  }

  lemma Bits1()
    ensures Vanishes(1, 1) && Vanishes(1, 2) && Vanishes(1, 4) && Vanishes(1, 8) && Vanishes(1, 16)
  {
    hide Vanishes;
    Bit1At1();
    Bit2At1();
    Bit4At1();
    Bit8At1();
    Bit16At1();
  }

  lemma Bit1At1()
    ensures Vanishes(1, 1)
  {
    FoldBits();
    LeadBits();
    EvalIs(1, 0x3b6a57b2, 0x1c4, 0x396, 0x34c, 0x176, 0x3da);
    EvalIs(1, 0x2000000, 0x65, 0x88, 0x373, 0x3a3, 0x25a);
    assert TimesRoot(1, 0x25a) == 0x3da;
    hide Eval, TimesRoot, Fold, Lead;
  }

  lemma Bit2At1()
    ensures Vanishes(1, 2)
  {
    FoldBits();
    LeadBits();
    EvalIs(1, 0x26508e6d, 0x388, 0x225, 0x3b8, 0x2c5, 0x2bd);
    EvalIs(1, 0x4000000, 0xca, 0x110, 0x3ef, 0x266, 0x1bd);
    assert TimesRoot(1, 0x1bd) == 0x2bd;
    hide Eval, TimesRoot, Fold, Lead;
  }

  lemma Bit4At1()
    ensures Vanishes(1, 4)
  {
    FoldBits();
    LeadBits();
    EvalIs(1, 0x1ea119fa, 0x230, 0x16a, 0x279, 0xaa, 0x73);
    EvalIs(1, 0x8000000, 0x194, 0x209, 0x2fe, 0x1ec, 0x353);
    assert TimesRoot(1, 0x353) == 0x73;
    hide Eval, TimesRoot, Fold, Lead;
  }

  lemma Bit8At1()
    ensures Vanishes(1, 8)
  {
    FoldBits();
    LeadBits();
    EvalIs(1, 0x3d4233dd, 0x169, 0x2d4, 0x1fb, 0x154, 0xcf);
    EvalIs(1, 0x10000000, 0x301, 0x132, 0xf5, 0x3d8, 0x3af);
    assert TimesRoot(1, 0x3af) == 0xcf;
    hide Eval, TimesRoot, Fold, Lead;
  }

  lemma Bit16At1()
    ensures Vanishes(1, 16)
  {
    FoldBits();
    LeadBits();
    EvalIs(1, 0x2a1462b3, 0x2d2, 0xa1, 0x3df, 0x281, 0x19e);
    EvalIs(1, 0x20000000, 0x322, 0x24d, 0x1c3, 0x2b9, 0x27e);
    assert TimesRoot(1, 0x27e) == 0x19e;
    hide Eval, TimesRoot, Fold, Lead;
  }

  lemma Bits2()
    ensures Vanishes(2, 1) && Vanishes(2, 2) && Vanishes(2, 4) && Vanishes(2, 8) && Vanishes(2, 16)
  {
    hide Vanishes;
    Bit1At2();
    Bit2At2();
    Bit4At2();
    Bit8At2();
    Bit16At2();
  }

  lemma Bit1At2()
    ensures Vanishes(2, 1)
  {
    FoldBits();
    LeadBits();
    EvalIs(2, 0x3b6a57b2, 0x18f, 0x1be, 0x192, 0x2e, 0x2f5);
    EvalIs(2, 0x2000000, 0x1bd, 0x369, 0x34f, 0x3d6, 0x74);
    assert TimesRoot(2, 0x74) == 0x2f5;
    hide Eval, TimesRoot, Fold, Lead;
  }

  lemma Bit2At2()
    ensures Vanishes(2, 2)
  {
    FoldBits();
    LeadBits();
    EvalIs(2, 0x26508e6d, 0x31e, 0x355, 0x30d, 0x5c, 0xe3);
    EvalIs(2, 0x4000000, 0x353, 0x3f2, 0x3be, 0x2a5, 0xc1);
    assert TimesRoot(2, 0xc1) == 0xe3;
    hide Eval, TimesRoot, Fold, Lead;
  }

  lemma Bit4At2()
    ensures Vanishes(2, 4)
  {
    FoldBits();
    LeadBits();
    EvalIs(2, 0x1ea119fa, 0x335, 0x3a3, 0x33a, 0x91, 0x1c6);
    EvalIs(2, 0x8000000, 0x3af, 0x2ed, 0x275, 0x6a, 0x182);
    assert TimesRoot(2, 0x182) == 0x1c6;
    hide Eval, TimesRoot, Fold, Lead;
  }

  lemma Bit8At2()
    ensures Vanishes(2, 8)
  {
    FoldBits();
    LeadBits();
    EvalIs(2, 0x3d4233dd, 0x363, 0x266, 0x37d, 0x10b, 0x38c);
    EvalIs(2, 0x10000000, 0x27e, 0xfa, 0x1e3, 0xd4, 0x304);
    assert TimesRoot(2, 0x304) == 0x38c;
    hide Eval, TimesRoot, Fold, Lead;
  }

  lemma Bit16At2()
    ensures Vanishes(2, 16)
  {
    FoldBits();
    LeadBits();
    EvalIs(2, 0x2a1462b3, 0x3e6, 0x1ec, 0x3f3, 0x216, 0x238);
    EvalIs(2, 0x20000000, 0x1f5, 0x1dd, 0x3c6, 0x181, 0x328);
    assert TimesRoot(2, 0x328) == 0x238;
    hide Eval, TimesRoot, Fold, Lead;
  }

  lemma LeadXor(s: Sym, t: Sym)
    ensures Lead(Xor5(s, t)) == Xor(Lead(s), Lead(t))
  {
  }

  lemma FoldXor(s: Sym, t: Sym)
    ensures Fold(Xor5(s, t)) == Xor(Fold(s), Fold(t))
  {
    hide Xor, Xor5, FoldLow, FoldHigh;
    Bech32.LowLinear(s, t);
    Bech32.HighLinear(s, t);
    Swap(FoldLow(s), FoldLow(t), FoldHigh(s), FoldHigh(t));
  }

  lemma VanishXor(k: nat, s: Sym, t: Sym)
    requires k < 3 && Vanishes(k, s) && Vanishes(k, t)
    ensures Vanishes(k, Xor5(s, t))
  {
    hide Eval, TimesRoot, Fold, Lead, Xor, Xor5, Plus;
    FoldXor(s, t);
    LeadXor(s, t);
    EvalLinear(k, Fold(s), Fold(t));
    EvalLinear(k, Lead(s), Lead(t));
    RootLinear(k, Eval(k, Lead(s)), Eval(k, Lead(t)));
  }

  lemma FiveBits(t: Sym)
    ensures t == Xor5(Xor5(Xor5(Xor5(t & 1, t & 2), t & 4), t & 8), t & 16)
    ensures (t & 1 == 0 || t & 1 == 1) && (t & 2 == 0 || t & 2 == 2) && (t & 4 == 0 || t & 4 == 4)
    ensures (t & 8 == 0 || t & 8 == 8) && (t & 16 == 0 || t & 16 == 16)
  {
  }

  lemma EvalFold(k: nat, t: Sym)
    requires k < 3
    ensures Eval(k, Fold(t)) == TimesRoot(k, Eval(k, Lead(t)))
  {
    hide Eval, TimesRoot, Fold, Lead, Xor5, Vanishes;
    VanishBits(k);
    FiveBits(t);
    VanishXor(k, t & 1, t & 2);
    VanishXor(k, Xor5(t & 1, t & 2), t & 4);
    VanishXor(k, Xor5(Xor5(t & 1, t & 2), t & 4), t & 8);
    VanishXor(k, Xor5(Xor5(Xor5(t & 1, t & 2), t & 4), t & 8), t & 16);
    VanishIs(k, t);
  }

  lemma VanishIs(k: nat, t: Sym)
    requires Vanishes(k, t)
    ensures Eval(k, Fold(t)) == TimesRoot(k, Eval(k, Lead(t)))
  {
    hide Eval, TimesRoot, Fold, Lead;
  }

  lemma Split(c: State)
    ensures Xor(Rest(c), Lead(Top(c))) == c && Shift(c) == Rest(c) << 5
  {
  }

  lemma RootZero(k: nat)
    requires k < 3
    ensures TimesRoot(k, 0) == 0
  {
  }

  lemma Shifted(r: State)
    requires r < 0x2000000
    ensures var s := r << 5;
            && Tail(s) == 0 && s >> 5 == r && s >> 10 == r >> 5 && s >> 15 == r >> 10 && s >> 20 == r >> 15
            && s >> 25 == r >> 20 && Tail(r >> 25) == 0
  {
  }

  lemma RestSmall(c: State)
    ensures Rest(c) < 0x2000000
  {
  }

  lemma EvalShift(k: nat, r: State)
    requires k < 3 && r < 0x2000000
    ensures Eval(k, r << 5) == TimesRoot(k, Eval(k, r))
  {
    Shifted(r);
    hide TimesRoot, Plus, Tail;
    RootZero(k);
    PlusZero(Tail(r >> 20), 0);
    PlusZero(TimesRoot(k, Eval(k, r)), 0);
  }

  lemma WideTail(v: Sym)
    ensures Tail(Wide(v)) == Embed(v) && Tail(Wide(v) >> 5) == 0 && Tail(Wide(v) >> 10) == 0 && Tail(Wide(v) >> 15) == 0
    ensures Tail(Wide(v) >> 20) == 0 && Tail(Wide(v) >> 25) == 0
  {
  }

  lemma EvalWide(k: nat, v: Sym)
    requires k < 3
    ensures Eval(k, Wide(v)) == Embed(v)
  {
    WideTail(v);
    hide TimesRoot, Plus, Tail, Wide, Embed;
    RootZero(k);
    PlusZero(0, 0);
    PlusZero(Embed(v), 0);
  }

  /** One round of PolyMod at the root: times the root, plus the symbol. */
  lemma EvalStep(k: nat, c: State, v: Sym)
    requires k < 3
    ensures Eval(k, Step(c, v)) == Next(k, Eval(k, c), Embed(v))
  {
    hide Eval, TimesRoot, Plus, Xor, Rest, Lead, Shift, Top, Wide, FoldLow, FoldHigh, Embed;
    var t := Top(c);
    EvalLinear(k, Xor(Shift(c), Wide(v)), Fold(t));
    EvalLinear(k, Shift(c), Wide(v));
    Split(c);
    RestSmall(c);
    EvalShift(k, Rest(c));
    EvalFold(k, t);
    EvalWide(k, v);
    EvalLinear(k, Rest(c), Lead(t));
    RootLinear(k, Eval(k, Rest(c)), Eval(k, Lead(t)));
    var a, b, d := TimesRoot(k, Eval(k, Rest(c))), TimesRoot(k, Eval(k, Lead(t))), Embed(v);
    PlusAssociates(a, d, b);
    PlusZero(d, b);
    PlusAssociates(a, b, d);
  }

  /** And of a symbol after n zeros. */
  lemma {:induction false} EvalZeros(k: nat, c: State, n: nat)
    requires k < 3
    ensures Eval(k, Run(c, Zeros(n))) == PowB((24 + k) * n, Eval(k, c))
    decreases n
  {
    hide Eval, TimesRoot, Plus, Step, PowB, Embed;
    if n == 0 {
      RunNone(c);
      PowNone(Eval(k, c));
    } else {
      var s := Run(c, Zeros(n - 1));
      EvalZeros(k, c, n - 1);
      assert Zeros(n)[..n - 1] == Zeros(n - 1);
      EvalStep(k, s, 0);
      EmbedZero();
      PlusZero(TimesRoot(k, Eval(k, s)), 0);
      RootIs(k, Eval(k, s));
      Distribute(24 + k, n - 1, 1);
      PowAdd(24 + k, (24 + k) * (n - 1), Eval(k, c));
    }
  }

  lemma EmbedZero()
    ensures Embed(0) == 0
  {
  }

  lemma EvalNext(k: nat, c: State, n: nat, v: Sym)
    requires k < 3 && n > 0
    ensures Eval(k, Run(c, Zeros(n - 1) + [v])) == Plus(PowB((24 + k) * n, Eval(k, c)), Embed(v))
  {
    hide Eval, TimesRoot, Plus, Step, PowB, Embed, Run;
    var s := Run(c, Zeros(n - 1));
    RunOne(c, Zeros(n - 1), v);
    EvalStep(k, s, v);
    EvalZeros(k, c, n - 1);
    RootIs(k, Eval(k, s));
    Distribute(24 + k, n - 1, 1);
    PowAdd(24 + k, (24 + k) * (n - 1), Eval(k, c));
  }

  /* ---- Three terms that vanish at three successive roots ---- */

  function Less(n: nat, z: Elem): Elem { Plus(PowB(n, z), z) }

  lemma LessKernel(n: nat, z: Elem)
    requires 0 < n < 1023 && Less(n, z) == 0
    ensures z == 0
  {
    hide PowB, Plus;
    PlusZero(PowB(n, z), z);
    NoFixpoint(n, z);
  }

  lemma LessTwice(n: nat, z: Elem)
    ensures Less(n, Less(n, z)) == Less(2 * n, z)
  {
    hide PowB, Plus;
    var y := PowB(n, z);
    PowLinear(n, y, z);
    PowAdd(n, n, z);
    PlusAssociates(PowB(2 * n, z), y, Plus(y, z));
    PlusAssociates(y, y, z);
    PlusZero(y, y);
    PlusZero(0, z);
    PlusZero(z, 0);
  }

  /** Two sums with the same third term. */
  lemma SameThird(u: Elem, w: Elem, u': Elem, w': Elem, c: Elem)
    requires Plus(Plus(u, w), c) == 0 && Plus(Plus(u', w'), c) == 0
    ensures Plus(u', u) == Plus(w', w)
  {
    hide Plus;
    PlusZero(Plus(u, w), c);
    PlusZero(Plus(u', w'), c);
    PlusZero(Plus(u', w'), Plus(u, w));
    PlusSwap(u', w', u, w);
    PlusZero(Plus(u', u), Plus(w', w));
  }

  lemma ThreeTerms(u: Elem, w: Elem, c: Elem, i: nat, j: nat)
    requires 0 < i < j < 1023 && Plus(Plus(u, w), c) == 0
    requires Plus(Plus(PowB(j, u), PowB(i, w)), c) == 0 && Plus(Plus(PowB(2 * j, u), PowB(2 * i, w)), c) == 0
    ensures u == 0 && w == 0 && c == 0
  {
    hide PowB, Plus;
    SameThird(u, w, PowB(j, u), PowB(i, w), c);
    SameThird(u, w, PowB(2 * j, u), PowB(2 * i, w), c);
    LessTwice(j, u);
    LessTwice(i, w);
    var y := Less(i, w);
    assert Less(j, y) == Less(i, y);
    PlusCancel(PowB(j, y), PowB(i, y), y);
    PowAdd(i, j - i, y);
    PowInjective(i, PowB(j - i, y), y);
    NoFixpoint(j - i, y);
    LessKernel(i, w);
    LessKernel(j, u);
    PlusZero(0, 0);
    PlusZero(0, c);
  }

  lemma PlusCancel(x: Elem, y: Elem, z: Elem)
    requires Plus(x, z) == Plus(y, z)
    ensures x == y
  {
  }

  /* ---- Two and three errors ---- */

  lemma EmbedInjective(v: Sym)
    requires Embed(v) == 0
    ensures v == 0
  {
  }

  lemma EvalNone(k: nat)
    requires k < 3
    ensures Eval(k, 0) == 0
  {
    hide Eval, Embed;
    EvalWide(k, 0);
    WideZero();
    EmbedZero();
  }

  lemma WideZero()
    ensures Wide(0) == 0
  {
  }

  lemma FirstSymbol(a: Sym)
    ensures Run(0, [a]) == Wide(a)
  {
    assert [a][..0] == [];
    StepFrom(a);
  }

  lemma StepFrom(a: Sym)
    ensures Step(0, a) == Wide(a)
  {
  }

  /** Two symbols d apart that cancel are zero at each root. */
  lemma PairAt(k: nat, a: Sym, b: Sym, d: nat)
    requires k < 3 && d > 0 && Run(0, [a] + Zeros(d - 1) + [b]) == 0
    ensures Plus(PowB((24 + k) * d, Embed(a)), Embed(b)) == 0
  {
    hide Eval, Plus, PowB, Embed, Run, Wide;
    assert [a] + Zeros(d - 1) + [b] == [a] + (Zeros(d - 1) + [b]);
    RunConcat(0, [a], Zeros(d - 1) + [b]);
    FirstSymbol(a);
    EvalWide(k, a);
    EvalNext(k, Wide(a), d, b);
    EvalNone(k);
  }

  lemma PairKernel(a: Sym, b: Sym, d: nat)
    requires 0 < d < 1023 && Run(0, [a] + Zeros(d - 1) + [b]) == 0
    ensures a == 0 && b == 0
  {
    hide Plus, PowB, Embed, Run;
    PairAt(0, a, b, d);
    PairAt(1, a, b, d);
    var u := PowB(24 * d, Embed(a));
    PowAdd(d, 24 * d, Embed(a));
    PlusZero(u, Embed(b));
    PlusZero(PowB(d, u), Embed(b));
    NoFixpoint(d, u);
    PowKernel(24 * d, Embed(a));
    EmbedInjective(a);
    EmbedInjective(b);
  }

  lemma TripleAt(k: nat, a: Sym, b: Sym, c: Sym, d: nat, e: nat)
    requires k < 3 && d > 0 && e > 0 && Run(0, [a] + Zeros(d - 1) + [b] + Zeros(e - 1) + [c]) == 0
    ensures Plus(Plus(PowB((24 + k) * (d + e), Embed(a)), PowB((24 + k) * e, Embed(b))), Embed(c)) == 0
  {
    hide Eval, Plus, PowB, Embed, Run, Wide;
    var first := [a] + (Zeros(d - 1) + [b]);
    assert [a] + Zeros(d - 1) + [b] + Zeros(e - 1) + [c] == first + (Zeros(e - 1) + [c]);
    RunConcat(0, first, Zeros(e - 1) + [c]);
    RunConcat(0, [a], Zeros(d - 1) + [b]);
    FirstSymbol(a);
    EvalWide(k, a);
    EvalNext(k, Wide(a), d, b);
    EvalNext(k, Run(0, first), e, c);
    EvalNone(k);
    var r := 24 + k;
    PowLinear(r * e, PowB(r * d, Embed(a)), Embed(b));
    PowAdd(r * e, r * d, Embed(a));
    Distribute(r, d, e);
  }

  lemma TripleKernel(a: Sym, b: Sym, c: Sym, d: nat, e: nat)
    requires d > 0 && e > 0 && d + e < 1023 && Run(0, [a] + Zeros(d - 1) + [b] + Zeros(e - 1) + [c]) == 0
    ensures a == 0 && b == 0 && c == 0
  {
    hide Plus, PowB, Embed, Run;
    TripleAt(0, a, b, c, d, e);
    TripleAt(1, a, b, c, d, e);
    TripleAt(2, a, b, c, d, e);
    var j := d + e;
    var u, w := PowB(24 * j, Embed(a)), PowB(24 * e, Embed(b));
    PowAdd(j, 24 * j, Embed(a));
    PowAdd(2 * j, 24 * j, Embed(a));
    PowAdd(e, 24 * e, Embed(b));
    PowAdd(2 * e, 24 * e, Embed(b));
    ThreeTerms(u, w, Embed(c), e, j);
    PowKernel(24 * j, Embed(a));
    PowKernel(24 * e, Embed(b));
    EmbedInjective(a);
    EmbedInjective(b);
    EmbedInjective(c);
  }

  /** Two lists of the same length that agree but for two positions, or three. */
  ghost predicate Pair(x: seq<Sym>, y: seq<Sym>, i: nat, j: nat) {
    |x| == |y| && i < j < |x| && forall n | 0 <= n < |x| && n != i && n != j :: x[n] == y[n]
  }

  ghost predicate Triple(x: seq<Sym>, y: seq<Sym>, i: nat, j: nat, k: nat) {
    |x| == |y| && i < j < k < |x| && forall n | 0 <= n < |x| && n != i && n != j && n != k :: x[n] == y[n]
  }

  lemma XorPair(x: seq<Sym>, y: seq<Sym>, i: nat, j: nat)
    requires Pair(x, y, i, j)
    ensures Window(x, y, i, j - i + 1)
    ensures XorSeq(x[i..j + 1], y[i..j + 1]) == [Xor5(x[i], y[i])] + Zeros(j - i - 1) + [Xor5(x[j], y[j])]
  {
    hide Xor5;
    assert i + (j - i + 1) == j + 1;
    var e := XorSeq(x[i..j + 1], y[i..j + 1]);
    forall n | 0 < n < j - i
      ensures e[n] == 0
    {
      XorSame(x[i + n]);
    }
  }

  lemma XorTriple(x: seq<Sym>, y: seq<Sym>, i: nat, j: nat, k: nat)
    requires Triple(x, y, i, j, k)
    ensures Window(x, y, i, k - i + 1)
    ensures XorSeq(x[i..k + 1], y[i..k + 1]) == [Xor5(x[i], y[i])] + Zeros(j - i - 1) + [Xor5(x[j], y[j])]
                                                + Zeros(k - j - 1) + [Xor5(x[k], y[k])]
  {
    hide Xor5;
    assert i + (k - i + 1) == k + 1;
    var e := XorSeq(x[i..k + 1], y[i..k + 1]);
    forall n | 0 < n < k - i && n != j - i
      ensures e[n] == 0
    {
      XorSame(x[i + n]);
    }
  }

  /** Different lists that agree but for two symbols less than 1023 apart have different checksums from any start. */
  lemma PairDetected(c: State, x: seq<Sym>, y: seq<Sym>, i: nat, j: nat)
    requires Pair(x, y, i, j) && j - i < 1023 && Run(c, x) == Run(c, y)
    ensures x == y
  {
    hide Step, Xor, Xor5, Run;
    XorPair(x, y, i, j);
    WindowChecksum(c, x, y, i, j - i + 1);
    PairKernel(Xor5(x[i], y[i]), Xor5(x[j], y[j]), j - i);
    assert [0] + Zeros(j - i - 1) + [0] == Zeros(j - i + 1);
    SameInside(x, y, i, j - i + 1);
  }

  /** The same for three symbols inside a window of 1023. */
  lemma TripleDetected(c: State, x: seq<Sym>, y: seq<Sym>, i: nat, j: nat, k: nat)
    requires Triple(x, y, i, j, k) && k - i < 1023 && Run(c, x) == Run(c, y)
    ensures x == y
  {
    hide Step, Xor, Xor5, Run;
    XorTriple(x, y, i, j, k);
    WindowChecksum(c, x, y, i, k - i + 1);
    TripleKernel(Xor5(x[i], y[i]), Xor5(x[j], y[j]), Xor5(x[k], y[k]), j - i, k - j);
    assert [0] + Zeros(j - i - 1) + [0] + Zeros(k - j - 1) + [0] == Zeros(k - i + 1);
    SameInside(x, y, i, k - i + 1);
  }

  /** A list that verifies stops verifying when one or two of its symbols less than 1023 apart are changed. */
  lemma PairCorruption(hrp: Text, x: seq<Sym>, y: seq<Sym>, i: nat, j: nat)
    requires VerifyChecksum(hrp, x) && Pair(x, y, i, j) && j - i < 1023 && x != y
    ensures !VerifyChecksum(hrp, y)
  {
    hide Run, Step, ExpandHRP;
    var h := ExpandHRP(hrp);
    assert x == (h + x)[|h|..] && y == (h + y)[|h|..];
    if VerifyChecksum(hrp, y) {
      PairDetected(1, h + x, h + y, |h| + i, |h| + j);
    }
  }

  /** The same for up to three symbols inside a window of 1023. */
  lemma TripleCorruption(hrp: Text, x: seq<Sym>, y: seq<Sym>, i: nat, j: nat, k: nat)
    requires VerifyChecksum(hrp, x) && Triple(x, y, i, j, k) && k - i < 1023 && x != y
    ensures !VerifyChecksum(hrp, y)
  {
    hide Run, Step, ExpandHRP;
    var h := ExpandHRP(hrp);
    assert x == (h + x)[|h|..] && y == (h + y)[|h|..];
    if VerifyChecksum(hrp, y) {
      TripleDetected(1, h + x, h + y, |h| + i, |h| + j, |h| + k);
    }
  }
}
