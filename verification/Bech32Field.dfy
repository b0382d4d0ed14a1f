/** The field GF(1024) behind the Bech32 checksum (the comment on PolyMod in src/bech32.cpp). An element b + c * e has b
    and c in GF(32), where e * e = 9 * e + 23; the inverse of e generates the field, and its powers 24, 25 and 26 are
    roots of the checksum generator. Multiplication by a power of it is a linear map on ten bits. */
module Bech32Field {

  type Elem = bv10

  function Plus(x: Elem, y: Elem): Elem { x ^ y }

  lemma PlusAssociates(a: Elem, b: Elem, c: Elem)
    ensures Plus(Plus(a, b), c) == Plus(a, Plus(b, c))
  {
  }

  /** In this field a sum is zero exactly when its two terms are equal. */
  lemma PlusZero(x: Elem, y: Elem)
    ensures Plus(x, y) == 0 <==> x == y
    ensures Plus(x, 0) == x && Plus(0, x) == x && Plus(x, y) == Plus(y, x)
  {
  }

  lemma PlusSwap(a: Elem, b: Elem, c: Elem, d: Elem)
    ensures Plus(Plus(a, b), Plus(c, d)) == Plus(Plus(a, c), Plus(b, d))
  {
    hide Plus;
    PlusAssociates(a, b, Plus(c, d));
    PlusAssociates(b, c, d);
    PlusZero(b, c);
    PlusAssociates(c, b, d);
    PlusAssociates(a, c, Plus(b, d));
  }

  /* ---- Linear maps ---- */

  /** The values of a linear map at the ten bits. */
  datatype Map = Map(c0: Elem, c1: Elem, c2: Elem, c3: Elem, c4: Elem, c5: Elem, c6: Elem, c7: Elem, c8: Elem, c9: Elem)

  function Pick(b: bool, c: Elem): Elem { if b then c else 0 }

  function Apply(m: Map, z: Elem): Elem { (Low(m, z) ^ Middle(m, z)) ^ High(m, z) }

  function Low(m: Map, z: Elem): Elem {
    ((if z & 1 != 0 then m.c0 else 0) ^ (if z & 2 != 0 then m.c1 else 0))
    ^ ((if z & 4 != 0 then m.c2 else 0) ^ (if z & 8 != 0 then m.c3 else 0))
  }

  function Middle(m: Map, z: Elem): Elem {
    ((if z & 16 != 0 then m.c4 else 0) ^ (if z & 32 != 0 then m.c5 else 0))
    ^ ((if z & 64 != 0 then m.c6 else 0) ^ (if z & 128 != 0 then m.c7 else 0))
  }

  function High(m: Map, z: Elem): Elem {
    (if z & 256 != 0 then m.c8 else 0) ^ (if z & 512 != 0 then m.c9 else 0)
  }

  lemma LowIs(m: Map, z: Elem)
    ensures Low(m, z) == Plus(Plus(Pick(z & 1 != 0, m.c0), Pick(z & 2 != 0, m.c1)),
                              Plus(Pick(z & 4 != 0, m.c2), Pick(z & 8 != 0, m.c3)))
  {
  }

  lemma MiddleIs(m: Map, z: Elem)
    ensures Middle(m, z) == Plus(Plus(Pick(z & 16 != 0, m.c4), Pick(z & 32 != 0, m.c5)),
                                 Plus(Pick(z & 64 != 0, m.c6), Pick(z & 128 != 0, m.c7)))
  {
  }

  lemma HighIs(m: Map, z: Elem)
    ensures High(m, z) == Plus(Pick(z & 256 != 0, m.c8), Pick(z & 512 != 0, m.c9))
  {
  }

  lemma Sum(a: Elem, b: Elem, c: Elem)
    ensures (a ^ b) ^ c == Plus(Plus(a, b), c)
  {
  }

  /** The same, term by term. */
  lemma Applied(m: Map, z: Elem)
    ensures Apply(m, z) ==
            Plus(Plus(Plus(Plus(Pick(z & 1 != 0, m.c0), Pick(z & 2 != 0, m.c1)),
                           Plus(Pick(z & 4 != 0, m.c2), Pick(z & 8 != 0, m.c3))),
                      Plus(Plus(Pick(z & 16 != 0, m.c4), Pick(z & 32 != 0, m.c5)),
                           Plus(Pick(z & 64 != 0, m.c6), Pick(z & 128 != 0, m.c7)))),
                 Plus(Pick(z & 256 != 0, m.c8), Pick(z & 512 != 0, m.c9)))
  {
    hide Plus, Pick, Low, Middle, High;
    LowIs(m, z);
    MiddleIs(m, z);
    HighIs(m, z);
    Sum(Low(m, z), Middle(m, z), High(m, z));
  }

  lemma PickXor(a: bool, b: bool, c: Elem)
    ensures Pick(a != b, c) == Plus(Pick(a, c), Pick(b, c))
  {
    hide Plus;
    PlusZero(c, c);
    PlusZero(c, 0);
    PlusZero(0, 0);
  }

  lemma BitsXor(x: Elem, y: Elem)
    ensures var z := Plus(x, y);
            && (z & 1 != 0) == ((x & 1 != 0) != (y & 1 != 0)) && (z & 2 != 0) == ((x & 2 != 0) != (y & 2 != 0))
            && (z & 4 != 0) == ((x & 4 != 0) != (y & 4 != 0)) && (z & 8 != 0) == ((x & 8 != 0) != (y & 8 != 0))
            && (z & 16 != 0) == ((x & 16 != 0) != (y & 16 != 0)) && (z & 32 != 0) == ((x & 32 != 0) != (y & 32 != 0))
            && (z & 64 != 0) == ((x & 64 != 0) != (y & 64 != 0)) && (z & 128 != 0) == ((x & 128 != 0) != (y & 128 != 0))
            && (z & 256 != 0) == ((x & 256 != 0) != (y & 256 != 0))
            && (z & 512 != 0) == ((x & 512 != 0) != (y & 512 != 0))
  {
  }

  lemma ApplyLinear(m: Map, x: Elem, y: Elem)
    ensures Apply(m, Plus(x, y)) == Plus(Apply(m, x), Apply(m, y))
  {
    BitsXor(x, y);
    hide Plus, Pick, Apply;
    Applied(m, x);
    Applied(m, y);
    Applied(m, Plus(x, y));
    PickXor(x & 1 != 0, y & 1 != 0, m.c0);
    PickXor(x & 2 != 0, y & 2 != 0, m.c1);
    PickXor(x & 4 != 0, y & 4 != 0, m.c2);
    PickXor(x & 8 != 0, y & 8 != 0, m.c3);
    PickXor(x & 16 != 0, y & 16 != 0, m.c4);
    PickXor(x & 32 != 0, y & 32 != 0, m.c5);
    PickXor(x & 64 != 0, y & 64 != 0, m.c6);
    PickXor(x & 128 != 0, y & 128 != 0, m.c7);
    PickXor(x & 256 != 0, y & 256 != 0, m.c8);
    PickXor(x & 512 != 0, y & 512 != 0, m.c9);
    var x0, y0 := Pick(x & 1 != 0, m.c0), Pick(y & 1 != 0, m.c0);
    var x1, y1 := Pick(x & 2 != 0, m.c1), Pick(y & 2 != 0, m.c1);
    var x2, y2 := Pick(x & 4 != 0, m.c2), Pick(y & 4 != 0, m.c2);
    var x3, y3 := Pick(x & 8 != 0, m.c3), Pick(y & 8 != 0, m.c3);
    var x4, y4 := Pick(x & 16 != 0, m.c4), Pick(y & 16 != 0, m.c4);
    var x5, y5 := Pick(x & 32 != 0, m.c5), Pick(y & 32 != 0, m.c5);
    var x6, y6 := Pick(x & 64 != 0, m.c6), Pick(y & 64 != 0, m.c6);
    var x7, y7 := Pick(x & 128 != 0, m.c7), Pick(y & 128 != 0, m.c7);
    var x8, y8 := Pick(x & 256 != 0, m.c8), Pick(y & 256 != 0, m.c8);
    var x9, y9 := Pick(x & 512 != 0, m.c9), Pick(y & 512 != 0, m.c9);
    PlusSwap(x0, y0, x1, y1);
    PlusSwap(x2, y2, x3, y3);
    PlusSwap(x4, y4, x5, y5);
    PlusSwap(x6, y6, x7, y7);
    PlusSwap(x8, y8, x9, y9);
    PlusSwap(Plus(x0, x1), Plus(y0, y1), Plus(x2, x3), Plus(y2, y3));
    PlusSwap(Plus(x4, x5), Plus(y4, y5), Plus(x6, x7), Plus(y6, y7));
    var xa, xb := Plus(Plus(x0, x1), Plus(x2, x3)), Plus(Plus(x4, x5), Plus(x6, x7));
    var ya, yb := Plus(Plus(y0, y1), Plus(y2, y3)), Plus(Plus(y4, y5), Plus(y6, y7));
    PlusSwap(xa, ya, xb, yb);
    PlusSwap(Plus(xa, xb), Plus(ya, yb), Plus(x8, x9), Plus(y8, y9));
  }

  lemma ApplyZero(m: Map)
    ensures Apply(m, 0) == 0
  {
  }

  lemma ApplyPick(m: Map, b: bool, c: Elem)
    ensures Apply(m, Pick(b, c)) == Pick(b, Apply(m, c))
  {
    ApplyZero(m);
    hide Apply;
  }

  /** c is b followed by a. */
  predicate Product(a: Map, b: Map, c: Map) {
    && c.c0 == Apply(a, b.c0) && c.c1 == Apply(a, b.c1) && c.c2 == Apply(a, b.c2) && c.c3 == Apply(a, b.c3)
    && c.c4 == Apply(a, b.c4) && c.c5 == Apply(a, b.c5) && c.c6 == Apply(a, b.c6) && c.c7 == Apply(a, b.c7)
    && c.c8 == Apply(a, b.c8) && c.c9 == Apply(a, b.c9)
  }

  lemma ProductIs(a: Map, b: Map, c: Map, z: Elem)
    requires Product(a, b, c)
    ensures Apply(c, z) == Apply(a, Apply(b, z))
  {
    hide Plus, Pick, Apply;
    Applied(b, z);
    Applied(c, z);
    var p0 := Pick(z & 1 != 0, b.c0);
    var p1 := Pick(z & 2 != 0, b.c1);
    var p2 := Pick(z & 4 != 0, b.c2);
    var p3 := Pick(z & 8 != 0, b.c3);
    var p4 := Pick(z & 16 != 0, b.c4);
    var p5 := Pick(z & 32 != 0, b.c5);
    var p6 := Pick(z & 64 != 0, b.c6);
    var p7 := Pick(z & 128 != 0, b.c7);
    var p8 := Pick(z & 256 != 0, b.c8);
    var p9 := Pick(z & 512 != 0, b.c9);
    ApplyPick(a, z & 1 != 0, b.c0);
    ApplyPick(a, z & 2 != 0, b.c1);
    ApplyPick(a, z & 4 != 0, b.c2);
    ApplyPick(a, z & 8 != 0, b.c3);
    ApplyPick(a, z & 16 != 0, b.c4);
    ApplyPick(a, z & 32 != 0, b.c5);
    ApplyPick(a, z & 64 != 0, b.c6);
    ApplyPick(a, z & 128 != 0, b.c7);
    ApplyPick(a, z & 256 != 0, b.c8);
    ApplyPick(a, z & 512 != 0, b.c9);
    ApplyLinear(a, p0, p1);
    ApplyLinear(a, p2, p3);
    ApplyLinear(a, p4, p5);
    ApplyLinear(a, p6, p7);
    ApplyLinear(a, p8, p9);
    ApplyLinear(a, Plus(p0, p1), Plus(p2, p3));
    ApplyLinear(a, Plus(p4, p5), Plus(p6, p7));
    ApplyLinear(a, Plus(Plus(p0, p1), Plus(p2, p3)),
                Plus(Plus(p4, p5), Plus(p6, p7)));
    ApplyLinear(a, Plus(Plus(Plus(p0, p1), Plus(p2, p3)), Plus(Plus(p4, p5), Plus(p6, p7))),
                Plus(p8, p9));
  }

  /* ---- Powers of the generator ---- */

  const M1 := Map(0x266, 0x1ec, 0x3d8, 0x2b9, 0x7b, 0x1, 0x2, 0x4, 0x8, 0x10)
  const M2 := Map(0x227, 0x16e, 0x2dc, 0xb1, 0x14b, 0x266, 0x1ec, 0x3d8, 0x2b9, 0x7b)
  const M3 := Map(0x43, 0x86, 0x10c, 0x218, 0x139, 0x227, 0x16e, 0x2dc, 0xb1, 0x14b)
  const M6 := Map(0x1ab, 0x356, 0x3a5, 0x26a, 0x1f4, 0x2a5, 0x6a, 0xd4, 0x181, 0x302)
  const M12 := Map(0x367, 0x3ee, 0x2fc, 0xf1, 0x1cb, 0x37d, 0x3f3, 0x2ef, 0xfe, 0x1d5)
  const M24 := Map(0x3d0, 0x2a9, 0x72, 0xcd, 0x19a, 0x104, 0x208, 0x130, 0x249, 0x1b2)
  const M25 := Map(0x65, 0xca, 0x194, 0x301, 0x322, 0x3d0, 0x2a9, 0x72, 0xcd, 0x19a)
  const M26 := Map(0x1bd, 0x353, 0x3af, 0x27e, 0x1f5, 0x65, 0xca, 0x194, 0x301, 0x322)
  const M30 := Map(0x3c9, 0x2b2, 0x6d, 0xda, 0x19d, 0x224, 0x168, 0x2d0, 0xa9, 0x152)
  const M31 := Map(0xc1, 0x182, 0x304, 0x328, 0x370, 0x3c9, 0x2b2, 0x6d, 0xda, 0x19d)
  const M33 := Map(0x13, 0xf, 0x1e, 0x15, 0x3, 0x260, 0x1e0, 0x3c0, 0x2a0, 0x60)
  const M62 := Map(0x21e, 0x135, 0x243, 0x1a6, 0x34c, 0x71, 0xcb, 0x196, 0x305, 0x32a)
  const M93 := Map(0x343, 0x3a6, 0x26c, 0x1f8, 0x3d9, 0x2ca, 0xb4, 0x141, 0x282, 0x24)
  const M186 := Map(0x2f7, 0xe7, 0x1ce, 0x39c, 0x231, 0x38f, 0x23e, 0x175, 0x2c3, 0xa6)
  const M279 := Map(0x24b, 0x1b6, 0x345, 0x3aa, 0x274, 0x96, 0x105, 0x20a, 0x134, 0x241)
  const M341 := Map(0x16c, 0x2d8, 0xb9, 0x15b, 0x29f, 0x1ac, 0x358, 0x3b9, 0x27b, 0x1ff)
  const M682 := Map(0x16d, 0x2da, 0xbd, 0x153, 0x28f, 0x18c, 0x318, 0x339, 0x37b, 0x3ff)

  /** Times the generator of the field. */
  function TimesB(z: Elem): Elem { Apply(M1, z) }

  function PowB(n: nat, z: Elem): Elem { if n == 0 then z else TimesB(PowB(n - 1, z)) }

  lemma {:induction false} PowAdd(m: nat, n: nat, z: Elem)
    ensures PowB(m + n, z) == PowB(m, PowB(n, z))
    decreases m
  {
    hide TimesB;
    if m > 0 {
      PowAdd(m - 1, n, z);
    }
  }

  lemma Is1(z: Elem)
    ensures Apply(M1, z) == PowB(1, z)
  {
    hide Apply;
    assert PowB(0, z) == z;
  }

  lemma Is2(z: Elem)
    ensures Apply(M2, z) == PowB(2, z)
  {
    hide Apply, PowB, Product;
    Product2();
    ProductIs(M1, M1, M2, z);
    Is1(z);
    Is1(PowB(1, z));
    PowAdd(1, 1, z);
  }

  lemma Product2()
    ensures Product(M1, M1, M2)
  {
  }

  lemma Is3(z: Elem)
    ensures Apply(M3, z) == PowB(3, z)
  {
    hide Apply, PowB, Product;
    Product3();
    ProductIs(M2, M1, M3, z);
    Is1(z);
    Is2(PowB(1, z));
    PowAdd(2, 1, z);
  }

  lemma Product3()
    ensures Product(M2, M1, M3)
  {
  }

  lemma Is6(z: Elem)
    ensures Apply(M6, z) == PowB(6, z)
  {
    hide Apply, PowB, Product;
    Product6();
    ProductIs(M3, M3, M6, z);
    Is3(z);
    Is3(PowB(3, z));
    PowAdd(3, 3, z);
  }

  lemma Product6()
    ensures Product(M3, M3, M6)
  {
  }

  lemma Is12(z: Elem)
    ensures Apply(M12, z) == PowB(12, z)
  {
    hide Apply, PowB, Product;
    Product12();
    ProductIs(M6, M6, M12, z);
    Is6(z);
    Is6(PowB(6, z));
    PowAdd(6, 6, z);
  }

  lemma Product12()
    ensures Product(M6, M6, M12)
  {
  }

  lemma Is24(z: Elem)
    ensures Apply(M24, z) == PowB(24, z)
  {
    hide Apply, PowB, Product;
    Product24();
    ProductIs(M12, M12, M24, z);
    Is12(z);
    Is12(PowB(12, z));
    PowAdd(12, 12, z);
  }

  lemma Product24()
    ensures Product(M12, M12, M24)
  {
  }

  lemma Is25(z: Elem)
    ensures Apply(M25, z) == PowB(25, z)
  {
    hide Apply, PowB, Product;
    Product25();
    ProductIs(M24, M1, M25, z);
    Is1(z);
    Is24(PowB(1, z));
    PowAdd(24, 1, z);
  }

  lemma Product25()
    ensures Product(M24, M1, M25)
  {
  }

  lemma Is26(z: Elem)
    ensures Apply(M26, z) == PowB(26, z)
  {
    hide Apply, PowB, Product;
    Product26();
    ProductIs(M25, M1, M26, z);
    Is1(z);
    Is25(PowB(1, z));
    PowAdd(25, 1, z);
  }

  lemma Product26()
    ensures Product(M25, M1, M26)
  {
  }

  lemma Is30(z: Elem)
    ensures Apply(M30, z) == PowB(30, z)
  {
    hide Apply, PowB, Product;
    Product30();
    ProductIs(M24, M6, M30, z);
    Is6(z);
    Is24(PowB(6, z));
    PowAdd(24, 6, z);
  }

  lemma Product30()
    ensures Product(M24, M6, M30)
  {
  }

  lemma Is31(z: Elem)
    ensures Apply(M31, z) == PowB(31, z)
  {
    hide Apply, PowB, Product;
    Product31();
    ProductIs(M30, M1, M31, z);
    Is1(z);
    Is30(PowB(1, z));
    PowAdd(30, 1, z);
  }

  lemma Product31()
    ensures Product(M30, M1, M31)
  {
  }

  lemma Is33(z: Elem)
    ensures Apply(M33, z) == PowB(33, z)
  {
    hide Apply, PowB, Product;
    Product33();
    ProductIs(M30, M3, M33, z);
    Is3(z);
    Is30(PowB(3, z));
    PowAdd(30, 3, z);
  }

  lemma Product33()
    ensures Product(M30, M3, M33)
  {
  }

  lemma Is62(z: Elem)
    ensures Apply(M62, z) == PowB(62, z)
  {
    hide Apply, PowB, Product;
    Product62();
    ProductIs(M31, M31, M62, z);
    Is31(z);
    Is31(PowB(31, z));
    PowAdd(31, 31, z);
  }

  lemma Product62()
    ensures Product(M31, M31, M62)
  {
  }

  lemma Is93(z: Elem)
    ensures Apply(M93, z) == PowB(93, z)
  {
    hide Apply, PowB, Product;
    Product93();
    ProductIs(M62, M31, M93, z);
    Is31(z);
    Is62(PowB(31, z));
    PowAdd(62, 31, z);
  }

  lemma Product93()
    ensures Product(M62, M31, M93)
  {
  }

  lemma Is186(z: Elem)
    ensures Apply(M186, z) == PowB(186, z)
  {
    hide Apply, PowB, Product;
    Product186();
    ProductIs(M93, M93, M186, z);
    Is93(z);
    Is93(PowB(93, z));
    PowAdd(93, 93, z);
  }

  lemma Product186()
    ensures Product(M93, M93, M186)
  {
  }

  lemma Is279(z: Elem)
    ensures Apply(M279, z) == PowB(279, z)
  {
    hide Apply, PowB, Product;
    Product279();
    ProductIs(M186, M93, M279, z);
    Is93(z);
    Is186(PowB(93, z));
    PowAdd(186, 93, z);
  }

  lemma Product279()
    ensures Product(M186, M93, M279)
  {
  }

  lemma Is341(z: Elem)
    ensures Apply(M341, z) == PowB(341, z)
  {
    hide Apply, PowB, Product;
    Product341();
    ProductIs(M279, M62, M341, z);
    Is62(z);
    Is279(PowB(62, z));
    PowAdd(279, 62, z);
  }

  lemma Product341()
    ensures Product(M279, M62, M341)
  {
  }

  lemma Is682(z: Elem)
    ensures Apply(M682, z) == PowB(682, z)
  {
    hide Apply, PowB, Product;
    Product682();
    ProductIs(M341, M341, M682, z);
    Is341(z);
    Is341(PowB(341, z));
    PowAdd(341, 341, z);
  }

  lemma Product682()
    ensures Product(M341, M341, M682)
  {
  }

  lemma {:induction false} PowLinear(n: nat, x: Elem, y: Elem)
    ensures PowB(n, Plus(x, y)) == Plus(PowB(n, x), PowB(n, y))
    decreases n
  {
    hide Apply, Plus;
    if n > 0 {
      PowLinear(n - 1, x, y);
      ApplyLinear(M1, PowB(n - 1, x), PowB(n - 1, y));
    }
  }

  lemma {:induction false} PowZero(n: nat)
    ensures PowB(n, 0) == 0
    decreases n
  {
    hide Apply;
    if n > 0 {
      PowZero(n - 1);
      ApplyZero(M1);
    }
  }

  lemma Cube()
    ensures Product(M341, M682, Map(1, 2, 4, 8, 16, 32, 64, 128, 256, 512))
  {
  }

  lemma Identity(z: Elem)
    ensures Apply(Map(1, 2, 4, 8, 16, 32, 64, 128, 256, 512), z) == z
  {
  }

  /** The generator has order 1023. */
  lemma FullPeriod(z: Elem)
    ensures PowB(1023, z) == z
  {
    hide PowB, Apply, Product;
    Cube();
    ProductIs(M341, M682, Map(1, 2, 4, 8, 16, 32, 64, 128, 256, 512), z);
    Identity(z);
    Is682(z);
    Is341(PowB(682, z));
    PowAdd(341, 682, z);
  }

  lemma PowKernel(n: nat, z: Elem)
    ensures PowB(n, z) == 0 <==> z == 0
  {
    hide PowB;
    PowZero(n);
    if PowB(n, z) == 0 {
      var k := 1023 * n;
      Repeats(n, z);
      PowAdd(k - n, n, z);
      PowZero(k - n);
    }
  }

  lemma {:induction false} Repeats(n: nat, z: Elem)
    ensures PowB(1023 * n, z) == z
    decreases n
  {
    hide PowB;
    if n == 0 {
      PowNone(z);
    } else {
      Repeats(n - 1, z);
      FullPeriod(z);
      PowAdd(1023, 1023 * (n - 1), z);
    }
  }

  lemma PowNone(z: Elem)
    ensures PowB(0, z) == z
  {
  }

  lemma PowInjective(n: nat, x: Elem, y: Elem)
    requires PowB(n, x) == PowB(n, y)
    ensures x == y
  {
    hide PowB, Plus;
    PowLinear(n, x, y);
    PlusZero(PowB(n, x), PowB(n, y));
    PowKernel(n, Plus(x, y));
    PlusZero(x, y);
  }

  lemma Kernel33(z: Elem)
    requires Apply(M33, z) == z
    ensures z == 0
  {
  }

  lemma Kernel93(z: Elem)
    requires Apply(M93, z) == z
    ensures z == 0
  {
  }

  lemma Kernel341(z: Elem)
    requires Apply(M341, z) == z
    ensures z == 0
  {
  }

  /** Two periods have their greatest common divisor as a period. */
  lemma {:induction false} CommonPeriod(m: nat, n: nat, z: Elem) returns (g: nat, a: nat, b: nat)
    requires m > 0 && n > 0 && PowB(m, z) == z && PowB(n, z) == z
    ensures g > 0 && m == g * a && n == g * b && PowB(g, z) == z
    decreases m + n
  {
    hide PowB;
    if m == n {
      g, a, b := m, 1, 1;
    } else if m > n {
      PowAdd(m - n, n, z);
      g, a, b := CommonPeriod(m - n, n, z);
      Distribute(g, a, b);
      a := a + b;
    } else {
      PowAdd(n - m, m, z);
      g, a, b := CommonPeriod(m, n - m, z);
      Distribute(g, b, a);
      b := b + a;
    }
  }

  lemma Distribute(g: nat, a: nat, b: nat)
    ensures g * (a + b) == g * a + g * b
  {
  }

  lemma {:induction false} Multiple(g: nat, x: nat, z: Elem)
    requires PowB(g, z) == z
    ensures PowB(g * x, z) == z
    decreases x
  {
    hide PowB;
    if x == 0 {
      PowNone(z);
    } else {
      Multiple(g, x - 1, z);
      Distribute(g, x - 1, 1);
      PowAdd(g, g * (x - 1), z);
    }
  }

  /** 1023 = 3 * 11 * 31. */
  lemma SmallDivisor(b: nat, g: nat)
    requires g * b == 1023 && 1 < b <= 31
    ensures b == 3 || b == 11 || b == 31
  {
    assert b == 2 || b == 3 || b == 4 || b == 5 || b == 6 || b == 7 || b == 8 || b == 9 || b == 10 || b == 11 || b == 12
           || b == 13 || b == 14 || b == 15 || b == 16 || b == 17 || b == 18 || b == 19 || b == 20 || b == 21 || b == 22
           || b == 23 || b == 24 || b == 25 || b == 26 || b == 27 || b == 28 || b == 29 || b == 30 || b == 31;
  }

  lemma Mono(a: nat, b: nat, c: nat, d: nat)
    requires a <= c && b <= d
    ensures a * b <= c * d
  {
  }

  /** A proper divisor of 1023 divides 33, 93 or 341. */
  lemma Divisor(g: nat, b: nat) returns (n: nat, x: nat)
    requires g * b == 1023 && b > 1 && g > 0
    ensures (n == 33 || n == 93 || n == 341) && n == g * x
  {
    if b <= 31 {
      SmallDivisor(b, g);
      n, x := g, 1;
    } else if g == 1 {
      n, x := 33, 33;
    } else {
      if g > 31 {
        Mono(32, 32, g, b);
      }
      SmallDivisor(g, b);
      n := if g == 31 then 93 else 33;
      x := n / g;
    }
  }

  /** No power of the generator below the 1023rd leaves a nonzero element as it is. */
  lemma NoFixpoint(d: nat, z: Elem)
    requires 0 < d < 1023 && PowB(d, z) == z
    ensures z == 0
  {
    hide PowB, Apply;
    FullPeriod(z);
    var g, a, b := CommonPeriod(d, 1023, z);
    if b <= 1 {
      Mono(g, 1, g, a);
    }
    var n, x := Divisor(g, b);
    Multiple(g, x, z);
    if n == 33 {
      Is33(z);
      Kernel33(z);
    } else if n == 93 {
      Is93(z);
      Kernel93(z);
    } else {
      Is341(z);
      Kernel341(z);
    }
  }
}
