/** The period of the random numbers (proc.c of the scheduling assignment), and what it makes of the lottery.  The
    register is linear: its later values are sums of its first sixteen, and a polynomial over bits says of which.
    Polynomials multiply modulo the one that the taps stand for, so that the value after very many steps comes from a
    few products. */
module Lfsr {
  import opened Lottery
  import opened Params

  /** A polynomial over bits, X^i at bit i, or a register. */
  type Bits = bv32

  function Xor(a: Bits, b: Bits): Bits {
    a ^ b
  }

  function Half(p: Bits): Bits {
    p >> 1
  }

  predicate Odd(p: Bits) {
    p & 1 == 1
  }

  function Part(p: Bits, x: Bits): Bits {
    if Odd(p) then x else 0
  }

  predicate Short(x: Bits) {
    x < 0x1_0000
  }

  lemma Assoc(a: Bits, b: Bits, c: Bits)
    ensures Xor(Xor(a, b), c) == Xor(a, Xor(b, c))
  {
  }

  lemma Comm(a: Bits, b: Bits)
    ensures Xor(a, b) == Xor(b, a)
  {
  }

  lemma FourTerms(a: Bits, b: Bits, c: Bits, d: Bits)
    ensures Xor(Xor(a, b), Xor(c, d)) == Xor(Xor(a, c), Xor(b, d))
  {
    hide Xor;
    Assoc(a, b, Xor(c, d));
    Assoc(b, c, d);
    Comm(b, c);
    Assoc(c, b, d);
    Assoc(a, c, Xor(b, d));
  }

  lemma Zero(a: Bits)
    ensures Xor(a, 0) == a && Xor(0, a) == a && Xor(a, a) == 0
  {
  }

  lemma Shorter(a: Bits, b: Bits)
    requires Short(a) && Short(b)
    ensures Short(Xor(a, b)) && Short(Rand(a))
  {
  }

  lemma RandLinear(x: Bits, y: Bits)
    requires Short(x) && Short(y)
    ensures Rand(Xor(x, y)) == Xor(Rand(x), Rand(y))
  {
  }

  lemma RandZero()
    ensures Rand(0) == 0
  {
  }

  lemma Halves(p: Bits, q: Bits)
    ensures Half(Xor(p, q)) == Xor(Half(p), Half(q)) && (Odd(Xor(p, q)) <==> Odd(p) != Odd(q))
  {
  }

  lemma PartsAdd(p: Bits, q: Bits, x: Bits, y: Bits)
    ensures Part(Xor(p, q), x) == Xor(Part(p, x), Part(q, x))
    ensures Part(p, Xor(x, y)) == Xor(Part(p, x), Part(p, y))
    ensures Part(p, Rand(x)) == Rand(Part(p, x))
  {
    hide Xor, Odd, Rand;
    Halves(p, q);
    Zero(x);
    Zero(0);
    RandZero();
  }

  // ---------- Polynomials in rand

  /** The sum of the i-th values after x over the bits i of p. */
  function Poly(p: Bits, x: Bits): Bits
    decreases p
  {
    if p == 0 then 0 else Xor(Part(p, x), Poly(Half(p), Rand(x)))
  }

  lemma PolySplits(p: Bits, x: Bits)
    ensures Poly(p, x) == Xor(Part(p, x), Poly(Half(p), Rand(x)))
  {
    hide Rand;
    if p == 0 {
      assert Half(p) == 0 && Part(p, x) == 0;
      Zero(0);
    }
  }

  lemma NoPoly(x: Bits)
    ensures Poly(0, x) == 0 && Poly(1, x) == x
  {
    hide Rand;
    Zero(x);
    assert Half(1) == 0;
  }

  lemma Halved(p: Bits)
    requires p != 0
    ensures Half(p) < p
  {
  }

  /** Sums add up, over polynomials and over registers, and the next value of a sum is the sum of the next values. */
  lemma {:induction false} PolyLinear(p: Bits, q: Bits, x: Bits)
    ensures Poly(Xor(p, q), x) == Xor(Poly(p, x), Poly(q, x))
    decreases p
  {
    hide Rand, Part, Poly, Xor, Half;
    if p == 0 {
      NoPoly(x);
      Zero(q);
      Zero(Poly(q, x));
    } else {
      PolySplits(p, x);
      PolySplits(q, x);
      PolySplits(Xor(p, q), x);
      PartsAdd(p, q, x, x);
      Halves(p, q);
      Halved(p);
      PolyLinear(Half(p), Half(q), Rand(x));
      FourTerms(Part(p, x), Poly(Half(p), Rand(x)), Part(q, x), Poly(Half(q), Rand(x)));
    }
  }

  lemma {:induction false} PolyAdds(p: Bits, x: Bits, y: Bits)
    requires Short(x) && Short(y)
    ensures Short(Poly(p, x)) && Poly(p, Xor(x, y)) == Xor(Poly(p, x), Poly(p, y))
    ensures Poly(p, Rand(x)) == Rand(Poly(p, x))
    decreases p
  {
    hide Rand, Poly, Xor, Half, Short, Odd;
    var s := Xor(x, y);
    if p == 0 {
      NoPoly(x);
      NoPoly(y);
      NoPoly(s);
      NoPoly(Rand(x));
      Zero(0);
      RandZero();
      ShortZero();
    } else {
      PolySplits(p, x);
      PolySplits(p, y);
      PolySplits(p, s);
      PolySplits(p, Rand(x));
      PartsAdd(p, p, x, y);
      RandLinear(x, y);
      Shorter(x, y);
      Shorter(y, x);
      ShortZero();
      Halved(p);
      PolyAdds(Half(p), Rand(x), Rand(y));
      FourTerms(Part(p, x), Poly(Half(p), Rand(x)), Part(p, y), Poly(Half(p), Rand(y)));
      Shorter(Part(p, x), Poly(Half(p), Rand(x)));
      RandLinear(Part(p, x), Poly(Half(p), Rand(x)));
    }
  }

  lemma ShortZero()
    ensures Short(0)
  {
  }

  /** The same sum, its first 2n terms apart: for sums of given polynomials. */
  function PolyOf(p: Bits, x: Bits, n: nat): Bits
    decreases n
  {
    if n == 0 then Poly(p, x)
    else Xor(Xor(Part(p, x), Part(p >> 1, Rand(x))), PolyOf(p >> 2, Rand(Rand(x)), n - 1))
  }

  lemma PolyOfSplits(p: Bits, x: Bits, n: nat)
    requires n > 0
    ensures PolyOf(p, x, n)
         == Xor(Xor(Part(p, x), Part(Half(p), Rand(x))), PolyOf(Half(Half(p)), Rand(Rand(x)), n - 1))
  {
    hide Rand, Poly, Part, Xor, Half;
    TwoHalves(p);
  }

  lemma TwoHalves(p: Bits)
    ensures Half(p) == p >> 1 && Half(Half(p)) == p >> 2
  {
  }

  lemma {:induction false} PolyOfIs(p: Bits, x: Bits, n: nat)
    ensures PolyOf(p, x, n) == Poly(p, x)
    decreases n
  {
    if n > 0 {
      hide Rand, Poly, Xor, Half, Part, PolyOf;
      PolyOfSplits(p, x, n);
      PolySplits(p, x);
      PolySplits(Half(p), Rand(x));
      Assoc(Part(p, x), Part(Half(p), Rand(x)), Poly(Half(Half(p)), Rand(Rand(x))));
      PolyOfIs(Half(Half(p)), Rand(Rand(x)), n - 1);
    }
  }

  // ---------- The recurrence

  /** X^16 + X^5 + X^3 + X^2 + 1, which the taps stand for. */
  const TAPS: Bits := 0x1002D

  predicate Vanishes(x: Bits) {
    Short(x) && Poly(TAPS, x) == 0
  }

  lemma VanishesOn(x: Bits, y: Bits)
    requires Vanishes(x) && Vanishes(y)
    ensures Vanishes(Xor(x, y)) && Vanishes(Rand(x))
  {
    hide Rand, Poly, Xor, Short;
    PolyAdds(TAPS, x, y);
    Shorter(x, y);
    Zero(0);
    RandZero();
  }

  lemma VanishesOnTop()
    ensures Vanishes(0x8000)
  {
    PolyOfIs(0x1002D, 0x8000, 9);
  }

  lemma VanishesOnZero()
    ensures Vanishes(0)
  {
    hide Rand, Poly, Xor;
    PolyAdds(TAPS, 0, 0);
    Zero(0);
    Zero(Poly(TAPS, 0));
  }

  predicate OneBit(b: Bits) {
    b in {1, 2, 4, 8, 0x10, 0x20, 0x40, 0x80, 0x100, 0x200, 0x400, 0x800, 0x1000, 0x2000, 0x4000, 0x8000}
  }

  lemma NextBit(b: Bits)
    requires OneBit(b) && b != 0x8000
    ensures OneBit(b << 1) && b < b << 1
    ensures b == Rand(b << 1) || b == Xor(Rand(b << 1), 0x8000)
  {
  }

  lemma {:induction false} VanishesOnBit(b: Bits)
    requires OneBit(b)
    ensures Vanishes(b)
    decreases 0xFFFF - b as int
  {
    hide Rand, Xor, Vanishes;
    VanishesOnTop();
    if b != 0x8000 {
      NextBit(b);
      VanishesOnBit(b << 1);
      VanishesOn(b << 1, 0x8000);
      VanishesOn(Rand(b << 1), 0x8000);
    }
  }

  /** The bits of x up to b. */
  function Low(x: Bits, b: Bits): Bits {
    x & (b + (b - 1))
  }

  function And(x: Bits, b: Bits): Bits {
    x & b
  }

  lemma LowBits(x: Bits, b: Bits)
    requires OneBit(b)
    ensures And(x, b) == 0 || And(x, b) == b
    ensures Low(x, b) == Xor(if b == 1 then 0 else Low(x, Half(b)), And(x, b))
    ensures b != 1 ==> OneBit(Half(b)) && Half(b) < b
  {
  }

  lemma {:induction false} VanishesOnLow(x: Bits, b: Bits)
    requires OneBit(b)
    ensures Vanishes(Low(x, b))
    decreases b
  {
    hide Xor, Vanishes, OneBit, Low, And, Half;
    LowBits(x, b);
    VanishesOnBit(b);
    VanishesOnTop();
    VanishesOnZero();
    if b != 1 {
      VanishesOnLow(x, Half(b));
    }
    VanishesOn(if b == 1 then 0 else Low(x, Half(b)), And(x, b));
  }

  /** What holds of one bit holds of every register. */
  lemma VanishesEverywhere(x: Bits)
    requires Short(x)
    ensures Poly(TAPS, x) == 0
  {
    hide Poly;
    VanishesOnLow(x, 0x8000);
    AllBits(x);
  }

  lemma AllBits(x: Bits)
    requires Short(x)
    ensures Low(x, 0x8000) == x
  {
  }

  // ---------- Powers

  /** X times p, modulo the polynomial of the taps. */
  function Times(p: Bits): Bits {
    if p & 0x8000 == 0 then p << 1 else (p << 1) ^ TAPS
  }

  lemma TimesBits(p: Bits)
    requires Short(p)
    ensures !Odd(p << 1) && Half(p << 1) == p
  {
  }

  lemma TimesCases(p: Bits)
    ensures Times(p) == p << 1 || Times(p) == Xor(p << 1, TAPS)
  {
  }

  lemma TimesShort(p: Bits)
    requires Short(p)
    ensures Short(Times(p))
  {
    if p & 0x8000 == 0 {
      assert p < 0x8000;
    }
  }

  lemma TimesIs(p: Bits, x: Bits)
    requires Short(p) && Short(x)
    ensures Short(Times(p)) && Poly(Times(p), x) == Rand(Poly(p, x))
  {
    hide Rand, Poly, Xor, Half, Short, Odd;
    TimesBits(p);
    TimesShort(p);
    TimesCases(p);
    PolySplits(p << 1, x);
    PolyAdds(p, x, x);
    Zero(Poly(p, Rand(x)));
    PolyLinear(p << 1, TAPS, x);
    VanishesEverywhere(x);
  }

  /** The product of two polynomials, the first of degree less than 2n. */
  function Product(p: Bits, q: Bits, n: nat): Bits
    decreases n
  {
    if n == 0 then 0
    else Xor(Xor(Part(p, q), Part(p >> 1, Times(q))), Product(p >> 2, Times(Times(q)), n - 1))
  }

  lemma ProductSplits(p: Bits, q: Bits, n: nat)
    requires n > 0
    ensures Product(p, q, n)
         == Xor(Xor(Part(p, q), Part(Half(p), Times(q))), Product(Half(Half(p)), Times(Times(q)), n - 1))
  {
    hide Times, Part, Xor, Half;
    TwoHalves(p);
  }

  lemma NoProduct(p: Bits, q: Bits)
    ensures Product(p, q, 0) == 0
  {
  }

  /** X to the 2n as a number: the polynomials of degree less than 2n are less. */
  function Top(n: nat): Bits {
    if n == 0 then 1 else Top(n - 1) << 2
  }

  lemma HalvesBelow(p: Bits, n: nat)
    requires n > 0 && p < Top(n)
    ensures Half(Half(p)) < Top(n - 1)
  {
  }

  lemma SixteenBits()
    ensures Top(8) == 0x1_0000
  {
  }

  lemma PartPoly(p: Bits, q: Bits, x: Bits)
    ensures Poly(Part(p, q), x) == Part(p, Poly(q, x))
    ensures Short(q) ==> Short(Part(p, q))
  {
    hide Poly, Odd;
    NoPoly(x);
  }

  /** A product of polynomials is one after the other. */
  lemma {:induction false} ProductIs(p: Bits, q: Bits, x: Bits, n: nat)
    requires p < Top(n) && Short(q) && Short(x)
    ensures Short(Product(p, q, n)) && Poly(Product(p, q, n), x) == Poly(p, Poly(q, x))
    decreases n
  {
    hide Rand, Poly, Xor, Half, Short, Part, Times, Product;
    if n == 0 {
      assert Product(p, q, 0) == 0 by { NoProduct(p, q); }
      NoPoly(x);
      NoPoly(Poly(q, x));
      ShortZero();
    } else {
      HalvesBelow(p, n);
      ProductSplits(p, q, n);
      TimesIs(q, x);
      TimesIs(Times(q), x);
      var a, b := Part(p, q), Part(Half(p), Times(q));
      var c := Product(Half(Half(p)), Times(Times(q)), n - 1);
      ProductIs(Half(Half(p)), Times(Times(q)), x, n - 1);
      PartPoly(p, q, x);
      PartPoly(Half(p), Times(q), x);
      Shorter(a, b);
      Shorter(Xor(a, b), c);
      PolyLinear(a, b, x);
      PolyLinear(Xor(a, b), c, x);
      PolySplits(p, Poly(q, x));
      PolySplits(Half(p), Rand(Poly(q, x)));
      Assoc(Poly(a, x), Poly(b, x), Poly(c, x));
    }
  }

  lemma {:induction false} RandomsAdd(x: Bits, m: nat, n: nat)
    ensures Randoms(x, m + n) == Randoms(Randoms(x, m), n)
  {
    hide Rand;
    if n > 0 {
      RandomsAdd(x, m, n - 1);
    }
  }

  lemma {:induction false} RandomsShort(x: Bits, n: nat)
    requires Short(x)
    ensures Short(Randoms(x, n))
  {
    if n > 0 {
      RandomsShort(x, n - 1);
    }
  }

  /** The n-th value after any register is the sum that p says: p is X to the n. */
  ghost predicate Power(p: Bits, n: nat) {
    Short(p) && forall x: Bits | Short(x) :: Randoms(x, n) == Poly(p, x)
  }

  lemma FirstPower()
    ensures Power(2, 1)
  {
    hide Rand;
    forall x: Bits | Short(x) ensures Randoms(x, 1) == Poly(2, x) {
      PolySplits(2, x);
      NoPoly(Rand(x));
      Zero(Rand(x));
    }
  }

  lemma PowersMultiply(p: Bits, m: nat, q: Bits, n: nat, r: Bits)
    requires Power(p, m) && Power(q, n) && Product(p, q, 8) == r
    ensures Power(r, n + m)
  {
    hide Rand, Poly, Product, Top;
    SixteenBits();
    ProductIs(p, q, 0, 8);
    forall x: Bits | Short(x) ensures Randoms(x, n + m) == Poly(r, x) {
      RandomsAdd(x, n, m);
      RandomsShort(x, n);
      ProductIs(p, q, x, 8);
    }
  }

  // ---------- The period

  lemma PowersTo16()
    ensures Power(0x2, 1) && Power(0x4, 2) && Power(0x10, 4) && Power(0x100, 8) && Power(0x2D, 16)
  {
    hide Rand, Poly, Power;
    FirstPower();
    assert Product(0x2, 0x2, 8) == 0x4;
    PowersMultiply(0x2, 1, 0x2, 1, 0x4);
    assert Product(0x4, 0x4, 8) == 0x10;
    PowersMultiply(0x4, 2, 0x4, 2, 0x10);
    assert Product(0x10, 0x10, 8) == 0x100;
    PowersMultiply(0x10, 4, 0x10, 4, 0x100);
    assert Product(0x100, 0x100, 8) == 0x2D;
    PowersMultiply(0x100, 8, 0x100, 8, 0x2D);
  }

  lemma PowersTo256()
    ensures Power(0x451, 32) && Power(0x13D1, 64) && Power(0x7C98, 128) && Power(0x18A, 256)
  {
    hide Rand, Poly, Power;
    PowersTo16();
    assert Product(0x2D, 0x2D, 8) == 0x451;
    PowersMultiply(0x2D, 16, 0x2D, 16, 0x451);
    assert Product(0x451, 0x451, 8) == 0x13D1;
    PowersMultiply(0x451, 32, 0x451, 32, 0x13D1);
    assert Product(0x13D1, 0x13D1, 8) == 0x7C98;
    PowersMultiply(0x13D1, 64, 0x13D1, 64, 0x7C98);
    assert Product(0x7C98, 0x7C98, 8) == 0x18A;
    PowersMultiply(0x7C98, 128, 0x7C98, 128, 0x18A);
  }

  lemma PowersTo4096()
    ensures Power(0x4069, 512) && Power(0xC41B, 1024) && Power(0x92D0, 2048) && Power(0x3DAB, 4096)
  {
    hide Rand, Poly, Power;
    PowersTo256();
    assert Product(0x18A, 0x18A, 8) == 0x4069;
    PowersMultiply(0x18A, 256, 0x18A, 256, 0x4069);
    assert Product(0x4069, 0x4069, 8) == 0xC41B;
    PowersMultiply(0x4069, 512, 0x4069, 512, 0xC41B);
    assert Product(0xC41B, 0xC41B, 8) == 0x92D0;
    PowersMultiply(0xC41B, 1024, 0xC41B, 1024, 0x92D0);
    assert Product(0x92D0, 0x92D0, 8) == 0x3DAB;
    PowersMultiply(0x92D0, 2048, 0x92D0, 2048, 0x3DAB);
  }

  lemma PowersTo65536()
    ensures Power(0xD4F8, 8192) && Power(0xEBD5, 16384) && Power(0x7F8D, 32768) && Power(0x2, 65536)
  {
    hide Rand, Poly, Power;
    PowersTo4096();
    assert Product(0x3DAB, 0x3DAB, 8) == 0xD4F8;
    PowersMultiply(0x3DAB, 4096, 0x3DAB, 4096, 0xD4F8);
    assert Product(0xD4F8, 0xD4F8, 8) == 0xEBD5;
    PowersMultiply(0xD4F8, 8192, 0xD4F8, 8192, 0xEBD5);
    assert Product(0xEBD5, 0xEBD5, 8) == 0x7F8D;
    PowersMultiply(0xEBD5, 16384, 0xEBD5, 16384, 0x7F8D);
    assert Product(0x7F8D, 0x7F8D, 8) == 0x2;
    PowersMultiply(0x7F8D, 32768, 0x7F8D, 32768, 0x2);
  }

  lemma Power4369()
    ensures Power(0x3C0F, 4369)
  {
    hide Rand, Poly, Power;
    PowersTo16();
    PowersTo256();
    PowersTo4096();
    assert Product(0x2, 0x2D, 8) == 0x5A;
    PowersMultiply(0x2, 1, 0x2D, 16, 0x5A);
    assert Product(0x3DAB, 0x18A, 8) == 0xED74;
    PowersMultiply(0x3DAB, 4096, 0x18A, 256, 0xED74);
    assert Product(0xED74, 0x5A, 8) == 0x3C0F;
    PowersMultiply(0xED74, 4352, 0x5A, 17, 0x3C0F);
  }

  lemma PowersOver5And3()
    ensures Power(0x86FA, 13107) && Power(0xACCA, 21845)
  {
    hide Rand, Poly, Power;
    Power4369();
    assert Product(0x3C0F, 0x3C0F, 8) == 0x90C5;
    PowersMultiply(0x3C0F, 4369, 0x3C0F, 4369, 0x90C5);
    assert Product(0x90C5, 0x3C0F, 8) == 0x86FA;
    PowersMultiply(0x90C5, 8738, 0x3C0F, 4369, 0x86FA);
    assert Product(0x86FA, 0x90C5, 8) == 0xACCA;
    PowersMultiply(0x86FA, 13107, 0x90C5, 8738, 0xACCA);
  }

  lemma Power15()
    ensures Power(0x8000, 15)
  {
    hide Rand, Poly, Power;
    PowersTo16();
    assert Product(0x2, 0x4, 8) == 0x8;
    PowersMultiply(0x2, 1, 0x4, 2, 0x8);
    assert Product(0x8, 0x10, 8) == 0x80;
    PowersMultiply(0x8, 3, 0x10, 4, 0x80);
    assert Product(0x80, 0x100, 8) == 0x8000;
    PowersMultiply(0x80, 7, 0x100, 8, 0x8000);
  }

  lemma Power4111()
    ensures Power(0xC9FE, 4111)
  {
    hide Rand, Poly, Power;
    Power15();
    PowersTo4096();
    assert Product(0x8000, 0x3DAB, 8) == 0xC9FE;
    PowersMultiply(0x8000, 15, 0x3DAB, 4096, 0xC9FE);
  }

  lemma PolyValues()
    ensures Poly(0x18A, SEED) == 0x6419 && Poly(0xC9FE, SEED) == 0xCA1
    ensures Poly(0x86FA, SEED) == 0x2417 && Poly(0xACCA, SEED) == 0x57A8
  {
    PolyOfIs(0x18A, SEED, 8);
    PolyOfIs(0xC9FE, SEED, 8);
    PolyOfIs(0x86FA, SEED, 8);
    PolyOfIs(0xACCA, SEED, 8);
  }

  /** After n steps the register is back at the seed. */
  predicate Round(n: nat) {
    Randoms(SEED, n) == SEED
  }

  lemma NotRound(p: Bits, m: nat, q: Bits, n: nat)
    requires Power(p, m) && Power(q, m + n) && Poly(p, SEED) != Poly(q, SEED)
    ensures !Round(n)
  {
    hide Poly, Rand;
    RandomsAdd(SEED, n, m);
  }

  lemma Rounds()
    ensures Round(65535) && !Round(255) && !Round(3855) && !Round(13107) && !Round(21845)
  {
    hide Round, Poly, Rand, Power;
    ComesRound();
    PolyValues();
    SecondValue();
    ZerothPower();
    PowersTo16();
    PowersTo256();
    Power4111();
    PowersOver5And3();
    NotRound(0x2, 1, 0x18A, 255);
    NotRound(0x18A, 256, 0xC9FE, 3855);
    NotRound(0x1, 0, 0x86FA, 13107);
    NotRound(0x1, 0, 0xACCA, 21845);
  }

  lemma ZerothPower()
    ensures Power(1, 0) && Poly(1, SEED) == SEED
  {
    hide Rand;
    forall x: Bits | Short(x) ensures Randoms(x, 0) == Poly(1, x) {
      NoPoly(x);
    }
    NoPoly(SEED);
  }

  lemma SecondValue()
    ensures Poly(2, SEED) == 0x5670
  {
    PolyOfIs(2, SEED, 1);
  }

  lemma ComesRound()
    ensures Round(65535)
  {
    hide Rand, Poly;
    PowersTo65536();
    FirstPower();
    assert Randoms(SEED, 65536) == Randoms(SEED, 1);
    FirstRepeatIsSeed(1, 65536);
  }

  /** The recurrence of the taps: each value is the sum of those 16, 14, 13 and 11 before. */
  lemma Recurrence(x: bv32)
    requires x < 0x1_0000
    ensures Randoms(x, 16) == x ^ Randoms(x, 2) ^ Randoms(x, 3) ^ Randoms(x, 5)
  {
    hide Rand, Poly;
    PowersTo16();
    TapsSum(x);
  }

  lemma TapsSum(x: Bits)
    ensures Poly(0x2D, x) == Xor(x, Xor(Randoms(x, 2), Xor(Randoms(x, 3), Randoms(x, 5))))
  {
    hide Rand, Poly, Xor;
    PolySplits(0x2D, x);
    PolySplits(0x16, Randoms(x, 1));
    PolySplits(0xB, Randoms(x, 2));
    PolySplits(0x5, Randoms(x, 3));
    PolySplits(0x2, Randoms(x, 4));
    NoPoly(Randoms(x, 5));
    Zero(Randoms(x, 5));
    Zero(Xor(Randoms(x, 2), Xor(Randoms(x, 3), Randoms(x, 5))));
    assert Randoms(x, 1) == Rand(x);
  }

  // ---------- No smaller period

  lemma RoundLess(m: nat, n: nat)
    requires Round(m) && Round(n) && m <= n
    ensures Round(n - m)
  {
    if m < n {
      FirstRepeatIsSeed(m, n);
    }
  }

  lemma {:induction false} RoundTimes(m: nat, k: nat)
    requires Round(m)
    ensures Round(k * m)
  {
    hide Rand;
    if k > 0 {
      RoundTimes(m, k - 1);
      assert k * m == (k - 1) * m + m;
      RandomsAdd(SEED, (k - 1) * m, m);
    }
  }

  predicate Prime(p: nat) {
    p > 1 && forall d: nat | 1 < d < p :: p % d != 0
  }

  /** A round of r q-step strides and one of p such strides, p prime, make one of a single stride. */
  lemma {:induction false} OneStride(q: nat, p: nat, r: nat)
    requires Prime(p) && 0 < r < p && Round(p * q) && Round(r * q)
    ensures Round(q)
    decreases r
  {
    if r > 1 {
      hide Round;
      var k := p / r;
      RoundTimes(r * q, k);
      assert k * (r * q) == (p - p % r) * q;
      assert (p - p % r) * q <= p * q;
      RoundLess((p - p % r) * q, p * q);
      assert p * q - (p - p % r) * q == (p % r) * q;
      OneStride(q, p, p % r);
    }
  }

  /** If the round of p strides has none of a single stride, every round is of a multiple of p steps. */
  lemma Divides(p: nat, q: nat, n: nat)
    requires Prime(p) && p * q == 65535 && Round(65535) && !Round(q) && Round(n)
    ensures n % p == 0
  {
    hide Round, Prime;
    var r, k := n % p, n / p;
    assert q * n == k * 65535 + r * q;
    RoundTimes(n, q);
    RoundTimes(65535, k);
    RoundLess(k * 65535, q * n);
    if r != 0 {
      OneStride(q, p, r);
    }
  }

  lemma Primes()
    ensures Prime(3) && Prime(5) && Prime(17) && Prime(257)
  {
    forall d: nat | 1 < d < 257 ensures 257 % d != 0 {
      var e := 257 / d;
      if 257 % d == 0 {
        if d <= 16 { NoFactor(d, e); } else { NoFactor(e, d); }
      }
    }
  }

  lemma NoFactor(d: nat, e: nat)
    requires 1 < d <= 16 && 1 < e
    ensures d * e != 257
  {
  }

  lemma AllDivide(n: nat)
    requires n % 3 == 0 && n % 5 == 0 && n % 17 == 0 && n % 257 == 0
    ensures n % 65535 == 0
  {
    var a3, a5 := n / 3, n / 5;
    MultipleOf15(a3, a5);
    var a15, a17 := n / 15, n / 17;
    MultipleOf255(a15, a17);
    var a255, a257 := n / 255, n / 257;
    MultipleOf65535(a255, a257);
  }

  lemma MultipleOf15(a: nat, b: nat)
    requires 3 * a == 5 * b
    ensures 3 * a % 15 == 0
  {
    assert 3 * a == 15 * (2 * b - a);
  }

  lemma MultipleOf255(a: nat, b: nat)
    requires 15 * a == 17 * b
    ensures 15 * a % 255 == 0
  {
    assert 15 * a == 255 * (8 * b - 7 * a);
  }

  lemma MultipleOf65535(a: nat, b: nat)
    requires 255 * a == 257 * b
    ensures 255 * a % 65535 == 0
  {
    assert 255 * a == 65535 * (128 * b - 127 * a);
  }

  /** The register is back at the seed after 65535 steps and their multiples, and never else. */
  lemma FullPeriod(n: nat)
    ensures Round(n) <==> n % 65535 == 0
  {
    hide Round, Prime;
    Rounds();
    Primes();
    if Round(n) {
      Divides(3, 21845, n);
      Divides(5, 13107, n);
      Divides(17, 3855, n);
      Divides(257, 255, n);
      AllDivide(n);
    }
    if n % 65535 == 0 {
      RoundTimes(65535, n / 65535);
    }
  }

  // ---------- Every number comes

  function Number(x: bv32): int {
    x as int
  }

  function Register(n: int): bv32
    requires 0 <= n < 0x1_0000_0000
  {
    n as bv32
  }

  lemma SameRegister(x: bv32)
    ensures 0 <= Number(x) < 0x1_0000_0000 && Register(Number(x)) == x
  {
  }

  lemma SmallNumber(x: bv32)
    requires 0 < x < 0x1_0000
    ensures 0 < Number(x) < 0x1_0000
  {
  }

  lemma SameNumber(x: bv32, y: bv32)
    requires Number(x) == Number(y)
    ensures x == y
  {
    hide Number, Register;
    SameRegister(x);
    SameRegister(y);
  }

  /** The n values from the m-th on. */
  ghost function Values(m: nat, n: nat): set<int> {
    if n == 0 then {} else Values(m, n - 1) + {Number(Randoms(SEED, m + n - 1))}
  }

  lemma Distinct(m: nat, n: nat)
    requires m < n < m + 65535
    ensures Randoms(SEED, m) != Randoms(SEED, n)
  {
    hide Rand;
    if Randoms(SEED, m) == Randoms(SEED, n) {
      FirstRepeatIsSeed(m, n);
      FullPeriod(n - m);
    }
  }

  lemma {:induction false} HasValue(m: nat, n: nat, v: int) returns (j: nat)
    requires v in Values(m, n)
    ensures m <= j < m + n && Number(Randoms(SEED, j)) == v
  {
    if v in Values(m, n - 1) {
      j := HasValue(m, n - 1, v);
    } else {
      j := m + n - 1;
    }
  }

  lemma NewValue(m: nat, n: nat)
    requires 0 < n <= 65535
    ensures Number(Randoms(SEED, m + n - 1)) !in Values(m, n - 1)
  {
    hide Rand, Number, Randoms;
    var v := Number(Randoms(SEED, m + n - 1));
    if v in Values(m, n - 1) {
      var j := HasValue(m, n - 1, v);
      SameNumber(Randoms(SEED, j), Randoms(SEED, m + n - 1));
      Distinct(j, m + n - 1);
    }
  }

  lemma {:induction false} ManyValues(m: nat, n: nat)
    requires n <= 65535
    ensures |Values(m, n)| == n && forall v | v in Values(m, n) :: 0 < v < 0x1_0000
  {
    hide Rand, Number, Randoms;
    if n > 0 {
      ManyValues(m, n - 1);
      RandomsAlive(m + n - 1);
      SmallNumber(Randoms(SEED, m + n - 1));
      NewValue(m, n);
    }
  }

  /** In each round of 65535 values every number from 1 to 65535 comes up exactly once. */
  lemma EveryNumberOnce(x: bv32) returns (n: nat)
    requires 0 < x < 0x1_0000
    ensures n < 65535 && Randoms(SEED, n) == x
    ensures forall m: nat | Randoms(SEED, m) == x :: m % 65535 == n
  {
    hide Rand, Number, Randoms;
    ManyValues(0, 65535);
    AllSeen(Values(0, 65535));
    SmallNumber(x);
    n := HasValue(0, 65535, Number(x));
    SameNumber(x, Randoms(SEED, n));
    forall m: nat | Randoms(SEED, m) == x ensures m % 65535 == n {
      OnlyOnce(m, n);
    }
  }

  lemma AllSeen(seen: set<int>)
    requires |seen| == 65535 && forall v | v in seen :: 0 < v < 0x1_0000
    ensures forall v: int | 0 < v < 0x1_0000 :: v in seen
  {
    hide Between;
    var all := Between(1, 0x1_0000);
    Fills(seen, all);
  }

  lemma Fills(s: set<int>, t: set<int>)
    requires s <= t && |s| == |t|
    ensures s == t
  {
    assert |t - s| == |t| - |s|;
    assert t == s + (t - s);
  }

  lemma OnlyOnce(m: nat, n: nat)
    requires n < 65535 && Randoms(SEED, m) == Randoms(SEED, n)
    ensures m % 65535 == n
  {
    hide Rand;
    if m < n {
      Distinct(m, n);
    } else if n < m {
      FirstRepeatIsSeed(n, m);
      FullPeriod(m - n);
      SameRest(m, n);
    }
  }

  lemma SameRest(m: nat, n: nat)
    requires n <= m && n < 65535 && (m - n) % 65535 == 0
    ensures m % 65535 == n
  {
  }

  // ---------- Who wins in a round

  /** How many of n draws process k wins, if the table stays as it is and m values have been drawn before. */
  ghost function WinCount(table: seq<Entry>, k: nat, m: nat, n: nat): nat
    requires Lottery.Sum(table, |table|) > 0
  {
    if n == 0 then 0
    else
      WinCount(table, k, m, n - 1)
      + (if Wins(table, Number(Randoms(SEED, m + n)) % Lottery.Sum(table, |table|), k) then 1 else 0)
  }

  /** The numbers of s with a remainder by t from lo to hi - 1. */
  ghost function WithRest(s: set<int>, t: int, lo: int, hi: int): set<int>
    requires t > 0
  {
    set v | v in s && lo <= v % t < hi
  }

  lemma {:induction false} WinsCounted(table: seq<Entry>, k: nat, m: nat, n: nat, lo: int, hi: int)
    requires Lottery.Sum(table, |table|) > 0 && n <= 65535
    requires lo <= hi && Draws(table, k) == Between(lo, hi)
    ensures WinCount(table, k, m, n) == |WithRest(Values(m + 1, n), Lottery.Sum(table, |table|), lo, hi)|
  {
    hide Rand, Number, Randoms, Wins, Lottery.Sum, Between;
    if n > 0 {
      WinsCounted(table, k, m, n - 1, lo, hi);
      var t := Lottery.Sum(table, |table|);
      var v := Number(Randoms(SEED, m + n));
      NewValue(m + 1, n);
      WinnerIn(table, k, lo, hi, v % t);
      OneMoreRest(Values(m + 1, n - 1), v, t, lo, hi);
    }
  }

  lemma WinnerIn(table: seq<Entry>, k: nat, lo: int, hi: int, w: int)
    requires lo <= hi && Draws(table, k) == Between(lo, hi) && 0 <= w < Lottery.Sum(table, |table|)
    ensures Wins(table, w, k) <==> lo <= w < hi
  {
    hide Wins;
    assert w in Draws(table, k) <==> w in Between(lo, hi);
  }

  lemma OneMoreRest(s: set<int>, v: int, t: int, lo: int, hi: int)
    requires t > 0 && v !in s
    ensures |WithRest(s + {v}, t, lo, hi)| == |WithRest(s, t, lo, hi)| + (if lo <= Rem(v, t) < hi then 1 else 0)
  {
    if lo <= v % t < hi {
      assert WithRest(s + {v}, t, lo, hi) == WithRest(s, t, lo, hi) + {v};
    } else {
      assert WithRest(s + {v}, t, lo, hi) == WithRest(s, t, lo, hi);
    }
  }

  /** How many of the numbers 1 to r lie from lo to hi - 1. */
  function Last(r: int, lo: int, hi: int): nat {
    var first, last := if lo > 1 then lo else 1, if hi - 1 < r then hi - 1 else r;
    if first <= last then last - first + 1 else 0
  }

  lemma LastGrows(r: nat, t: int, lo: int, hi: int)
    requires 0 <= lo <= hi <= t && r < t
    ensures Last(0, lo, hi) == 0 && Last(r, lo, hi) <= hi - lo
    ensures if r + 1 < t then Last(r + 1, lo, hi) == Last(r, lo, hi) + (if lo <= r + 1 < hi then 1 else 0)
            else hi - lo == Last(r, lo, hi) + (if lo <= 0 < hi then 1 else 0)
  {
  }

  function Quot(n: int, t: int): int
    requires t > 0
  {
    n / t
  }

  function Rem(n: int, t: int): int
    requires t > 0
  {
    n % t
  }

  /** Whole rounds of the remainders, q of them, and those of the last round so far. */
  function Counted(q: int, r: int, lo: int, hi: int): int {
    q * (hi - lo) + Last(r, lo, hi)
  }

  lemma CountedGrows(q: nat, r: nat, t: int, lo: int, hi: int)
    requires 0 <= lo <= hi <= t && r < t
    ensures Counted(0, 0, lo, hi) == 0
    ensures if r + 1 < t then Counted(q, r + 1, lo, hi) == Counted(q, r, lo, hi) + (if lo <= r + 1 < hi then 1 else 0)
            else Counted(q + 1, 0, lo, hi) == Counted(q, r, lo, hi) + (if lo <= 0 < hi then 1 else 0)
  {
    hide Last;
    LastGrows(r, t, lo, hi);
    LastGrows(0, t, lo, hi);
    assert (q + 1) * (hi - lo) == q * (hi - lo) + (hi - lo);
  }

  lemma {:induction false} RestsCounted(n: nat, t: int, lo: int, hi: int)
    requires 0 <= lo <= hi <= t && t > 0
    ensures |WithRest(Between(1, n + 1), t, lo, hi)| == Counted(Quot(n, t), Rem(n, t), lo, hi)
  {
    hide WithRest, Counted, Quot, Rem, Between;
    NextRest(n, t);
    if n == 0 {
      NoRests(t, lo, hi);
      CountedGrows(0, 0, t, lo, hi);
    } else {
      RestsCounted(n - 1, t, lo, hi);
      NextBetween(n);
      OneMoreRest(Between(1, n), n, t, lo, hi);
      NextRest(n - 1, t);
      CountedGrows(Quot(n - 1, t), Rem(n - 1, t), t, lo, hi);
    }
  }

  lemma NextBetween(n: nat)
    requires n > 0
    ensures Between(1, n + 1) == Between(1, n) + {n} && n !in Between(1, n)
  {
  }

  lemma NoRests(t: int, lo: int, hi: int)
    requires t > 0
    ensures WithRest(Between(1, 1), t, lo, hi) == {}
  {
  }

  lemma NextRest(n: nat, t: int)
    requires t > 0
    ensures Quot(n, t) >= 0 && 0 <= Rem(n, t) < t && Quot(0, t) == Rem(0, t) == 0
    ensures Quot(n + 1, t) == Quot(n, t) + (if Rem(n, t) + 1 == t then 1 else 0)
    ensures Rem(n + 1, t) == if Rem(n, t) + 1 == t then 0 else Rem(n, t) + 1
  {
    var q, r := n / t, n % t;
    var q', r' := (n + 1) / t, (n + 1) % t;
    assert n == t * q + r && n + 1 == t * q' + r';
    OneMore(t, q', q);
    OneMore(t, q + 1, q');
    assert q' == q || q' == q + 1;
    assert t * (q + 1) == t * q + t;
  }

  /** In any 65535 draws in a row a process that is RUNNABLE all the time wins, for each of the numbers that it can win
      with, as many as there are whole rounds of the tickets in it, or one more. */
  lemma RoundShares(table: seq<Entry>, k: nat, m: nat)
    requires Ticketed(table) && k < |table| && table[k].runnable
    ensures var t, s := Lottery.Sum(table, |table|), |Draws(table, k)|;
            t > 0 && 65535 / t * s <= WinCount(table, k, m, 65535) <= 65535 / t * s + s
  {
    hide Lottery.Sum, Between, WinCount, Values, WithRest;
    SumPositive(table, k);
    var lo, hi := DrawsBetween(table, k);
    WinsCounted(table, k, m, 65535, lo, hi);
    ManyValues(m + 1, 65535);
    Fills(Values(m + 1, 65535), Between(1, 65536));
    RestsBounded(65535, Lottery.Sum(table, |table|), lo, hi);
  }

  lemma RestsBounded(n: nat, t: int, lo: int, hi: int)
    requires 0 <= lo <= hi <= t && t > 0
    ensures n / t * (hi - lo) <= |WithRest(Between(1, n + 1), t, lo, hi)| <= n / t * (hi - lo) + (hi - lo)
  {
    hide WithRest, Between, Last;
    RestsCounted(n, t, lo, hi);
    LastGrows(n % t, t, lo, hi);
  }

  lemma SumPositive(table: seq<Entry>, k: nat)
    requires Ticketed(table) && k < |table| && table[k].runnable
    ensures Lottery.Sum(table, |table|) > 0
  {
    SumMonotone(table, 0, k);
    SumMonotone(table, k + 1, |table|);
  }
}
