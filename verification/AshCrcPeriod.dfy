/** How far apart two flipped bits must be to cancel in the CRC: a power of x is one modulo
    x^16 + x^12 + x^5 + 1 exactly if it is a multiple of 32767.  Powers too high to reach
    one turn at a time are reached by multiplication. */
module AshCrcPeriod {
  import opened AshCrc
  import opened AshCrcWord

  const PERIOD: nat := 32767

  function Unit(): Register {
    Zeros(15) + [true]
  }

  /** x^n modulo the polynomial. */
  function Power(n: nat): Register {
    Turns(Unit(), n)
  }

  // ----- Turning is linear and can be undone.

  lemma {:induction false} TurnLinear(r: Register, s: Register)
    ensures Turn(Xor(r, s)) == Xor(Turn(r), Turn(s))
  {
  }

  lemma {:induction false} TurnsLinear(r: Register, s: Register, n: nat)
    ensures Turns(Xor(r, s), n) == Xor(Turns(r, n), Turns(s, n))
    decreases n
  {
    if n > 0 {
      TurnLinear(r, s);
      TurnsLinear(Turn(r), Turn(s), n - 1);
    }
  }

  lemma {:induction false} TurnsAdd(r: Register, m: nat, n: nat)
    ensures Turns(r, m + n) == Turns(Turns(r, m), n)
    decreases m
  {
    if m > 0 {
      TurnsAdd(Turn(r), m - 1, n);
    }
  }

  lemma {:induction false} XorZero(r: Register, s: Register)
    ensures Xor(r, s) == Zeros(16) <==> r == s
  {
    if Xor(r, s) == Zeros(16) {
      forall i | 0 <= i < 16 ensures r[i] == s[i] {
        assert !Xor(r, s)[i];
      }
    }
  }

  lemma {:induction false} TurnsApart(r: Register, s: Register, n: nat)
    ensures Turns(r, n) == Turns(s, n) <==> r == s
  {
    TurnsLinear(r, s, n);
    XorZero(r, s);
    XorZero(Turns(r, n), Turns(s, n));
    TurnsInjective(Xor(r, s), n);
  }

  lemma {:induction false} XorZeros(r: Register)
    ensures Xor(r, Zeros(16)) == r
  {
  }

  // ----- Multiplication.

  /** The polynomial with these coefficients, highest first, times r. */
  function Times(bits: seq<bool>, r: Register): Register {
    if bits == [] then Zeros(16)
    else
      var n := |bits| - 1;
      Xor(Turn(Times(bits[..n], r)), if bits[n] then r else Zeros(16))
  }

  lemma {:induction false} TurnsZero(n: nat)
    ensures Turns(Zeros(16), n) == Zeros(16)
  {
    TurnsInjective(Zeros(16), n);
  }

  lemma {:induction false} TimesTurned(bits: seq<bool>, r: Register, n: nat)
    ensures Turns(Times(bits, r), n) == Times(bits, Turns(r, n))
  {
    TurnsZero(n);
    if bits != [] {
      var k := |bits| - 1;
      var lower := Times(bits[..k], r);
      TimesTurned(bits[..k], r, n);
      TurnsLinear(Turn(lower), if bits[k] then r else Zeros(16), n);
      TurnsAdd(lower, 1, n);
      TurnsAdd(lower, n, 1);
      assert Turns(lower, 1) == Turn(lower) && Turns(Turns(lower, n), 1) == Turn(Turns(lower, n));
    }
  }

  lemma {:induction false} TimesUnit(bits: seq<bool>)
    requires |bits| <= 16
    ensures Times(bits, Unit()) == Zeros(16 - |bits|) + bits
  {
    if bits == [] {
      assert Zeros(16) + bits == Zeros(16);
    } else {
      var k := |bits| - 1;
      TimesUnit(bits[..k]);
      var lower := Zeros(16 - k) + bits[..k];
      assert !lower[0];
      assert Turn(lower) == Zeros(15 - k) + bits[..k] + [false];
      assert bits == bits[..k] + [bits[k]];
    }
  }

  /** Multiplying powers adds exponents. */
  lemma {:induction false} PowerTimes(m: nat, n: nat)
    ensures Power(m + n) == Times(Power(m), Power(n))
  {
    TimesUnit(Power(m));
    assert Zeros(0) + Power(m) == Power(m);
    TimesTurned(Power(m), Unit(), n);
    TurnsAdd(Unit(), m, n);
  }

  // ----- Particular powers.

  ghost predicate PowerIs(n: nat, w: Word) {
    Power(n) == Bits(w)
  }

  lemma {:induction false} SteppedTimes(bits: seq<bool>, w: Word, bit: bool, v: Word)
    requires Bits(w) == Times(bits, Bits(v))
    ensures Bits(if bit then Sum(TurnedWord(w), v) else TurnedWord(w)) == Times(bits + [bit], Bits(v))
  {
    hide Bits, Turn, Xor, Sum, TurnedWord;
    assert (bits + [bit])[..|bits|] == bits;
    BitsTurned(w);
    BitsSum(TurnedWord(w), v);
    XorZeros(Turn(Bits(w)));
  }

  lemma {:induction false} MulTimes(bits: seq<bool>, u: Word, n: nat, v: Word, w: Word)
    requires Bits(w) == Times(bits, Bits(v))
    ensures Bits(Mul(u, n, v, w)) == Times(bits + Top(u, n), Bits(v))
    decreases n
  {
    hide Bits, Times, High, Shifted, Sum, TurnedWord;
    if n == 0 {
      assert bits + Top(u, 0) == bits;
    } else {
      SteppedTimes(bits, w, High(u), v);
      MulTimes(bits + [High(u)], Shifted(u), n - 1, v, if High(u) then Sum(TurnedWord(w), v) else TurnedWord(w));
      assert bits + [High(u)] + Top(Shifted(u), n - 1) == bits + Top(u, n);
    }
  }

  lemma {:induction false} QuarterTimes(bits: seq<bool>, u: Word, v: Word, w: Word, w': Word, u': Word)
    requires Bits(w) == Times(bits, Bits(v)) && Quarter(u, v, w, w', u')
    ensures Bits(w') == Times(bits + Top(u, 4), Bits(v)) && Shifts(u, 4) == u'
  {
    hide Bits, Times, Top, Mul, Shifts;
    MulTimes(bits, u, 4, v, w);
  }

  lemma {:induction false} BitsInQuarters(u: Word, u1: Word, u2: Word, u3: Word)
    requires u1 == Shifts(u, 4) && u2 == Shifts(u1, 4) && u3 == Shifts(u2, 4)
    ensures Bits(u) == ((Top(u, 4) + Top(u1, 4)) + Top(u2, 4)) + Top(u3, 4)
  {
    hide Top, Shifts;
    TopSplit(u, 4, 12);
    TopSplit(u1, 4, 8);
    TopSplit(u2, 4, 4);
  }

  /** One multiplication carried out, four bits at a time. */
  lemma {:induction false} Multiplied(m: nat, u: Word, n: nat, v: Word, w1: Word, u1: Word,
                                      w2: Word, u2: Word, w3: Word, u3: Word, r: Word)
    requires PowerIs(m, u) && PowerIs(n, v)
    requires Product(u, v, w1, u1, w2, u2, w3, u3, r)
    ensures PowerIs(m + n, r)
  {
    hide Bits, Quarter, Top, Shifts, Power, Turn, Xor;
    BitsOfZero();
    QuarterTimes([], u, v, 0, w1, u1);
    assert [] + Top(u, 4) == Top(u, 4);
    QuarterTimes(Top(u, 4), u1, v, w1, w2, u2);
    QuarterTimes(Top(u, 4) + Top(u1, 4), u2, v, w2, w3, u3);
    QuarterTimes(Top(u, 4) + Top(u1, 4) + Top(u2, 4), u3, v, w3, r, 0);
    BitsInQuarters(u, u1, u2, u3);
    PowerTimes(m, n);
  }

  lemma {:induction false} PowerTurned(n: nat, w: Word)
    requires PowerIs(n, w)
    ensures PowerIs(n + 1, TurnedWord(w))
  {
    hide Bits, TurnedWord, Turn;
    BitsTurned(w);
    TurnsAdd(Unit(), n, 1);
    assert Turns(Power(n), 1) == Turns(Turn(Power(n)), 0);
  }

  lemma {:induction false} Power1()
    ensures PowerIs(1, 2)
  {
    hide Top, Turn;
    BitsOfOne();
    BitsTurned(1);
  }

  lemma {:induction false} ProductsTo4()
    ensures Product(0x0002, 0x0002, 0x0000, 0x0020, 0x0000, 0x0200, 0x0000, 0x2000, 0x0004)
    ensures Product(0x0004, 0x0004, 0x0000, 0x0040, 0x0000, 0x0400, 0x0000, 0x4000, 0x0010)
  {
  }

  lemma {:induction false} ProductsTo16()
    ensures Product(0x0010, 0x0010, 0x0000, 0x0100, 0x0000, 0x1000, 0x0010, 0x0000, 0x0100)
    ensures Product(0x0100, 0x0100, 0x0000, 0x1000, 0x0100, 0x0000, 0x1000, 0x0000, 0x1021)
  {
  }

  lemma {:induction false} ProductsTo64()
    ensures Product(0x1021, 0x1021, 0x1021, 0x0210, 0x1231, 0x2100, 0x1373, 0x1000, 0x3730)
    ensures Product(0x3730, 0x3730, 0x5950, 0x7300, 0x4035, 0x3000, 0x1a84, 0x0000, 0xb861)
  {
  }

  lemma {:induction false} ProductsTo256()
    ensures Product(0xb861, 0xb861, 0x4b2f, 0x8610, 0x61d9, 0x6100, 0xdc73, 0x1000, 0xaefc)
    ensures Product(0xaefc, 0xaefc, 0x6a9c, 0xefc0, 0x3828, 0xfc00, 0xed31, 0xc000, 0x8e29)
  {
  }

  lemma {:induction false} ProductsTo1024()
    ensures Product(0x8e29, 0x8e29, 0x31cc, 0xe290, 0x09fa, 0x2900, 0x93d3, 0x9000, 0x13fc)
    ensures Product(0x13fc, 0x13fc, 0x13fc, 0x3fc0, 0x1be5, 0xfc00, 0x4a65, 0xc000, 0x36c4)
  {
  }

  lemma {:induction false} ProductsTo4096()
    ensures Product(0x36c4, 0x36c4, 0x5b4c, 0x6c40, 0x52fd, 0xc400, 0x0264, 0x4000, 0xfd50)
    ensures Product(0xfd50, 0xfd50, 0x4895, 0xd500, 0x6bc0, 0x5000, 0xe4b5, 0x0000, 0xaa9e)
  {
  }

  lemma {:induction false} ProductsTo16384()
    ensures Product(0xaa9e, 0xaa9e, 0x4148, 0xa9e0, 0x154c, 0x9e00, 0xea2a, 0xe000, 0x881c)
    ensures Product(0x881c, 0x881c, 0x0064, 0x81c0, 0x0624, 0x1c00, 0xea5c, 0xc000, 0x4458)
  {
  }

  lemma {:induction false} ProductsTo192()
    ensures Product(0x4458, 0x4458, 0x0141, 0x4580, 0x1551, 0x5800, 0x0028, 0x8000, 0x0002)
    ensures Product(0xaefc, 0xb861, 0xf34e, 0xefc0, 0xf787, 0xfc00, 0x0376, 0xc000, 0x650b)
  {
  }

  lemma {:induction false} ProductsTo216()
    ensures Product(0x650b, 0x1021, 0x60c6, 0x50b0, 0x3c03, 0x0b00, 0xf053, 0xb000, 0x45b4)
    ensures Product(0x45b4, 0x0100, 0x0400, 0x5b40, 0x4500, 0xb400, 0x1b84, 0x4000, 0xac61)
  {
  }

  lemma {:induction false} ProductsTo4608()
    ensures Product(0x36c4, 0x3730, 0x5950, 0x6c40, 0x7705, 0xc400, 0x75d6, 0x4000, 0xf147)
    ensures Product(0xaa9e, 0x13fc, 0xb818, 0xa9e0, 0x88f3, 0x9e00, 0x8224, 0xe000, 0x54a0)
  {
  }

  lemma {:induction false} ProductsTo4680()
    ensures Product(0x54a0, 0xb861, 0x79a7, 0x4a00, 0x2b51, 0xa000, 0x661c, 0x0000, 0x0106)
    ensures Product(0x0106, 0x0100, 0x0000, 0x1060, 0x0100, 0x0600, 0x1000, 0x6000, 0x1621)
  {
  }

  lemma {:induction false} LowPowers()
    ensures PowerIs(8, 0x0100) && PowerIs(16, 0x1021) && PowerIs(32, 0x3730)
    ensures PowerIs(64, 0xb861) && PowerIs(128, 0xaefc)
  {
    hide PowerIs, Product;
    Power1();
    ProductsTo4();
    ProductsTo16();
    ProductsTo64();
    ProductsTo256();
    Multiplied(1, 0x0002, 1, 0x0002, 0x0000, 0x0020, 0x0000, 0x0200, 0x0000, 0x2000, 0x0004);
    Multiplied(2, 0x0004, 2, 0x0004, 0x0000, 0x0040, 0x0000, 0x0400, 0x0000, 0x4000, 0x0010);
    Multiplied(4, 0x0010, 4, 0x0010, 0x0000, 0x0100, 0x0000, 0x1000, 0x0010, 0x0000, 0x0100);
    Multiplied(8, 0x0100, 8, 0x0100, 0x0000, 0x1000, 0x0100, 0x0000, 0x1000, 0x0000, 0x1021);
    Multiplied(16, 0x1021, 16, 0x1021, 0x1021, 0x0210, 0x1231, 0x2100, 0x1373, 0x1000, 0x3730);
    Multiplied(32, 0x3730, 32, 0x3730, 0x5950, 0x7300, 0x4035, 0x3000, 0x1a84, 0x0000, 0xb861);
    Multiplied(64, 0xb861, 64, 0xb861, 0x4b2f, 0x8610, 0x61d9, 0x6100, 0xdc73, 0x1000, 0xaefc);
  }

  lemma {:induction false} HighPowers()
    ensures PowerIs(512, 0x13fc) && PowerIs(1024, 0x36c4) && PowerIs(4096, 0xaa9e) && PowerIs(32768, 0x0002)
  {
    hide PowerIs, Product;
    LowPowers();
    ProductsTo256();
    ProductsTo1024();
    ProductsTo4096();
    ProductsTo16384();
    ProductsTo192();
    Multiplied(128, 0xaefc, 128, 0xaefc, 0x6a9c, 0xefc0, 0x3828, 0xfc00, 0xed31, 0xc000, 0x8e29);
    Multiplied(256, 0x8e29, 256, 0x8e29, 0x31cc, 0xe290, 0x09fa, 0x2900, 0x93d3, 0x9000, 0x13fc);
    Multiplied(512, 0x13fc, 512, 0x13fc, 0x13fc, 0x3fc0, 0x1be5, 0xfc00, 0x4a65, 0xc000, 0x36c4);
    Multiplied(1024, 0x36c4, 1024, 0x36c4, 0x5b4c, 0x6c40, 0x52fd, 0xc400, 0x0264, 0x4000, 0xfd50);
    Multiplied(2048, 0xfd50, 2048, 0xfd50, 0x4895, 0xd500, 0x6bc0, 0x5000, 0xe4b5, 0x0000, 0xaa9e);
    Multiplied(4096, 0xaa9e, 4096, 0xaa9e, 0x4148, 0xa9e0, 0x154c, 0x9e00, 0xea2a, 0xe000, 0x881c);
    Multiplied(8192, 0x881c, 8192, 0x881c, 0x0064, 0x81c0, 0x0624, 0x1c00, 0xea5c, 0xc000, 0x4458);
    Multiplied(16384, 0x4458, 16384, 0x4458, 0x0141, 0x4580, 0x1551, 0x5800, 0x0028, 0x8000, 0x0002);
  }

  lemma {:induction false} NotUnit(n: nat, w: Word, k: nat)
    requires PowerIs(n, w) && k < 15 && High(Shifts(w, k))
    ensures Power(n) != Unit()
  {
    hide High, Shifts, Power;
    TopSplit(w, k, 16 - k);
    assert Bits(w)[k] == Top(Shifts(w, k), 16 - k)[0];
  }

  lemma {:induction false} PowersBesideCofactors()
    ensures PowerIs(216, 0xac61) && PowerIs(1056, 0xf147) && PowerIs(4680, 0x1621)
  {
    hide PowerIs, Product;
    LowPowers();
    HighPowers();
    ProductsTo192();
    ProductsTo216();
    ProductsTo4608();
    ProductsTo4680();
    Multiplied(128, 0xaefc, 64, 0xb861, 0xf34e, 0xefc0, 0xf787, 0xfc00, 0x0376, 0xc000, 0x650b);
    Multiplied(192, 0x650b, 16, 0x1021, 0x60c6, 0x50b0, 0x3c03, 0x0b00, 0xf053, 0xb000, 0x45b4);
    Multiplied(208, 0x45b4, 8, 0x0100, 0x0400, 0x5b40, 0x4500, 0xb400, 0x1b84, 0x4000, 0xac61);
    Multiplied(1024, 0x36c4, 32, 0x3730, 0x5950, 0x6c40, 0x7705, 0xc400, 0x75d6, 0x4000, 0xf147);
    Multiplied(4096, 0xaa9e, 512, 0x13fc, 0xb818, 0xa9e0, 0x88f3, 0x9e00, 0x8224, 0xe000, 0x54a0);
    Multiplied(4608, 0x54a0, 64, 0xb861, 0x79a7, 0x4a00, 0x2b51, 0xa000, 0x661c, 0x0000, 0x0106);
    Multiplied(4672, 0x0106, 8, 0x0100, 0x0000, 0x1060, 0x0100, 0x0600, 0x1000, 0x6000, 0x1621);
  }

  /** 32767 is 7 * 31 * 151; at none of its largest proper divisors is the power one. */
  lemma {:induction false} NotAtCofactors()
    ensures Power(217) != Unit() && Power(1057) != Unit() && Power(4681) != Unit()
  {
    hide PowerIs, Power;
    PowersBesideCofactors();
    PowerTurned(216, 0xac61);
    PowerTurned(1056, 0xf147);
    PowerTurned(4680, 0x1621);
    NotUnit(217, 0x48e3, 1);
    NotUnit(1057, 0xf2af, 0);
    NotUnit(4681, 0x2c42, 2);
  }

  // ----- The period.

  lemma {:induction false} AtPeriod()
    ensures Power(PERIOD) == Unit()
  {
    hide Turn, Unit, Bits;
    Power1();
    HighPowers();
    TurnsAdd(Unit(), PERIOD, 1);
    TurnsApart(Power(PERIOD), Unit(), 1);
  }

  lemma {:induction false} Dropped(m: nat, n: nat)
    requires Power(m) == Unit()
    ensures Power(m + n) == Power(n)
  {
    TurnsAdd(Unit(), m, n);
  }

  lemma {:induction false} AtMultiples(n: nat, k: nat)
    requires Power(n) == Unit()
    ensures Power(n * k) == Unit()
    decreases k
  {
    if k == 0 {
      assert n * k == 0;
    } else {
      AtMultiples(n, k - 1);
      assert n * k == n + n * (k - 1);
      Dropped(n, n * (k - 1));
    }
  }

  lemma {:induction false} SmallFactor(g: nat, i: nat)
    requires 2 <= g <= 12
    ensures g * i != 151 && (g <= 5 ==> g * i != 7 && g * i != 31)
  {
    match g {
      case 2 =>
      case 3 =>
      case 4 =>
      case 5 =>
      case 6 =>
      case 7 =>
      case 8 =>
      case 9 =>
      case 10 =>
      case 11 =>
      case _ =>
    }
  }

  lemma {:induction false} ProductAtLeast(g: nat, i: nat, m: nat)
    requires g >= m && i >= m
    ensures g * i >= m * m
    decreases g + i
  {
    if g > m {
      ProductAtLeast(g - 1, i, m);
      assert g * i == (g - 1) * i + i;
    } else if i > m {
      ProductAtLeast(g, i - 1, m);
      assert g * i == g * (i - 1) + g;
    }
  }

  /** The factors of the period: no number but one and itself divides any of them. */
  lemma {:induction false} Prime(p: nat, g: nat, i: nat)
    requires p == 7 || p == 31 || p == 151
    requires g * i == p && g > 0 && i > 0
    ensures g == 1 || i == 1
  {
    var hi := if p == 151 then 13 else 6;
    if 1 < g < hi {
      SmallFactor(g, i);
    } else if 1 < i < hi {
      SmallFactor(i, g);
    } else if g > 1 && i > 1 {
      ProductAtLeast(g, i, hi);
    }
  }

  lemma {:induction false} Distributes(x: nat, y: nat, z: nat)
    ensures x * (y + z) == x * y + x * z
  {
  }

  lemma {:induction false} DroppedMultiple(c: nat, a: nat, b: nat)
    requires Power(c * a) == Unit() && Power(c * (a + b)) == Unit()
    ensures Power(c * b) == Unit()
  {
    hide Power, Unit;
    Distributes(c, a, b);
    Dropped(c * a, c * b);
  }

  /** Two multiples of c at which the power is one have a common divisor, itself a
      multiple of c, at which it is. */
  lemma {:induction false} CommonDivisor(c: nat, a: nat, b: nat) returns (g: nat, i: nat, j: nat)
    requires a > 0 && b > 0 && Power(c * a) == Unit() && Power(c * b) == Unit()
    ensures a == g * i && b == g * j && 0 < g && 0 < i && 0 < j && Power(c * g) == Unit()
    decreases a + b
  {
    hide Power, Unit;
    if a == b {
      g, i, j := a, 1, 1;
    } else if a < b {
      DroppedMultiple(c, a, b - a);
      g, i, j := CommonDivisor(c, a, b - a);
      Distributes(g, i, j);
      j := i + j;
    } else {
      DroppedMultiple(c, b, a - b);
      g, i, j := CommonDivisor(c, a - b, b);
      Distributes(g, i, j);
      i := i + j;
    }
  }

  lemma {:induction false} NoneShared(p: nat, g: nat, i: nat, j: nat)
    requires p == 7 || p == 31 || p == 151
    requires g * i == p && g * j < p && 0 < g && 0 < i && 0 < j
    ensures g == 1
  {
    Prime(p, g, i);
    ProductAtLeast(j, g, 1);
    assert g * j == g + g * (j - 1);
  }

  lemma SplitProduct(c: nat, p: nat, q: nat, r: nat)
    ensures (p * q + r) * c == c * p * q + c * r
  {
  }

  /** If the power is one at c * p but not at c, it is one only at multiples of p. */
  lemma {:induction false} DividedBy(c: nat, p: nat, n: nat)
    requires p == 7 || p == 31 || p == 151
    requires Power(c * p) == Unit() && Power(c) != Unit() && Power(n) == Unit()
    ensures n % p == 0
  {
    hide Power, Unit;
    var q, r := n / p, n % p;
    AtMultiples(n, c);
    AtMultiples(c * p, q);
    SplitProduct(c, p, q, r);
    Dropped(c * p * q, c * r);
    if r > 0 {
      var g, i, j := CommonDivisor(c, p, r);
      assert g == 1 ==> c * g == c;
      NoneShared(p, g, i, j);
    }
  }

  lemma Together(n: nat, a: nat, b: nat, c: nat)
    requires n == 7 * a == 31 * b == 151 * c
    ensures n % PERIOD == 0
  {
    assert n == PERIOD * (3 * a - 10 * b - 16 * c);
  }

  lemma {:induction false} OnlyAtMultiples(n: nat)
    requires Power(n) == Unit()
    ensures n % PERIOD == 0
  {
    hide Power, Unit;
    NotAtCofactors();
    AtPeriod();
    DividedBy(4681, 7, n);
    DividedBy(1057, 31, n);
    DividedBy(217, 151, n);
    Together(n, n / 7, n / 31, n / 151);
  }

  /** A power is one exactly at the multiples of 32767. */
  lemma {:induction false} PowerIsOne(n: nat)
    ensures Power(n) == Unit() <==> n % PERIOD == 0
  {
    hide Power, Unit;
    if Power(n) == Unit() {
      OnlyAtMultiples(n);
    } else if n % PERIOD == 0 {
      AtPeriod();
      AtMultiples(PERIOD, n / PERIOD);
    }
  }

  // ----- Two flipped bits.

  lemma {:induction false} LowPower(k: nat)
    requires k < 16
    ensures Power(k) == Zeros(15 - k) + [true] + Zeros(k)
  {
    if k > 0 {
      LowPower(k - 1);
      TurnsAdd(Unit(), k - 1, 1);
      assert Turns(Power(k - 1), 1) == Turn(Power(k - 1));
    } else {
      assert Unit() == Zeros(15) + [true] + Zeros(0);
    }
  }

  lemma {:induction false} FeedNothing(r: Register, n: nat)
    ensures Feed(r, Zeros(n)) == Turns(r, n)
    decreases n
  {
    if n > 0 {
      assert r[0 := r[0] != false] == r;
      assert Zeros(n)[1..] == Zeros(n - 1);
      FeedNothing(Turn(r), n - 1);
    }
  }

  lemma {:induction false} FeedOne(r: Register)
    ensures Feed(r, [true]) == Turn(Xor(r, Power(15)))
  {
    LowPower(15);
    assert r[0 := r[0] != true] == Xor(r, Power(15));
    assert Feed(FeedBit(r, true), [true][1..]) == FeedBit(r, true);
  }

  lemma {:induction false} XorSwap(r: Register, s: Register)
    ensures Xor(r, s) == Xor(s, r)
  {
  }

  /** A one, a gap and a one clear an empty register when the powers coincide. */
  lemma {:induction false} TwoOnes(gap: nat)
    ensures Feed(Zeros(16), [true] + Zeros(gap) + [true]) == Zeros(16) <==> (gap + 1) % PERIOD == 0
  {
    hide Turn, Xor, Unit, Feed;
    var r := Turns(Power(16), gap);
    FeedOne(Zeros(16));
    XorZeros(Power(15));
    assert Feed(Zeros(16), [true]) == Power(16) by {
      assert Xor(Zeros(16), Power(15)) == Power(15) by { XorSwap(Zeros(16), Power(15)); }
      TurnsAdd(Unit(), 15, 1);
      assert Turns(Power(15), 1) == Turn(Power(15));
    }
    FeedAppend(Zeros(16), [true], Zeros(gap));
    FeedNothing(Power(16), gap);
    FeedAppend(Zeros(16), [true] + Zeros(gap), [true]);
    FeedOne(r);
    TurnInjective(Xor(r, Power(15)));
    XorZero(r, Power(15));
    TurnsAdd(Unit(), 16, gap);
    TurnsAdd(Unit(), gap + 1, 15);
    TurnsApart(Power(gap + 1), Unit(), 15);
    PowerIsOne(gap + 1);
  }

  /** Two messages differ in the bits at i and j and in no others. */
  ghost predicate DifferAt(a: seq<bool>, b: seq<bool>, i: nat, j: nat) {
    |a| == |b| && i < j < |a| && forall k | 0 <= k < |a| :: a[k] != b[k] <==> k == i || k == j
  }

  /** Two flipped bits, in a message of any length, go unnoticed exactly if they are a
      multiple of 32767 apart. */
  lemma {:induction false} TwoErrors(r: Register, a: seq<bool>, b: seq<bool>, i: nat, j: nat)
    requires DifferAt(a, b, i, j)
    ensures Feed(r, a) == Feed(r, b) <==> (j - i) % PERIOD == 0
  {
    hide Feed;
    var d, ones := Xor(a, b), [true] + Zeros(j - i - 1) + [true];
    assert d == Zeros(i) + (ones + Zeros(|d| - j - 1));
    FeedLinear(r, r, a, b);
    assert Xor(r, r) == Zeros(16);
    XorZero(Feed(r, a), Feed(r, b));
    FeedAppend(Zeros(16), Zeros(i), ones + Zeros(|d| - j - 1));
    FeedZeros(Zeros(16), i);
    FeedAppend(Zeros(16), ones, Zeros(|d| - j - 1));
    FeedZeros(Feed(Zeros(16), ones), |d| - j - 1);
    TwoOnes(j - i - 1);
  }
}
