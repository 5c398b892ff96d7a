/** A CRC register held as a sixteen-bit number, as the code holds it. */
module AshCrcWord {
  import opened AshCrc

  type Word = bv16

  function Shifted(w: Word): Word {
    w << 1
  }

  function Sum(w: Word, v: Word): Word {
    w ^ v
  }

  predicate High(w: Word) {
    w & 0x8000 != 0
  }

  function TurnedWord(w: Word): Word {
    if High(w) then Sum(Shifted(w), 0x1021) else Shifted(w)
  }

  lemma SumHigh(w: Word, v: Word)
    ensures High(Sum(w, v)) == (High(w) != High(v))
  {
  }

  lemma SumShifted(w: Word, v: Word)
    ensures Shifted(Sum(w, v)) == Sum(Shifted(w), Shifted(v))
  {
  }

  function Shifts(w: Word, n: nat): Word
    decreases n
  {
    if n == 0 then w else Shifts(Shifted(w), n - 1)
  }

  lemma {:induction false} ShiftsAdd(w: Word, m: nat, n: nat)
    ensures Shifts(w, m + n) == Shifts(Shifts(w, m), n)
    decreases m
  {
    hide Shifted;
    if m > 0 {
      ShiftsAdd(Shifted(w), m - 1, n);
    }
  }

  lemma {:induction false} ShiftsOut(w: Word)
    ensures !High(Shifts(w, 16))
  {
    var v := Shifts(w, 8);
    ShiftsAdd(w, 8, 8);
    assert v == w << 8;
    assert Shifts(v, 8) == v << 8;
  }

  /** The top n bits of a word. */
  function Top(w: Word, n: nat): (r: seq<bool>)
    ensures |r| == n
    decreases n
  {
    if n == 0 then [] else [High(w)] + Top(Shifted(w), n - 1)
  }

  lemma {:induction false} TopSum(w: Word, v: Word, n: nat)
    ensures Top(Sum(w, v), n) == Xor(Top(w, n), Top(v, n))
    decreases n
  {
    hide High, Sum, Shifted;
    if n > 0 {
      SumHigh(w, v);
      SumShifted(w, v);
      TopSum(Shifted(w), Shifted(v), n - 1);
    }
  }

  lemma {:induction false} TopSplit(w: Word, m: nat, n: nat)
    ensures Top(w, m + n) == Top(w, m) + Top(Shifts(w, m), n)
    decreases m
  {
    hide High, Shifted;
    if m > 0 {
      TopSplit(Shifted(w), m - 1, n);
    }
  }

  function Bits(w: Word): Register {
    Top(w, 16)
  }

  lemma {:induction false} TopFirst(w: Word, n: nat)
    ensures Top(w, n + 1) == [High(w)] + Top(Shifted(w), n)
    ensures Shifts(w, n + 1) == Shifts(Shifted(w), n)
  {
    hide High, Shifted;
  }

  lemma {:induction false} BitsShifted(w: Word)
    ensures Bits(Shifted(w)) == Bits(w)[1..] + [false]
    ensures Bits(w)[0] == High(w)
  {
    hide Top, Shifts, High, Shifted;
    TopFirst(w, 15);
    ShiftsOut(w);
    TopSplit(Shifted(w), 15, 1);
    TopFirst(Shifts(Shifted(w), 15), 0);
  }

  lemma {:induction false} TopOfTaps()
    ensures Top(0x1021, 8) == [false, false, false, true, false, false, false, false]
  {
  }

  lemma {:induction false} RestOfTaps()
    ensures Top(0x2100, 8) == [false, false, true, false, false, false, false, true]
  {
  }

  lemma {:induction false} BitsOfTaps()
    ensures Bits(0x1021) == Taps()
  {
    assert Shifts(0x1021, 8) == 0x2100;
    hide Top, Shifts;
    TopSplit(0x1021, 8, 8);
    TopOfTaps();
    RestOfTaps();
  }

  lemma {:induction false} TopOfOne()
    ensures Top(0x0100, 8) == Zeros(7) + [true]
  {
  }

  lemma {:induction false} TopOfZero()
    ensures Top(0x0000, 8) == Zeros(8) == Top(0x0001, 8)
  {
  }

  lemma {:induction false} BitsOfOne()
    ensures Bits(1) == Zeros(15) + [true]
  {
    assert Shifts(1, 8) == 0x0100;
    hide Top, Shifts;
    TopSplit(1, 8, 8);
    TopOfZero();
    TopOfOne();
  }

  lemma {:induction false} BitsSum(w: Word, v: Word)
    ensures Bits(Sum(w, v)) == Xor(Bits(w), Bits(v))
  {
    hide Top, Sum;
    TopSum(w, v, 16);
  }

  lemma {:induction false} BitsTurned(w: Word)
    ensures Bits(TurnedWord(w)) == Turn(Bits(w))
  {
    hide Top, High, Shifted, Sum, Turn, Xor, Taps, Bits;
    TurnIs(Bits(w));
    BitsShifted(w);
    BitsOfTaps();
    BitsSum(Shifted(w), 0x1021);
  }

  /** What multiplying by the top n bits of u makes of w. */
  function Mul(u: Word, n: nat, v: Word, w: Word): Word
    decreases n
  {
    if n == 0 then w
    else Mul(Shifted(u), n - 1, v, if High(u) then Sum(TurnedWord(w), v) else TurnedWord(w))
  }

  /** A quarter of a multiplication carried out: the top four bits of u taken into w. */
  predicate Quarter(u: Word, v: Word, w: Word, w': Word, u': Word) {
    Mul(u, 4, v, w) == w' && Shifts(u, 4) == u'
  }

  /** A whole one, with what stands after each quarter. */
  predicate Product(u: Word, v: Word, w1: Word, u1: Word, w2: Word, u2: Word, w3: Word, u3: Word, r: Word) {
    Quarter(u, v, 0, w1, u1) && Quarter(u1, v, w1, w2, u2) && Quarter(u2, v, w2, w3, u3) && Quarter(u3, v, w3, r, 0)
  }

  lemma {:induction false} BitsOfZero()
    ensures Bits(0) == Zeros(16)
  {
    assert Shifts(0, 8) == 0;
    hide Top, Shifts;
    TopSplit(0, 8, 8);
    TopOfZero();
  }
}
