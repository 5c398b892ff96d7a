/** The whitening sequence of AshFrame: how long it is before it repeats. */
module AshWhitening {
  import opened AshFrame

  const PERIOD: nat := 255

  function Steps(k: Byte, n: nat): Byte
    decreases n
  {
    if n == 0 then k else Steps(Lfsr(k), n - 1)
  }

  lemma {:induction false} StepsAdd(k: Byte, m: nat, n: nat)
    ensures Steps(k, m + n) == Steps(Steps(k, m), n)
    decreases m
  {
    hide Lfsr;
    if m > 0 {
      StepsAdd(Lfsr(k), m - 1, n);
    }
  }

  lemma {:induction false} KeyIsSteps(i: nat)
    ensures Key(i) == Steps(SEED, i)
    decreases i
  {
    hide Lfsr;
    if i > 0 {
      KeyIsSteps(i - 1);
      StepsAdd(SEED, i - 1, 1);
      assert Steps(Key(i - 1), 1) == Steps(Lfsr(Key(i - 1)), 0);
    }
  }

  lemma LfsrInjective(a: Byte, b: Byte)
    ensures Lfsr(a) == Lfsr(b) <==> a == b
  {
  }

  lemma {:induction false} StepsInjective(a: Byte, b: Byte, n: nat)
    ensures Steps(a, n) == Steps(b, n) <==> a == b
    decreases n
  {
    hide Lfsr;
    if n > 0 {
      LfsrInjective(a, b);
      StepsInjective(Lfsr(a), Lfsr(b), n - 1);
    }
  }

  // ----- Once round, twelve steps at a time.

  lemma {:induction false} StepsNext(k: Byte, n: nat)
    ensures Steps(k, n + 1) == Steps(Lfsr(k), n) && Steps(k, 0) == k
  {
    hide Lfsr;
  }

  lemma {:induction false} FourSteps(k: Byte)
    ensures Steps(k, 4) == Lfsr(Lfsr(Lfsr(Lfsr(k))))
  {
    hide Lfsr, Steps;
    var a := Lfsr(k);
    var b := Lfsr(a);
    StepsNext(k, 3);
    StepsNext(a, 2);
    StepsNext(b, 1);
    StepsNext(Lfsr(b), 0);
    StepsNext(Lfsr(Lfsr(b)), 0);
  }

  lemma {:induction false} Twelve(k: Byte, a: Byte, b: Byte, c: Byte)
    requires Lfsr(Lfsr(Lfsr(Lfsr(k)))) == a && Lfsr(Lfsr(Lfsr(Lfsr(a)))) == b && Lfsr(Lfsr(Lfsr(Lfsr(b)))) == c
    ensures Steps(k, 12) == c
  {
    hide Lfsr, Steps;
    FourSteps(k);
    FourSteps(a);
    FourSteps(b);
    StepsAdd(k, 4, 8);
    StepsAdd(a, 4, 4);
  }

  lemma {:induction false} To72()
    ensures Steps(0x42, 12) == 0x55
    ensures Steps(0x55, 12) == 0xc6
    ensures Steps(0xc6, 12) == 0xff
    ensures Steps(0xff, 12) == 0x3b
    ensures Steps(0x3b, 12) == 0x70
    ensures Steps(0x70, 12) == 0x4d
  {
    hide Steps;
    Twelve(0x42, 0x2a, 0x94, 0x55);
    Twelve(0x55, 0x4e, 0xce, 0xc6);
    Twelve(0xc6, 0x7e, 0xcd, 0xff);
    Twelve(0xff, 0xd2, 0x23, 0x3b);
    Twelve(0x3b, 0x82, 0x26, 0x70);
    Twelve(0x70, 0x07, 0x65, 0x4d);
  }

  lemma {:induction false} To144()
    ensures Steps(0x4d, 12) == 0x90
    ensures Steps(0x90, 12) == 0xd7
    ensures Steps(0xd7, 12) == 0xc1
    ensures Steps(0xc1, 12) == 0x08
    ensures Steps(0x08, 12) == 0x32
    ensures Steps(0x32, 12) == 0x18
  {
    hide Steps;
    Twelve(0x4d, 0xf7, 0x6a, 0x90);
    Twelve(0x90, 0x09, 0xaf, 0xd7);
    Twelve(0xd7, 0x68, 0xbe, 0xc1);
    Twelve(0xc1, 0x1b, 0x80, 0x08);
    Twelve(0x08, 0xb8, 0xb3, 0x32);
    Twelve(0x32, 0x2d, 0xf1, 0x18);
  }

  lemma {:induction false} To216()
    ensures Steps(0x18, 12) == 0x56
    ensures Steps(0x56, 12) == 0x28
    ensures Steps(0x28, 12) == 0xfa
    ensures Steps(0xfa, 12) == 0x78
    ensures Steps(0x78, 12) == 0x7f
    ensures Steps(0x7f, 12) == 0x88
  {
    hide Steps;
    Twelve(0x18, 0xb9, 0xa4, 0x56);
    Twelve(0x56, 0x77, 0x62, 0x28);
    Twelve(0x28, 0xba, 0x9d, 0xfa);
    Twelve(0xfa, 0x99, 0xa6, 0x78);
    Twelve(0x78, 0xbf, 0xd6, 0x7f);
    Twelve(0x7f, 0xda, 0x9b, 0x88);
  }

  lemma {:induction false} To255()
    ensures Steps(0x88, 12) == 0x81
    ensures Steps(0x81, 12) == 0xe9
    ensures Steps(0xe9, 12) == 0xf2
    ensures Steps(0xf2, 3) == 0x42
  {
    assert Steps(0xf2, 3) == 0x42;
    hide Steps;
    Twelve(0x88, 0xb0, 0x0b, 0x81);
    Twelve(0x81, 0x1f, 0xdc, 0xe9);
    Twelve(0xe9, 0xa1, 0x1d, 0xf2);
  }

  lemma {:induction false} FirstTwoThirds()
    ensures Steps(SEED, 12) == 0x55 && Steps(SEED, 48) == 0x3b && Steps(SEED, 84) == 0x90
    ensures Steps(SEED, 144) == 0x18
  {
    To72();
    To144();
    hide Steps;
    StepsAdd(SEED, 12, 12);
    StepsAdd(SEED, 24, 12);
    StepsAdd(SEED, 36, 12);
    StepsAdd(SEED, 48, 12);
    StepsAdd(SEED, 60, 12);
    StepsAdd(SEED, 72, 12);
    StepsAdd(SEED, 84, 12);
    StepsAdd(SEED, 96, 12);
    StepsAdd(SEED, 108, 12);
    StepsAdd(SEED, 120, 12);
    StepsAdd(SEED, 132, 12);
  }

  lemma {:induction false} OnceRound()
    ensures Steps(SEED, PERIOD) == SEED
  {
    FirstTwoThirds();
    To216();
    To255();
    hide Steps;
    StepsAdd(SEED, 144, 12);
    StepsAdd(SEED, 156, 12);
    StepsAdd(SEED, 168, 12);
    StepsAdd(SEED, 180, 12);
    StepsAdd(SEED, 192, 12);
    StepsAdd(SEED, 204, 12);
    StepsAdd(SEED, 216, 12);
    StepsAdd(SEED, 228, 12);
    StepsAdd(SEED, 240, 12);
    StepsAdd(SEED, 252, 3);
  }

  lemma {:induction false} FewMore()
    ensures Steps(0x55, 3) == 0x9c && Steps(0x3b, 3) == 0x75 && Steps(0x90, 1) == 0x48
  {
  }

  /** 255 is 3 * 5 * 17; the sequence is not back at any of its largest proper divisors. */
  lemma {:induction false} NotSooner()
    ensures Steps(SEED, 15) != SEED && Steps(SEED, 51) != SEED && Steps(SEED, 85) != SEED
  {
    FirstTwoThirds();
    FewMore();
    hide Steps;
    StepsAdd(SEED, 12, 3);
    StepsAdd(SEED, 48, 3);
    StepsAdd(SEED, 84, 1);
  }

  // ----- The period.

  lemma {:induction false} AtMultiples(n: nat, k: nat)
    requires Steps(SEED, n) == SEED
    ensures Steps(SEED, n * k) == SEED
    decreases k
  {
    if k == 0 {
      assert n * k == 0;
    } else {
      AtMultiples(n, k - 1);
      assert n * k == n + n * (k - 1);
      StepsAdd(SEED, n, n * (k - 1));
    }
  }

  lemma {:induction false} Distributes(x: nat, y: nat, z: nat)
    ensures x * (y + z) == x * y + x * z
  {
  }

  /** Two distances at which the sequence repeats have a common divisor at which it does. */
  lemma {:induction false} CommonDivisor(a: nat, b: nat) returns (g: nat, i: nat, j: nat)
    requires a > 0 && b > 0 && Steps(SEED, a) == SEED && Steps(SEED, b) == SEED
    ensures a == g * i && b == g * j && 0 < g && 0 < i && 0 < j && Steps(SEED, g) == SEED
    decreases a + b
  {
    hide Steps;
    if a == b {
      g, i, j := a, 1, 1;
    } else if a < b {
      StepsAdd(SEED, a, b - a);
      g, i, j := CommonDivisor(a, b - a);
      Distributes(g, i, j);
      j := i + j;
    } else {
      StepsAdd(SEED, b, a - b);
      g, i, j := CommonDivisor(a - b, b);
      Distributes(g, i, j);
      i := i + j;
    }
  }

  lemma {:induction false} SmallFactor(g: nat, i: nat)
    requires 1 <= g <= 15 && g * i == PERIOD
    ensures g == 1 || g == 3 || g == 5 || g == 15
  {
    match g {
      case 2 =>
      case 4 =>
      case 6 =>
      case 7 =>
      case 8 =>
      case 9 =>
      case 10 =>
      case 11 =>
      case 12 =>
      case 13 =>
      case 14 =>
      case _ =>
    }
  }

  lemma {:induction false} AtLeast(g: nat, i: nat)
    requires g >= 16 && i >= 16
    ensures g * i >= 256
  {
    assert g * i == 16 * i + (g - 16) * i;
  }

  lemma {:induction false} NoProperDivisor(g: nat, i: nat)
    requires g * i == PERIOD && g > 0 && i > 1
    ensures Steps(SEED, g) != SEED
  {
    hide Steps;
    NotSooner();
    if g <= 15 {
      SmallFactor(g, i);
      if Steps(SEED, g) == SEED {
        AtMultiples(g, 15 / g);
      }
    } else if i <= 15 {
      SmallFactor(i, g);
      if Steps(SEED, g) == SEED {
        AtMultiples(g, if g == 17 then 3 else 1);
      }
    } else {
      AtLeast(g, i);
    }
  }

  lemma {:induction false} Shorter(g: nat, i: nat, j: nat)
    requires g * i == PERIOD && g * j < PERIOD && j > 0
    ensures i > 1
  {
    if i <= 1 {
      assert g * j == g + g * (j - 1);
      assert i == 0 ==> g * i == 0;
    }
  }

  lemma NoSteps()
    ensures Steps(SEED, 0) == SEED
  {
  }

  lemma {:induction false} BackExactly(n: nat)
    ensures Steps(SEED, n) == SEED <==> n % PERIOD == 0
  {
    hide Steps;
    OnceRound();
    var q, r := n / PERIOD, n % PERIOD;
    AtMultiples(PERIOD, q);
    StepsAdd(SEED, PERIOD * q, r);
    if r > 0 && Steps(SEED, r) == SEED {
      var g, i, j := CommonDivisor(PERIOD, r);
      Shorter(g, i, j);
      NoProperDivisor(g, i);
    } else if r == 0 {
      NoSteps();
    }
  }

  /** Bytes at two places of a frame are whitened alike exactly if they are a multiple of 255
      places apart. */
  lemma {:induction false} KeyPeriod(i: nat, n: nat)
    ensures Key(i + n) == Key(i) <==> n % PERIOD == 0
  {
    hide Steps;
    KeyIsSteps(i);
    KeyIsSteps(i + n);
    StepsAdd(SEED, i, n);
    StepsAdd(SEED, n, i);
    StepsInjective(Steps(SEED, n), SEED, i);
    BackExactly(n);
  }
}
