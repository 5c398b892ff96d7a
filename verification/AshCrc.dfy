/** What a CRC-16/CCITT register is worth, worked out on bit strings.

    The register is sixteen bits, the high bit first, and takes one message bit at
    a time: the long division by x^16 + x^12 + x^5 + 1 that crc16 in
    internal/ash/frame.go carries out a byte at a time on a uint16.  AshFrame ties
    that code to Feed; this module proves the error-detection guarantees of Feed. */
module AshCrc {

  type Register = r: seq<bool> | |r| == 16 witness seq(16, _ => false)

  function Zeros(n: nat): (z: seq<bool>)
    ensures |z| == n
  {
    seq(n, _ => false)
  }

  /** The positions of the ones of 0x1021, counted from the high bit. */
  predicate Tap(i: nat) {
    i == 3 || i == 10 || i == 15
  }

  function Xor(a: seq<bool>, b: seq<bool>): (r: seq<bool>)
    requires |a| == |b|
    ensures |r| == |a|
  {
    seq(|a|, i requires 0 <= i < |a| => a[i] != b[i])
  }

  /** Shift left one place; when a one falls out, add the polynomial. */
  function Turn(r: Register): Register {
    seq(16, i requires 0 <= i < 16 => (i < 15 && r[i + 1]) != (r[0] && Tap(i)))
  }

  function Turns(r: Register, n: nat): Register
    decreases n
  {
    if n == 0 then r else Turns(Turn(r), n - 1)
  }

  function FeedBit(r: Register, b: bool): Register {
    Turn(r[0 := r[0] != b])
  }

  function Feed(r: Register, bits: seq<bool>): Register
    decreases bits
  {
    if bits == [] then r else Feed(FeedBit(r, bits[0]), bits[1..])
  }

  lemma {:induction false} FeedAppend(r: Register, a: seq<bool>, b: seq<bool>)
    ensures Feed(r, a + b) == Feed(Feed(r, a), b)
    decreases a
  {
    if a == [] {
      assert a + b == b;
    } else {
      assert (a + b)[1..] == a[1..] + b;
      FeedAppend(FeedBit(r, a[0]), a[1..], b);
    }
  }

  /** The register is a linear map of its contents and the message. */
  lemma {:induction false} FeedLinear(r: Register, s: Register, a: seq<bool>, b: seq<bool>)
    requires |a| == |b|
    ensures Feed(Xor(r, s), Xor(a, b)) == Xor(Feed(r, a), Feed(s, b))
    decreases a
  {
    if a != [] {
      assert FeedBit(Xor(r, s), Xor(a, b)[0]) == Xor(FeedBit(r, a[0]), FeedBit(s, b[0]));
      assert Xor(a, b)[1..] == Xor(a[1..], b[1..]);
      FeedLinear(FeedBit(r, a[0]), FeedBit(s, b[0]), a[1..], b[1..]);
    }
  }

  function Pad(w: seq<bool>): Register
    requires |w| <= 16
  {
    w + Zeros(16 - |w|)
  }

  /** Up to sixteen message bits may be loaded into the register at once and the
      register turned over that many times: what the code does byte by byte. */
  lemma {:induction false} Preload(r: Register, w: seq<bool>)
    requires |w| <= 16
    ensures Feed(r, w) == Turns(Xor(r, Pad(w)), |w|)
    decreases w
  {
    if w == [] {
      assert Xor(r, Pad(w)) == r;
    } else {
      assert Turn(Xor(r, Pad(w))) == Xor(FeedBit(r, w[0]), Pad(w[1..]));
      Preload(FeedBit(r, w[0]), w[1..]);
    }
  }

  lemma TurnInjective(r: Register)
    ensures Turn(r) == Zeros(16) <==> r == Zeros(16)
  {
    if Turn(r) == Zeros(16) {
      assert !Turn(r)[15];
      forall i | 0 < i < 16 ensures !r[i] { assert !Turn(r)[i - 1]; }
    }
  }

  lemma {:induction false} TurnsInjective(r: Register, n: nat)
    ensures Turns(r, n) == Zeros(16) <==> r == Zeros(16)
    decreases n
  {
    if n > 0 {
      TurnInjective(r);
      TurnsInjective(Turn(r), n - 1);
    }
  }

  /** Exactly one continuation of each short length clears the register: its own
      contents.  This is why a CRC may be checked by running it over the frame
      including the check bytes. */
  lemma ClearedBy(r: Register, w: seq<bool>)
    requires |w| <= 16
    ensures Feed(r, w) == Zeros(16) <==> r == Pad(w)
  {
    Preload(r, w);
    TurnsInjective(Xor(r, Pad(w)), |w|);
    if Xor(r, Pad(w)) == Zeros(16) {
      forall i | 0 <= i < 16 ensures r[i] == Pad(w)[i] { assert !Xor(r, Pad(w))[i]; }
    }
  }

  lemma {:induction false} FeedZeros(r: Register, n: nat)
    ensures Feed(r, Zeros(n)) == Zeros(16) <==> r == Zeros(16)
    decreases n
  {
    if n > 0 {
      assert r[0 := r[0] != false] == r;
      assert Zeros(n)[1..] == Zeros(n - 1);
      TurnInjective(r);
      FeedZeros(Turn(r), n - 1);
    }
  }

  /** Two messages agree everywhere outside sixteen consecutive bits. */
  ghost predicate DifferInBurst(a: seq<bool>, b: seq<bool>, at: nat) {
    |a| == |b| && forall i | 0 <= i < |a| && !(at <= i < at + 16) :: a[i] == b[i]
  }

  lemma {:induction false} ShortNeverClears(w: seq<bool>)
    requires |w| <= 16 && Feed(Zeros(16), w) == Zeros(16)
    ensures w == Zeros(|w|)
  {
    ClearedBy(Zeros(16), w);
    assert w == Pad(w)[..|w|];
  }

  lemma {:induction false} BurstNeverClears(d: seq<bool>, lo: nat, hi: nat)
    requires lo <= hi <= |d| && hi - lo <= 16
    requires d[..lo] == Zeros(lo) && d[hi..] == Zeros(|d| - hi)
    requires Feed(Zeros(16), d) == Zeros(16)
    ensures d[lo..hi] == Zeros(hi - lo)
  {
    var w, rest := d[lo..hi], d[hi..];
    assert d == Zeros(lo) + (w + rest);
    FeedAppend(Zeros(16), Zeros(lo), w + rest);
    FeedZeros(Zeros(16), lo);
    FeedAppend(Zeros(16), w, rest);
    FeedZeros(Feed(Zeros(16), w), |rest|);
    ShortNeverClears(w);
  }

  /** No error confined to sixteen consecutive bits goes unnoticed, at any length. */
  lemma BurstDetected(r: Register, a: seq<bool>, b: seq<bool>, at: nat)
    requires DifferInBurst(a, b, at) && a != b
    ensures Feed(r, a) != Feed(r, b)
  {
    var d := Xor(a, b);
    FeedLinear(r, r, a, b);
    assert Xor(r, r) == Zeros(16);
    if Feed(r, a) == Feed(r, b) {
      assert Xor(Feed(r, a), Feed(r, b)) == Zeros(16);
      var lo := if at <= |d| then at else |d|;
      var hi := if at + 16 <= |d| then at + 16 else |d|;
      BurstNeverClears(d, lo, hi);
      forall i | 0 <= i < |a| ensures a[i] == b[i] {
        assert lo <= i < hi ==> d[i] == d[lo..hi][i - lo];
      }
    }
  }

  /** Whether a bit string holds an odd number of ones. */
  function Odd(bits: seq<bool>): bool {
    bits != [] && (bits[0] != Odd(bits[1..]))
  }

  lemma {:induction false} OddXor(a: seq<bool>, b: seq<bool>)
    requires |a| == |b|
    ensures Odd(Xor(a, b)) == (Odd(a) != Odd(b))
  {
    if a != [] {
      assert Xor(a, b)[1..] == Xor(a[1..], b[1..]);
      OddXor(a[1..], b[1..]);
    }
  }

  lemma {:induction false} OddAppend(a: seq<bool>, b: bool)
    ensures Odd(a + [b]) == (Odd(a) != b)
  {
    if a == [] {
      assert ([] + [b])[1..] == [];
    } else {
      assert (a + [b])[1..] == a[1..] + [b];
      OddAppend(a[1..], b);
    }
  }

  function Taps(): Register {
    seq(16, i requires 0 <= i < 16 => Tap(i))
  }

  lemma {:induction false} TurnIs(r: Register)
    ensures Turn(r) == if r[0] then Xor(r[1..] + [false], Taps()) else r[1..] + [false]
  {
  }

  lemma {:induction false} OddConstants()
    ensures Odd(Taps()) && !Odd(Zeros(16))
  {
    for i := 16 downto 0
      invariant Odd(Taps()[i..]) == (i <= 3 || 10 < i <= 15)
      invariant !Odd(Zeros(16)[i..])
    {
      assert Taps()[i..][1..] == Taps()[i + 1..];
      assert Zeros(16)[i..][1..] == Zeros(16)[i + 1..];
    }
    assert Taps()[0..] == Taps() && Zeros(16)[0..] == Zeros(16);
  }

  /** The polynomial has an odd number of lower terms, so losing a one off the top
      and adding the polynomial leaves the parity as it was. */
  lemma TurnKeepsParity(r: Register)
    ensures Odd(Turn(r)) == Odd(r)
  {
    OddConstants();
    OddAppend(r[1..], false);
    var moved := r[1..] + [false];
    assert Turn(r) == Xor(moved, if r[0] then Taps() else Zeros(16));
    OddXor(moved, if r[0] then Taps() else Zeros(16));
  }

  lemma {:induction false} FeedParity(r: Register, bits: seq<bool>)
    ensures Odd(Feed(r, bits)) == (Odd(r) != Odd(bits))
    decreases bits
  {
    if bits != [] {
      var loaded := r[0 := r[0] != bits[0]];
      assert loaded[1..] == r[1..];
      TurnKeepsParity(loaded);
      FeedParity(FeedBit(r, bits[0]), bits[1..]);
    }
  }

  /** No error that flips an odd number of bits goes unnoticed, at any length. */
  lemma {:induction false} OddErrorDetected(r: Register, a: seq<bool>, b: seq<bool>)
    requires |a| == |b| && Odd(Xor(a, b))
    ensures Feed(r, a) != Feed(r, b)
  {
    OddXor(a, b);
    FeedParity(r, a);
    FeedParity(r, b);
  }

  // ----- Counting.

  /** How many ones a bit string holds. */
  function Weight(bits: seq<bool>): nat {
    if bits == [] then 0 else (if bits[0] then 1 else 0) + Weight(bits[1..])
  }

  lemma {:induction false} WeightParity(bits: seq<bool>)
    ensures Odd(bits) <==> Weight(bits) % 2 == 1
  {
    if bits != [] {
      WeightParity(bits[1..]);
    }
  }

  lemma {:induction false} WeightZero(bits: seq<bool>)
    requires Weight(bits) == 0
    ensures bits == Zeros(|bits|)
  {
    if bits != [] {
      WeightZero(bits[1..]);
      assert bits == [bits[0]] + bits[1..];
    }
  }

  lemma {:induction false} WeightOne(bits: seq<bool>) returns (i: nat)
    requires Weight(bits) == 1
    ensures i < |bits| && forall k | 0 <= k < |bits| :: bits[k] <==> k == i
  {
    if bits[0] {
      WeightZero(bits[1..]);
      i := 0;
      forall k | 0 <= k < |bits| ensures bits[k] <==> k == 0 {
        assert k > 0 ==> bits[k] == bits[1..][k - 1];
      }
    } else {
      i := WeightOne(bits[1..]);
      i := i + 1;
      forall k | 0 <= k < |bits| ensures bits[k] <==> k == i {
        assert k > 0 ==> bits[k] == bits[1..][k - 1];
      }
    }
  }

  lemma {:induction false} WeightTwo(bits: seq<bool>) returns (i: nat, j: nat)
    requires Weight(bits) == 2
    ensures i < j < |bits| && forall k | 0 <= k < |bits| :: bits[k] <==> k == i || k == j
  {
    if bits[0] {
      i := 0;
      j := WeightOne(bits[1..]);
    } else {
      i, j := WeightTwo(bits[1..]);
      i := i + 1;
    }
    j := j + 1;
    forall k | 0 <= k < |bits| ensures bits[k] <==> k == i || k == j {
      assert k > 0 ==> bits[k] == bits[1..][k - 1];
    }
  }
}
