/** Little-endian numbers on the wire, as internal/zcl reads and writes them. */
module ZclBytes {
  import opened Wrappers

  type u8 = n: nat | n < 0x100
  type u16 = n: nat | n < 0x1_0000
  type u32 = n: nat | n < 0x1_0000_0000
  type u64 = n: nat | n < 0x1_0000_0000_0000_0000
  type i8 = n: int | -0x80 <= n < 0x80
  type i16 = n: int | -0x8000 <= n < 0x8000
  type i32 = n: int | -0x8000_0000 <= n < 0x8000_0000
  type i64 = n: int | -0x8000_0000_0000_0000 <= n < 0x8000_0000_0000_0000

  /** How many values fit in n bytes. */
  function Span(n: nat): (r: nat)
    ensures r >= 1
  {
    if n == 0 then 1 else 0x100 * Span(n - 1)
  }

  function Value(b: seq<u8>): nat {
    if b == [] then 0 else b[0] + 0x100 * Value(b[1..])
  }

  function Pair(lo: u8, hi: u8): u16 {
    var low: nat := lo;
    low + 0x100 * hi
  }

  lemma ValueOfTwo(s: seq<u8>)
    requires |s| >= 2
    ensures Value(s[..2]) == Pair(s[0], s[1])
  {
    assert s[..2][1..] == [s[1]] && Value([s[1]]) == s[1];
  }

  lemma ValueOfOne(s: seq<u8>)
    requires s != []
    ensures Value(s[..1]) == s[0]
  {
  }

  function Bytes(v: nat, n: nat): (r: seq<u8>)
    ensures |r| == n
    decreases n
  {
    if n == 0 then [] else [v % 0x100] + Bytes(v / 0x100, n - 1)
  }

  lemma {:induction false} PairOfBytes(v: u16)
    ensures Pair(Bytes(v, 2)[0], Bytes(v, 2)[1]) == v
  {
    assert Bytes(v, 2) == [v % 0x100] + Bytes(v / 0x100, 1) && Bytes(v / 0x100, 1)[0] == v / 0x100 % 0x100;
  }

  lemma {:induction false} ValueOfBytes(v: nat, n: nat)
    requires v < Span(n)
    ensures Value(Bytes(v, n)) == v
    decreases n
  {
    if n > 0 {
      ValueOfBytes(v / 0x100, n - 1);
    }
  }

  lemma {:induction false} BytesOfValue(b: seq<u8>)
    ensures Bytes(Value(b), |b|) == b && Value(b) < Span(|b|)
  {
    if b != [] {
      BytesOfValue(b[1..]);
      assert Value(b) % 0x100 == b[0] && Value(b) / 0x100 == Value(b[1..]);
    }
  }

  /** v >> 8*i. */
  function Shifted(v: nat, i: nat): nat
    decreases i
  {
    if i == 0 then v else Shifted(v / 0x100, i - 1)
  }

  lemma {:induction false} BytesSnoc(v: nat, n: nat)
    ensures Bytes(v, n + 1) == Bytes(v, n) + [Shifted(v, n) % 0x100]
    decreases n
  {
    if n > 0 {
      BytesSnoc(v / 0x100, n - 1);
    }
  }

  /** Appending an n-byte number, as the code does for widths Go has no type for. */
  method AppendUint(init: seq<u8>, v: u64, n: nat) returns (out: seq<u8>)
    ensures out == init + Bytes(v, n)
  {
    out := init;
    for i := 0 to n
      invariant out == init + Bytes(v, i)
    {
      BytesSnoc(v, i);
      out := out + [Shifted(v, i) % 0x100];
    }
  }

  /** Reading one, most significant byte first. */
  method ReadUint(b: seq<u8>) returns (v: nat)
    ensures v == Value(b)
  {
    v := 0;
    for i := |b| downto 0
      invariant v == Value(b[i..])
    {
      assert b[i..][1..] == b[i + 1..];
      v := v * 0x100 + b[i];
    }
    assert b[0..] == b;
  }

  /** Two's complement in w bytes. */
  function Signed(n: nat, w: nat): int
    requires n < Span(w)
  {
    if 2 * n >= Span(w) then n - Span(w) else n
  }

  predicate FitsSigned(n: int, w: nat) {
    -2 * n <= Span(w) && 2 * n < Span(w)
  }

  function Wrapped(n: int, w: nat): nat
    requires FitsSigned(n, w)
  {
    if n < 0 then n + Span(w) else n
  }

  lemma SignedRoundTrip(n: int, w: nat)
    requires FitsSigned(n, w)
    ensures Wrapped(n, w) < Span(w) && Signed(Wrapped(n, w), w) == n
  {
  }
}
