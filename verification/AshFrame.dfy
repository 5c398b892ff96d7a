/** The frame codec of internal/ash/frame.go: whitening, the CRC and byte
    stuffing, undone by Decode in the opposite order. */
module AshFrame {
  import opened AshCrc
  import AshCrcPeriod
  import opened Wrappers

  type Byte = bv8

  const FLAG: Byte := 0x7E
  const ESCAPE: Byte := 0x7D
  const XON: Byte := 0x11
  const XOFF: Byte := 0x13
  const SUBST: Byte := 0x18
  const CANCEL: Byte := 0x1A
  const ESCAPE_MASK: Byte := 0x20
  const MAX_FRAME_LEN: nat := 256
  const SEED: Byte := 0x42

  datatype FrameType = FrameData | FrameACK | FrameNAK | FrameRST | FrameRSTACK | FrameError

  datatype Frame = Frame(kind: FrameType, frmNum: Byte, ackNum: Byte, reTx: bool, notReady: bool, data: seq<Byte>)

  datatype DecodeError = BadEscape | ShortFrame | BadCRC | UnknownControl

  datatype EncodeError = LongFrame

  // ----- The CRC, on the register's sixteen bits.

  function Bits(b: Byte): (r: seq<bool>)
    ensures |r| == 8
  {
    [b & 0x80 != 0, b & 0x40 != 0, b & 0x20 != 0, b & 0x10 != 0,
     b & 0x08 != 0, b & 0x04 != 0, b & 0x02 != 0, b & 0x01 != 0]
  }

  function Place(b: bool, m: Byte): Byte {
    if b then m else 0
  }

  function ByteOf(r: seq<bool>): Byte
    requires |r| == 8
  {
    Place(r[0], 0x80) | Place(r[1], 0x40) | Place(r[2], 0x20) | Place(r[3], 0x10) |
    Place(r[4], 0x08) | Place(r[5], 0x04) | Place(r[6], 0x02) | Place(r[7], 0x01)
  }

  lemma BitsOfByte(r: seq<bool>)
    requires |r| == 8
    ensures Bits(ByteOf(r)) == r
  {
  }

  lemma BitsInjective(a: Byte, b: Byte)
    ensures Bits(a) == Bits(b) <==> a == b
  {
  }

  function BitString(data: seq<Byte>): (r: seq<bool>)
    ensures |r| == 8 * |data|
  {
    if data == [] then [] else BitString(data[..|data| - 1]) + Bits(data[|data| - 1])
  }

  lemma BitStringSnoc(data: seq<Byte>, b: Byte)
    ensures BitString(data + [b]) == BitString(data) + Bits(b)
  {
  }

  lemma {:induction false} BitStringAt(data: seq<Byte>, i: nat, j: nat)
    requires i < |data| && j < 8
    ensures BitString(data)[8 * i + j] == Bits(data[i])[j]
  {
    if i < |data| - 1 {
      BitStringAt(data[..|data| - 1], i, j);
    }
  }

  function Ones(): Register {
    seq(16, _ => true)
  }

  /** The register after a whole message: the specification of crc16. */
  function Crc(data: seq<Byte>): Register {
    Feed(Ones(), BitString(data))
  }

  /** The inner loop of crc16: one byte into the register. */
  method Absorb(reg: Register, b: Byte) returns (crc: Register)
    ensures crc == Feed(reg, Bits(b))
  {
    hide Bits, Turn, Taps, Pad, Feed;
    var bits := Bits(b);
    Preload(reg, bits);
    crc := Xor(reg, Pad(bits));
    for j := 0 to |bits|
      invariant Turns(crc, |bits| - j) == Feed(reg, bits)
    {
      var moved := crc[1..] + [false];
      if crc[0] {
        moved := Xor(moved, Taps());
      }
      TurnIs(crc);
      crc := moved;
    }
  }

  method Crc16(data: seq<Byte>) returns (crc: Register)
    ensures crc == Crc(data)
  {
    crc := Ones();
    for i := 0 to |data|
      invariant crc == Crc(data[..i])
    {
      BitStringSnoc(data[..i], data[i]);
      assert data[..i + 1] == data[..i] + [data[i]];
      FeedAppend(Ones(), BitString(data[..i]), Bits(data[i]));
      crc := Absorb(crc, data[i]);
    }
    assert data[..|data|] == data;
  }

  // ----- Whitening.

  function Lfsr(r: Byte): Byte {
    if r & 1 == 0 then r >> 1 else (r >> 1) ^ 0xB8
  }

  function Key(i: nat): Byte
    decreases i
  {
    if i == 0 then SEED else Lfsr(Key(i - 1))
  }

  function Mixed(b: Byte, k: Byte): Byte {
    b ^ k
  }

  function Randomized(data: seq<Byte>): (r: seq<Byte>)
    ensures |r| == |data|
  {
    if data == [] then [] else Randomized(data[..|data| - 1]) + [Mixed(data[|data| - 1], Key(|data| - 1))]
  }

  method Randomize(data: seq<Byte>) returns (out: seq<Byte>)
    ensures out == Randomized(data)
  {
    out := [];
    var rand := SEED;
    for i := 0 to |data|
      invariant out == Randomized(data[..i]) && rand == Key(i)
    {
      assert data[..i + 1][..i] == data[..i];
      out := out + [Mixed(data[i], rand)];
      if rand & 1 == 0 {
        rand := rand >> 1;
      } else {
        rand := (rand >> 1) ^ 0xB8;
      }
    }
    assert data[..|data|] == data;
  }

  lemma LfsrNonZero(r: Byte)
    ensures r != 0 ==> Lfsr(r) != 0
  {
  }

  /** The whitening sequence never lets a byte through unchanged. */
  lemma {:induction false} KeyNonZero(i: nat)
    ensures Key(i) != 0
    decreases i
  {
    if i > 0 {
      KeyNonZero(i - 1);
      LfsrNonZero(Key(i - 1));
    }
  }

  lemma MixedTwice(b: Byte, k: Byte)
    ensures Mixed(Mixed(b, k), k) == b
    ensures k != 0 ==> Mixed(b, k) != b
  {
  }

  /** Whitening is its own inverse, and changes every byte. */
  lemma {:induction false} RandomizeTwice(data: seq<Byte>)
    ensures Randomized(Randomized(data)) == data
    ensures forall i | 0 <= i < |data| :: Randomized(data)[i] != data[i]
  {
    if data != [] {
      var n := |data| - 1;
      var white := Randomized(data);
      RandomizeTwice(data[..n]);
      assert white[..n] == Randomized(data[..n]);
      KeyNonZero(n);
      MixedTwice(data[n], Key(n));
      assert white[n] == Mixed(data[n], Key(n));
      assert Randomized(white) == Randomized(white[..n]) + [Mixed(white[n], Key(n))];
    }
  }

  // ----- Stuffing.

  predicate NeedsEscape(b: Byte) {
    b == FLAG || b == ESCAPE || b == XON || b == XOFF || b == SUBST || b == CANCEL
  }

  function Escaped(body: seq<Byte>): (r: seq<Byte>)
    ensures |body| <= |r| <= 2 * |body|
  {
    if body == [] then []
    else (if NeedsEscape(body[0]) then [ESCAPE, Mixed(body[0], ESCAPE_MASK)] else [body[0]]) + Escaped(body[1..])
  }

  lemma EscapedAt(frame: seq<Byte>, i: nat)
    requires i < |frame|
    ensures Escaped(frame[i..]) == Escaped([frame[i]]) + Escaped(frame[i + 1..])
    ensures Escaped([frame[i]]) ==
      if NeedsEscape(frame[i]) then [ESCAPE, Mixed(frame[i], ESCAPE_MASK)] else [frame[i]]
  {
    hide NeedsEscape, Mixed;
    assert frame[i..][1..] == frame[i + 1..] && [frame[i]][1..] == [];
  }

  method Stuff(frame: seq<Byte>) returns (out: seq<Byte>)
    ensures out == Escaped(frame) + [FLAG]
  {
    hide NeedsEscape, Mixed, Escaped;
    out := [];
    for i := 0 to |frame|
      invariant out + Escaped(frame[i..]) == Escaped(frame)
    {
      EscapedAt(frame, i);
      assert out + Escaped(frame[i..]) == (out + Escaped([frame[i]])) + Escaped(frame[i + 1..]);
      if NeedsEscape(frame[i]) {
        out := out + [ESCAPE, Mixed(frame[i], ESCAPE_MASK)];
      } else {
        out := out + [frame[i]];
      }
    }
    assert Escaped(frame[|frame|..]) == [];
    out := out + [FLAG];
  }

  function Prepend(out: seq<Byte>, r: Result<seq<Byte>, DecodeError>): Result<seq<Byte>, DecodeError> {
    if r.Ok? then Ok(out + r.value) else r
  }

  lemma PrependTwice(a: seq<Byte>, b: seq<Byte>, r: Result<seq<Byte>, DecodeError>)
    ensures Prepend(a, Prepend(b, r)) == Prepend(a + b, r)
    ensures Prepend([], r) == r
  {
    if r.Ok? {
      assert [] + r.value == r.value;
      assert a + (b + r.value) == (a + b) + r.value;
    }
  }

  function Unescaped(raw: seq<Byte>): Result<seq<Byte>, DecodeError> {
    if raw == [] then Ok([])
    else if raw[0] != ESCAPE then
      Prepend([raw[0]], Unescaped(raw[1..]))
    else if |raw| == 1 then Err(BadEscape)
    else
      Prepend([Mixed(raw[1], ESCAPE_MASK)], Unescaped(raw[2..]))
  }

  method Unstuff(body: seq<Byte>) returns (r: Result<seq<Byte>, DecodeError>)
    ensures r == Unescaped(body)
  {
    var out: seq<Byte> := [];
    var i := 0;
    assert body[i..] == body;
    PrependTwice([], [], Unescaped(body));
    while i < |body|
      invariant i <= |body|
      invariant Prepend(out, Unescaped(body[i..])) == Unescaped(body)
    {
      var rest := body[i..];
      if body[i] != ESCAPE {
        assert rest[1..] == body[i + 1..];
        PrependTwice(out, [body[i]], Unescaped(rest[1..]));
        out := out + [body[i]];
        i := i + 1;
      } else {
        i := i + 1;
        if i >= |body| {
          return Err(BadEscape);
        }
        assert rest[2..] == body[i + 1..];
        PrependTwice(out, [Mixed(body[i], ESCAPE_MASK)], Unescaped(rest[2..]));
        out := out + [Mixed(body[i], ESCAPE_MASK)];
        i := i + 1;
      }
    }
    assert body[i..] == [] && out + [] == out;
    r := Ok(out);
  }

  /** What stuffing leaves on the wire: no reserved byte but the escape itself. */
  predicate Transparent(raw: seq<Byte>) {
    forall b | b in raw :: NeedsEscape(b) ==> b == ESCAPE
  }

  lemma EscapeHides(b: Byte)
    ensures NeedsEscape(b) ==> !NeedsEscape(Mixed(b, ESCAPE_MASK))
  {
  }

  lemma {:induction false} StuffingRoundTrip(body: seq<Byte>)
    ensures Unescaped(Escaped(body)) == Ok(body)
    ensures Transparent(Escaped(body))
  {
    if body != [] {
      StuffingRoundTrip(body[1..]);
      var rest := Escaped(body[1..]);
      assert [body[0]] + body[1..] == body;
      if NeedsEscape(body[0]) {
        var mixed := Mixed(body[0], ESCAPE_MASK);
        var raw := [ESCAPE, mixed] + rest;
        assert raw[1] == mixed && raw[2..] == rest;
        MixedTwice(body[0], ESCAPE_MASK);
        EscapeHides(body[0]);
        assert Escaped(body) == raw;
        assert forall b | b in raw :: b == ESCAPE || b == mixed || b in rest;
        assert Transparent(raw);
      } else {
        assert ([body[0]] + rest)[1..] == rest;
      }
    }
  }

  // ----- Frames.

  function DataHeader(frm: Byte, ack: Byte, reTx: bool): Byte {
    ((frm & 0x07) << 4) | (ack & 0x07) | (if reTx then 0x08 else 0)
  }

  function AckHeader(base: Byte, ack: Byte, notReady: bool): Byte {
    base | (ack & 0x07) | (if notReady then 0x10 else 0)
  }

  function ControlByte(f: Frame): Byte {
    match f.kind
    case FrameData => DataHeader(f.frmNum, f.ackNum, f.reTx)
    case FrameACK => AckHeader(0x80, f.ackNum, f.notReady)
    case FrameNAK => AckHeader(0xA0, f.ackNum, f.notReady)
    case FrameRST => 0xC0
    case FrameRSTACK => 0xC1
    case FrameError => 0xC2
  }

  /** The bytes the CRC covers. */
  function Payload(f: Frame): seq<Byte> {
    [ControlByte(f)] + if f.kind == FrameData then Randomized(f.data) else f.data
  }

  /** The body of a frame before stuffing: payload and check bytes. */
  function Unstuffed(f: Frame): (r: seq<Byte>)
    ensures |r| == |f.data| + 3
  {
    var crc := Crc(Payload(f));
    Payload(f) + [ByteOf(crc[..8]), ByteOf(crc[8..])]
  }

  function Encoded(f: Frame): Result<seq<Byte>, EncodeError> {
    if |f.data| > MAX_FRAME_LEN then Err(LongFrame) else Ok(Escaped(Unstuffed(f)) + [FLAG])
  }

  method Encode(f: Frame) returns (r: Result<seq<Byte>, EncodeError>)
    ensures r == Encoded(f)
  {
    if |f.data| > MAX_FRAME_LEN {
      return Err(LongFrame);
    }
    var body := [ControlByte(f)];
    if f.kind == FrameData {
      var white := Randomize(f.data);
      body := body + white;
    } else {
      body := body + f.data;
    }
    var crc := Crc16(body);
    body := body + [ByteOf(crc[..8]), ByteOf(crc[8..])];
    var wire := Stuff(body);
    r := Ok(wire);
  }

  function Blank(kind: FrameType): Frame {
    Frame(kind, 0, 0, false, false, [])
  }

  /** Reading a frame whose check bytes have been verified and removed. */
  function Parsed(payload: seq<Byte>): Result<Frame, DecodeError>
    requires payload != []
  {
    var ctrl, data := payload[0], payload[1..];
    if ctrl & 0x80 == 0 then
      Ok(Frame(FrameData, (ctrl >> 4) & 0x07, ctrl & 0x07, ctrl & 0x08 != 0, false, Randomized(data)))
    else if ctrl & 0xE0 == 0x80 then Ok(Frame(FrameACK, 0, ctrl & 0x07, false, ctrl & 0x10 != 0, []))
    else if ctrl & 0xE0 == 0xA0 then Ok(Frame(FrameNAK, 0, ctrl & 0x07, false, ctrl & 0x10 != 0, []))
    else if ctrl == 0xC0 then Ok(Blank(FrameRST))
    else if ctrl == 0xC1 then Ok(Blank(FrameRSTACK).(data := data))
    else if ctrl == 0xC2 then Ok(Blank(FrameError).(data := data))
    else Err(UnknownControl)
  }

  function Checked(body: seq<Byte>): Result<Frame, DecodeError> {
    if |body| < 3 then Err(ShortFrame)
    else
      var payload, sum := body[..|body| - 2], body[|body| - 2..];
      if Crc(payload) != Bits(sum[0]) + Bits(sum[1]) then Err(BadCRC) else Parsed(payload)
  }

  function Decoded(raw: seq<Byte>): Result<Frame, DecodeError> {
    match Unescaped(raw)
    case Err(e) => Err(e)
    case Ok(body) => Checked(body)
  }

  method Decode(raw: seq<Byte>) returns (r: Result<Frame, DecodeError>)
    ensures r == Decoded(raw)
  {
    var unstuffed := Unstuff(raw);
    if unstuffed.Err? {
      return Err(unstuffed.error);
    }
    var body := unstuffed.value;
    if |body| < 3 {
      return Err(ShortFrame);
    }
    var payload, sum := body[..|body| - 2], body[|body| - 2..];
    var want := Bits(sum[0]) + Bits(sum[1]);
    var got := Crc16(payload);
    if got != want {
      return Err(BadCRC);
    }
    var ctrl, data := payload[0], payload[1..];
    if ctrl & 0x80 == 0 {
      var plain := Randomize(data);
      r := Ok(Frame(FrameData, (ctrl >> 4) & 0x07, ctrl & 0x07, ctrl & 0x08 != 0, false, plain));
    } else {
      r := Parsed(payload);
    }
  }

  /** The part of a frame that its wire form carries. */
  function Carried(f: Frame): Frame {
    match f.kind
    case FrameData => Frame(FrameData, f.frmNum & 0x07, f.ackNum & 0x07, f.reTx, false, f.data)
    case FrameACK => Frame(FrameACK, 0, f.ackNum & 0x07, false, f.notReady, [])
    case FrameNAK => Frame(FrameNAK, 0, f.ackNum & 0x07, false, f.notReady, [])
    case FrameRST => Blank(FrameRST)
    case FrameRSTACK => Blank(FrameRSTACK).(data := f.data)
    case FrameError => Blank(FrameError).(data := f.data)
  }

  lemma DataControl(frm: Byte, ack: Byte, reTx: bool)
    ensures var c := DataHeader(frm, ack, reTx);
      && c & 0x80 == 0 && (c >> 4) & 0x07 == frm & 0x07 && c & 0x07 == ack & 0x07 && (c & 0x08 != 0) == reTx
  {
  }

  lemma AckControl(base: Byte, ack: Byte, notReady: bool)
    requires base == 0x80 || base == 0xA0
    ensures var c := AckHeader(base, ack, notReady);
      && c & 0x80 != 0 && c & 0xE0 == base && c & 0x07 == ack & 0x07 && (c & 0x10 != 0) == notReady
  {
  }

  lemma ControlRoundTrip(f: Frame)
    ensures Parsed(Payload(f)) == Ok(Carried(f))
  {
    hide Randomized, Key, Mixed;
    assert Payload(f)[0] == ControlByte(f);
    match f.kind {
      case FrameData =>
        assert Payload(f)[1..] == Randomized(f.data);
        RandomizeTwice(f.data);
        DataControl(f.frmNum, f.ackNum, f.reTx);
      case FrameACK => AckControl(0x80, f.ackNum, f.notReady);
      case FrameNAK => AckControl(0xA0, f.ackNum, f.notReady);
      case _ => assert Payload(f)[1..] == f.data;
    }
  }

  lemma {:induction false} CheckBytesMatch(f: Frame)
    ensures Checked(Unstuffed(f)) == Parsed(Payload(f))
  {
    var crc := Crc(Payload(f));
    BitsOfByte(crc[..8]);
    BitsOfByte(crc[8..]);
    var body := Unstuffed(f);
    assert body[..|body| - 2] == Payload(f);
    assert crc == crc[..8] + crc[8..];
  }

  /** Decode undoes Encode on everything a frame of that kind carries, and the
      wire form holds no reserved byte but escapes and the flag that ends it. */
  lemma FrameRoundTrip(f: Frame)
    requires |f.data| <= MAX_FRAME_LEN
    ensures Encoded(f).Ok?
    ensures var wire := Encoded(f).value;
      && wire != [] && wire[|wire| - 1] == FLAG
      && Transparent(wire[..|wire| - 1])
      && Decoded(wire[..|wire| - 1]) == Ok(Carried(f))
  {
    StuffingRoundTrip(Unstuffed(f));
    CheckBytesMatch(f);
    ControlRoundTrip(f);
    var wire := Encoded(f).value;
    assert wire[..|wire| - 1] == Escaped(Unstuffed(f));
  }

  // ----- What a verified CRC is worth.

  predicate CrcHolds(body: seq<Byte>) {
    |body| >= 3 && Checked(body) != Err(BadCRC)
  }

  /** Checking the two trailing bytes is dividing the whole body without remainder. */
  lemma CrcHoldsIffDivisible(body: seq<Byte>)
    requires |body| >= 3
    ensures CrcHolds(body) <==> Crc(body) == Zeros(16)
  {
    var payload, h, l := body[..|body| - 2], body[|body| - 2], body[|body| - 1];
    var w := Bits(h) + Bits(l);
    assert body == (payload + [h]) + [l];
    BitStringSnoc(payload, h);
    BitStringSnoc(payload + [h], l);
    assert BitString(body) == BitString(payload) + w;
    FeedAppend(Ones(), BitString(payload), w);
    ClearedBy(Crc(payload), w);
    assert Pad(w) == w;
  }

  lemma {:induction false} BitStringInjective(a: seq<Byte>, b: seq<Byte>)
    requires |a| == |b| && BitString(a) == BitString(b)
    ensures a == b
  {
    forall i | 0 <= i < |a| ensures a[i] == b[i] {
      forall j: nat | j < 8 ensures Bits(a[i])[j] == Bits(b[i])[j] {
        BitStringAt(a, i, j);
        BitStringAt(b, i, j);
      }
      BitsInjective(a[i], b[i]);
    }
  }

  /** An error burst of at most sixteen bits, anywhere in a body of any length,
      check bytes included, is rejected as a CRC mismatch. */
  lemma {:induction false} BurstRejected(body: seq<Byte>, other: seq<Byte>, at: nat)
    requires CrcHolds(body) && other != body
    requires DifferInBurst(BitString(body), BitString(other), at)
    ensures Checked(other) == Err(BadCRC)
  {
    CrcHoldsIffDivisible(body);
    CrcHoldsIffDivisible(other);
    if BitString(body) == BitString(other) {
      BitStringInjective(body, other);
    }
    BurstDetected(Ones(), BitString(body), BitString(other), at);
  }

  /** In bytes: damage to two neighbouring bytes never passes. */
  lemma AdjacentBytesRejected(body: seq<Byte>, other: seq<Byte>, k: nat)
    requires CrcHolds(body) && other != body && |other| == |body|
    requires forall i | 0 <= i < |body| && i != k && i != k + 1 :: body[i] == other[i]
    ensures Checked(other) == Err(BadCRC)
  {
    forall n | 0 <= n < 8 * |body| && !(8 * k <= n < 8 * k + 16)
      ensures BitString(body)[n] == BitString(other)[n]
    {
      BitStringAt(body, n / 8, n % 8);
      BitStringAt(other, n / 8, n % 8);
    }
    BurstRejected(body, other, 8 * k);
  }

  /** Flipping an odd number of bits, anywhere in a body of any length, is rejected. */
  lemma {:induction false} OddErrorRejected(body: seq<Byte>, other: seq<Byte>)
    requires CrcHolds(body) && |other| == |body|
    requires Odd(Xor(BitString(body), BitString(other)))
    ensures Checked(other) == Err(BadCRC)
  {
    CrcHoldsIffDivisible(body);
    CrcHoldsIffDivisible(other);
    OddErrorDetected(Ones(), BitString(body), BitString(other));
  }

  /** Two flipped bits get through exactly when they are a multiple of 32767 bits apart. */
  lemma {:induction false} TwoErrorsRejected(body: seq<Byte>, other: seq<Byte>, i: nat, j: nat)
    requires CrcHolds(body) && |other| == |body|
    requires AshCrcPeriod.DifferAt(BitString(body), BitString(other), i, j)
    ensures Checked(other) == Err(BadCRC) <==> (j - i) % 32767 != 0
  {
    CrcHoldsIffDivisible(body);
    CrcHoldsIffDivisible(other);
    AshCrcPeriod.TwoErrors(Ones(), BitString(body), BitString(other), i, j);
  }

  /** Up to three flipped bits, wherever they fall in a body of up to 4095 bytes, are
      rejected: many times the 256 the scanner lets through. */
  lemma {:induction false} FewErrorsRejected(body: seq<Byte>, other: seq<Byte>)
    requires CrcHolds(body) && |other| == |body| <= 4095
    requires 0 < Weight(Xor(BitString(body), BitString(other))) <= 3
    ensures Checked(other) == Err(BadCRC)
  {
    var d := Xor(BitString(body), BitString(other));
    WeightParity(d);
    if Weight(d) == 2 {
      var i, j := WeightTwo(d);
      assert forall k | 0 <= k < |d| :: d[k] <==> BitString(body)[k] != BitString(other)[k];
      TwoErrorsRejected(body, other, i, j);
    } else {
      OddErrorRejected(body, other);
    }
  }
}
