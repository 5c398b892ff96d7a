/** The wire format of internal/ash/frame.go bit by bit, and what its tests know of it. */
module AshWire {
  import opened AshWords
  import opened AshCrc
  import W = AshCrcWord
  import opened AshFrame
  import opened Wrappers

  // ----- The register as a sixteen-bit number, as the code holds it.

  lemma ShiftedIs(w: W.Word)
    ensures W.Shifted(w) == w << 1
    ensures W.High(w) <==> w & 0x8000 != 0
  {
  }

  lemma {:induction false} TopFour(w: W.Word)
    ensures var v := W.Shifted(w); var u := W.Shifted(v); var t := W.Shifted(u);
      W.Top(w, 4) == [W.High(w), W.High(v), W.High(u), W.High(t)] && W.Shifts(w, 4) == W.Shifted(t)
  {
    hide W.High, W.Shifted;
    var v := W.Shifted(w);
    var u := W.Shifted(v);
    W.TopFirst(w, 3);
    W.TopFirst(v, 2);
    W.TopFirst(u, 1);
    W.TopFirst(W.Shifted(u), 0);
  }

  lemma {:induction false} PairTop(h: Byte, l: Byte)
    ensures W.Top(Pair(h, l), 8) == Bits(h) && W.Shifts(Pair(h, l), 8) == Pair(l, 0)
  {
    hide W.Top, W.Shifts, W.High, W.Shifted, Pair;
    var w := Pair(h, l);
    var v := W.Shifts(w, 4);
    W.TopSplit(w, 4, 4);
    W.ShiftsAdd(w, 4, 4);
    TopFour(w);
    TopFour(v);
    var w1 := W.Shifted(w);
    var w2 := W.Shifted(w1);
    var w3 := W.Shifted(w2);
    var w5 := W.Shifted(v);
    var w6 := W.Shifted(w5);
    var w7 := W.Shifted(w6);
    ShiftedIs(w);
    ShiftedIs(w1);
    ShiftedIs(w2);
    ShiftedIs(w3);
    ShiftedIs(v);
    ShiftedIs(w5);
    ShiftedIs(w6);
    ShiftedIs(w7);
    HighByte(h, l);
  }

  /** A word's bits are those of its two bytes, the high byte first. */
  lemma {:induction false} PairBits(h: Byte, l: Byte)
    ensures W.Bits(Pair(h, l)) == Bits(h) + Bits(l)
  {
    hide W.Top, W.Shifts, Bits, Pair;
    PairTop(h, l);
    PairTop(l, 0);
    W.TopSplit(Pair(h, l), 8, 8);
  }

  function TurnedTimes(w: W.Word, n: nat): W.Word
    decreases n
  {
    if n == 0 then w else TurnedTimes(W.TurnedWord(w), n - 1)
  }

  lemma {:induction false} TurnedTimesBits(w: W.Word, n: nat)
    ensures W.Bits(TurnedTimes(w, n)) == Turns(W.Bits(w), n)
    decreases n
  {
    hide W.Bits, W.TurnedWord, Turn;
    if n > 0 {
      W.BitsTurned(w);
      TurnedTimesBits(W.TurnedWord(w), n - 1);
    }
  }

  /** One byte taken into the word. */
  function Taken(w: W.Word, b: Byte): W.Word {
    TurnedTimes(W.Sum(w, Pair(b, 0)), 8)
  }

  /** The checksum on words. */
  function CrcWord(data: seq<Byte>): W.Word {
    if data == [] then 0xFFFF else Taken(CrcWord(data[..|data| - 1]), data[|data| - 1])
  }

  lemma {:induction false} NoBits()
    ensures Bits(0) == Zeros(8)
  {
  }

  lemma {:induction false} AllBits()
    ensures Bits(0xFF) + Bits(0xFF) == Ones() && Pair(0xFF, 0xFF) == 0xFFFF
  {
  }

  lemma {:induction false} TakenBits(w: W.Word, b: Byte)
    ensures W.Bits(Taken(w, b)) == Feed(W.Bits(w), Bits(b))
  {
    hide W.Bits, W.Sum, Bits, Pair, Turns, Feed, TurnedTimes;
    NoBits();
    PairBits(b, 0);
    W.BitsSum(w, Pair(b, 0));
    Preload(W.Bits(w), Bits(b));
    TurnedTimesBits(W.Sum(w, Pair(b, 0)), 8);
  }

  lemma FeedNothing(r: Register)
    ensures Feed(r, []) == r
  {
  }

  /** The code's sixteen-bit arithmetic is division on the bit string. */
  lemma {:induction false} CrcWordIsCrc(data: seq<Byte>)
    ensures W.Bits(CrcWord(data)) == Crc(data)
  {
    hide W.Bits, Bits, Pair, Feed, Taken, Ones;
    if data == [] {
      AllBits();
      PairBits(0xFF, 0xFF);
      FeedNothing(Ones());
    } else {
      var n := |data| - 1;
      CrcWordIsCrc(data[..n]);
      TakenBits(CrcWord(data[..n]), data[n]);
      FeedAppend(Ones(), BitString(data[..n]), Bits(data[n]));
    }
  }

  /** The two check bytes of a frame are the word's, the high byte first. */
  lemma {:induction false} CheckBytes(f: Frame, h: Byte, l: Byte)
    requires CrcWord(Payload(f)) == Pair(h, l)
    ensures Unstuffed(f) == Payload(f) + [h, l]
  {
    hide Bits, Pair, CrcWord, Crc, W.Bits, ByteOf, Payload;
    CrcWordIsCrc(Payload(f));
    PairBits(h, l);
    var crc := Crc(Payload(f));
    assert crc[..8] == Bits(h) && crc[8..] == Bits(l);
    BitsOfByte(Bits(h));
    BitsOfByte(Bits(l));
    BitsInjective(ByteOf(Bits(h)), h);
    BitsInjective(ByteOf(Bits(l)), l);
  }

  // ----- Where each field stands.

  lemma DataHeaderFields(frm: Byte, ack: Byte, reTx: bool)
    ensures var c, f, a := Bits(DataHeader(frm, ack, reTx)), Bits(frm), Bits(ack);
      && !c[0] && c[1] == f[5] && c[2] == f[6] && c[3] == f[7] && c[4] == reTx
      && c[5] == a[5] && c[6] == a[6] && c[7] == a[7]
  {
    DataFields(frm, ack, reTx);
  }

  /** The control byte bit by bit, the high bit first, for any numbers given. */
  lemma DataLayout(frm: Byte, ack: Byte, reTx: bool)
    ensures Bits(DataHeader(frm, ack, reTx)) == [false] + Bits(frm)[5..] + [reTx] + Bits(ack)[5..]
  {
    hide DataHeader, Bits;
    DataHeaderFields(frm, ack, reTx);
  }

  lemma AckLayout(ack: Byte, notReady: bool)
    ensures Bits(AckHeader(0x80, ack, notReady)) == [true, false, false, notReady, false] + Bits(ack)[5..]
    ensures Bits(AckHeader(0xA0, ack, notReady)) == [true, false, true, notReady, false] + Bits(ack)[5..]
  {
  }

  // ----- Frames the repository's tests know, two of them from a radio.

  lemma {:induction false} OneTurn(w: W.Word, n: nat)
    ensures TurnedTimes(w, n + 1) == TurnedTimes(W.TurnedWord(w), n) && TurnedTimes(w, 0) == w
  {
    hide W.TurnedWord;
  }

  lemma {:induction false} FourTurns(w: W.Word, n: nat)
    ensures TurnedTimes(w, n + 4) == TurnedTimes(W.TurnedWord(W.TurnedWord(W.TurnedWord(W.TurnedWord(w)))), n)
  {
    hide W.TurnedWord, TurnedTimes;
    var a := W.TurnedWord(w);
    var b := W.TurnedWord(a);
    OneTurn(w, n + 3);
    OneTurn(a, n + 2);
    OneTurn(b, n + 1);
    OneTurn(W.TurnedWord(b), n);
  }

  lemma {:induction false} Takes(w: W.Word, b: Byte, x: W.Word, y: W.Word, z: W.Word)
    requires W.Sum(w, Pair(b, 0)) == x
    requires W.TurnedWord(W.TurnedWord(W.TurnedWord(W.TurnedWord(x)))) == y
    requires W.TurnedWord(W.TurnedWord(W.TurnedWord(W.TurnedWord(y)))) == z
    ensures Taken(w, b) == z
  {
    hide W.TurnedWord, TurnedTimes, W.Sum, Pair;
    FourTurns(x, 4);
    FourTurns(y, 0);
    OneTurn(z, 0);
  }

  lemma {:induction false} ResetCrc()
    ensures CrcWord([0xC0]) == 0x38BC
  {
    hide Taken;
    Takes(0xFFFF, 0xC0, 0x3FFF, 0xCF93, 0x38BC);
    assert CrcWord([]) == 0xFFFF && [0xC0][..0] == [];
  }

  lemma {:induction false} ResetAckSteps()
    ensures Taken(0xFFFF, 0xC1) == 0x289D && Taken(0x289D, 0x02) == 0x1828 && Taken(0x1828, 0x02) == 0x9B7B
  {
    hide Taken;
    Takes(0xFFFF, 0xC1, 0x3EFF, 0xDF93, 0x289D);
    Takes(0x289D, 0x02, 0x2A9D, 0x8992, 0x1828);
    Takes(0x1828, 0x02, 0x1A28, 0xB2A1, 0x9B7B);
  }

  lemma {:induction false} VersionSteps()
    ensures Taken(0xFFFF, 0x00) == 0xE1F0 && Taken(0xE1F0, 0x42) == 0x7589 && Taken(0x7589, 0x21) == 0x9371
    ensures Taken(0x9371, 0xA8) == 0xF638 && Taken(0xF638, 0x50) == 0xED2C
  {
    hide Taken;
    Takes(0xFFFF, 0x00, 0xFFFF, 0x0E1F, 0xE1F0);
    Takes(0xE1F0, 0x42, 0xA3F0, 0x9E4A, 0x7589);
    Takes(0x7589, 0x21, 0x5489, 0x1835, 0x9371);
    Takes(0x9371, 0xA8, 0x3B71, 0x8773, 0xF638);
    Takes(0xF638, 0x50, 0xA638, 0xC2CA, 0xED2C);
  }

  lemma {:induction false} CrcSnoc(data: seq<Byte>, b: Byte)
    ensures CrcWord(data + [b]) == Taken(CrcWord(data), b)
  {
    hide Taken;
    assert (data + [b])[..|data|] == data;
  }

  lemma {:induction false} ResetAckCrc()
    ensures CrcWord([0xC1, 0x02, 0x02]) == 0x9B7B
  {
    hide Taken;
    ResetAckSteps();
    var start: seq<Byte> := [];
    CrcSnoc(start, 0xC1);
    CrcSnoc(start + [0xC1], 0x02);
    CrcSnoc(start + [0xC1] + [0x02], 0x02);
    assert start + [0xC1] + [0x02] + [0x02] == [0xC1, 0x02, 0x02];
  }

  lemma {:induction false} VersionCrc()
    ensures CrcWord([0x00, 0x42, 0x21, 0xA8, 0x50]) == 0xED2C
  {
    hide Taken;
    VersionSteps();
    var start: seq<Byte> := [];
    CrcSnoc(start, 0x00);
    CrcSnoc(start + [0x00], 0x42);
    CrcSnoc(start + [0x00] + [0x42], 0x21);
    CrcSnoc(start + [0x00] + [0x42] + [0x21], 0xA8);
    CrcSnoc(start + [0x00] + [0x42] + [0x21] + [0xA8], 0x50);
    assert start + [0x00] + [0x42] + [0x21] + [0xA8] + [0x50] == [0x00, 0x42, 0x21, 0xA8, 0x50];
  }

  lemma {:induction false} KeyStart()
    ensures Key(0) == 0x42 && Key(1) == 0x21 && Key(2) == 0xA8 && Key(3) == 0x54
  {
    assert Key(1) == Lfsr(0x42) == 0x21;
    assert Key(2) == Lfsr(0x21) == 0xA8;
  }

  lemma {:induction false} RandomizedSnoc(data: seq<Byte>, b: Byte)
    ensures Randomized(data + [b]) == Randomized(data) + [Mixed(b, Key(|data|))]
  {
    hide Mixed, Key;
    assert (data + [b])[..|data|] == data;
  }

  lemma MixedStart()
    ensures Mixed(0, 0x42) == 0x42 && Mixed(0, 0x21) == 0x21 && Mixed(0, 0xA8) == 0xA8 && Mixed(4, 0x54) == 0x50
  {
  }

  lemma {:induction false} VersionWhitened()
    ensures Randomized([0x00, 0x00, 0x00, 0x04]) == [0x42, 0x21, 0xA8, 0x50]
  {
    hide Mixed, Key;
    KeyStart();
    MixedStart();
    var start: seq<Byte> := [];
    RandomizedSnoc(start, 0x00);
    RandomizedSnoc(start + [0x00], 0x00);
    RandomizedSnoc(start + [0x00] + [0x00], 0x00);
    RandomizedSnoc(start + [0x00] + [0x00] + [0x00], 0x04);
    assert start + [0x00] + [0x00] + [0x00] + [0x04] == [0x00, 0x00, 0x00, 0x04];
  }

  lemma {:induction false} NothingEscaped(body: seq<Byte>)
    requires forall b | b in body :: !NeedsEscape(b)
    ensures Escaped(body) == body
  {
    hide NeedsEscape, Mixed;
    if body != [] {
      NothingEscaped(body[1..]);
      assert body == [body[0]] + body[1..];
    }
  }

  lemma {:induction false} EscapedCons(b: Byte, rest: seq<Byte>)
    ensures Escaped([b] + rest) == (if NeedsEscape(b) then [ESCAPE, Mixed(b, ESCAPE_MASK)] else [b]) + Escaped(rest)
  {
    hide NeedsEscape, Mixed;
    assert ([b] + rest)[1..] == rest;
  }

  lemma ReservedMixed()
    ensures Mixed(0x7E, ESCAPE_MASK) == 0x5E && Mixed(0x7D, ESCAPE_MASK) == 0x5D && Mixed(0x11, ESCAPE_MASK) == 0x31
    ensures Mixed(0x13, ESCAPE_MASK) == 0x33 && Mixed(0x18, ESCAPE_MASK) == 0x38 && Mixed(0x1A, ESCAPE_MASK) == 0x3A
  {
  }

  /** What stands for each reserved byte on the wire, whatever follows; every other byte stands
      for itself. */
  lemma {:induction false} EscapeTable(b: Byte, rest: seq<Byte>)
    ensures var wire := Escaped([b] + rest);
      wire == (if b == 0x7E then [0x7D, 0x5E] else if b == 0x7D then [0x7D, 0x5D] else if b == 0x11 then [0x7D, 0x31]
               else if b == 0x13 then [0x7D, 0x33] else if b == 0x18 then [0x7D, 0x38]
               else if b == 0x1A then [0x7D, 0x3A] else [b]) + Escaped(rest)
  {
    hide Mixed, Escaped;
    EscapedCons(b, rest);
    ReservedMixed();
  }

  lemma PairsKnown()
    ensures Pair(0x38, 0xBC) == 0x38BC && Pair(0xED, 0x2C) == 0xED2C && Pair(0x9B, 0x7B) == 0x9B7B
    ensures DataHeader(0, 0, false) == 0
  {
  }

  lemma {:induction false} PlainFrame(f: Frame, h: Byte, l: Byte, wire: seq<Byte>)
    requires |f.data| <= MAX_FRAME_LEN && CrcWord(Payload(f)) == Pair(h, l)
    requires forall b | b in Payload(f) + [h, l] :: !NeedsEscape(b)
    requires wire == Payload(f) + [h, l, FLAG]
    ensures Encoded(f) == Ok(wire)
  {
    hide NeedsEscape, Escaped, Unstuffed, CrcWord, Pair, Payload;
    CheckBytes(f, h, l);
    NothingEscaped(Unstuffed(f));
    assert (Payload(f) + [h, l]) + [FLAG] == Payload(f) + [h, l, FLAG];
  }

  /** The request to reset, a radio's answer to it, and the first command sent after that. */
  lemma {:induction false} KnownFrames()
    ensures Encoded(Blank(FrameRST)) == Ok([0xC0, 0x38, 0xBC, 0x7E])
    ensures Encoded(Blank(FrameRSTACK).(data := [0x02, 0x02])) == Ok([0xC1, 0x02, 0x02, 0x9B, 0x7B, 0x7E])
    ensures Encoded(Frame(FrameData, 0, 0, false, false, [0x00, 0x00, 0x00, 0x04]))
      == Ok([0x00, 0x42, 0x21, 0xA8, 0x50, 0xED, 0x2C, 0x7E])
  {
    hide Encoded, Randomized, CrcWord, Pair, DataHeader;
    PairsKnown();
    var reset, reply := Blank(FrameRST), Blank(FrameRSTACK).(data := [0x02, 0x02]);
    var version := Frame(FrameData, 0, 0, false, false, [0x00, 0x00, 0x00, 0x04]);
    ResetCrc();
    assert Payload(reset) == [0xC0];
    PlainFrame(reset, 0x38, 0xBC, [0xC0, 0x38, 0xBC, 0x7E]);
    ResetAckCrc();
    assert Payload(reply) == [0xC1, 0x02, 0x02];
    PlainFrame(reply, 0x9B, 0x7B, [0xC1, 0x02, 0x02, 0x9B, 0x7B, 0x7E]);
    VersionWhitened();
    VersionCrc();
    assert Payload(version) == [0x00, 0x42, 0x21, 0xA8, 0x50];
    PlainFrame(version, 0xED, 0x2C, [0x00, 0x42, 0x21, 0xA8, 0x50, 0xED, 0x2C, 0x7E]);
  }

  // ----- What Decode accepts.

  lemma DataControlBack(c: Byte)
    requires c & 0x80 == 0
    ensures DataHeader((c >> 4) & 0x07, c & 0x07, c & 0x08 != 0) == c
    ensures ((c >> 4) & 0x07) & 0x07 == (c >> 4) & 0x07 && (c & 0x07) & 0x07 == c & 0x07
  {
  }

  lemma AckControlBack(c: Byte, base: Byte)
    requires (base == 0x80 || base == 0xA0) && c & 0xE0 == base
    ensures AckHeader(base, c & 0x07, c & 0x10 != 0) == c <==> c & 0x08 == 0
    ensures (c & 0x07) & 0x07 == c & 0x07
  {
  }

  lemma {:induction false} SumBytes(body: seq<Byte>)
    requires |body| >= 3 && Checked(body) != Err(BadCRC)
    ensures var payload, crc := body[..|body| - 2], Crc(body[..|body| - 2]);
      payload + [ByteOf(crc[..8]), ByteOf(crc[8..])] == body
  {
    hide Crc, Bits, ByteOf, Parsed;
    var sum := body[|body| - 2..];
    var crc := Crc(body[..|body| - 2]);
    assert crc[..8] == Bits(sum[0]) && crc[8..] == Bits(sum[1]);
    BitsOfByte(crc[..8]);
    BitsOfByte(crc[8..]);
    BitsInjective(ByteOf(crc[..8]), sum[0]);
    BitsInjective(ByteOf(crc[8..]), sum[1]);
  }

  lemma {:induction false} ParsedBack(payload: seq<Byte>, f: Frame)
    requires payload != [] && Parsed(payload) == Ok(f)
    ensures Carried(f) == f
    ensures Payload(f) == payload <==>
      f.kind == FrameData || f.kind == FrameRSTACK || f.kind == FrameError
      || (|payload| == 1 && payload[0] & 0x08 == 0)
  {
    hide Randomized, Mixed, Key, DataHeader, AckHeader;
    var c, data := payload[0], payload[1..];
    assert payload == [c] + data;
    if c & 0x80 == 0 {
      DataControlBack(c);
      RandomizeTwice(data);
    } else if c & 0xE0 == 0x80 {
      AckControlBack(c, 0x80);
    } else if c & 0xE0 == 0xA0 {
      AckControlBack(c, 0xA0);
    }
  }

  /** A frame that Decode reads is written back as the same bytes, unless it is of a kind that
      carries nothing further and yet had something: more bytes, or the bit that acknowledgements
      leave unused. */
  lemma {:induction false} AcceptedIsWritten(body: seq<Byte>, f: Frame)
    requires Checked(body) == Ok(f)
    ensures Carried(f) == f
    ensures Unstuffed(f) == body <==>
      f.kind == FrameData || f.kind == FrameRSTACK || f.kind == FrameError || (|body| == 3 && body[0] & 0x08 == 0)
  {
    hide Crc, Parsed, Payload, ByteOf, Bits;
    var payload := body[..|body| - 2];
    SumBytes(body);
    ParsedBack(payload, f);
    assert Unstuffed(f)[..|Unstuffed(f)| - 2] == Payload(f);
    assert payload[0] == body[0];
  }

  lemma DataHeaderLow(frm: Byte, ack: Byte, reTx: bool)
    ensures DataHeader(frm, ack, reTx) & 0x80 == 0
  {
  }

  lemma AckHeaderBase(base: Byte, ack: Byte, notReady: bool)
    requires base == 0x80 || base == 0xA0
    ensures AckHeader(base, ack, notReady) & 0xE0 == base
  {
  }

  /** With its check bytes right, a body is refused only for a control byte that no frame has. */
  lemma {:induction false} RefusedIsForeign(body: seq<Byte>, g: Frame)
    requires Checked(body) == Err(UnknownControl)
    ensures ControlByte(g) != body[0]
  {
    hide Crc, Bits, DataHeader, AckHeader, Randomized;
    assert body[..|body| - 2][0] == body[0];
    match g.kind {
      case FrameData => DataHeaderLow(g.frmNum, g.ackNum, g.reTx);
      case FrameACK => AckHeaderBase(0x80, g.ackNum, g.notReady);
      case FrameNAK => AckHeaderBase(0xA0, g.ackNum, g.notReady);
      case _ =>
    }
  }
}
