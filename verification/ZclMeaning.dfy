/** What attribute values are and which are accepted, by the arithmetic of their type codes
    and place values, and what a device may answer about its reporting configurations. */
module ZclMeaning {
  import opened ZclBytes
  import opened ZclValue
  import opened ZclFrame
  import opened ZclReporting
  import opened Wrappers

  // ----- Numbers by place value.

  function Power(n: nat): nat {
    if n == 0 then 1 else 256 * Power(n - 1)
  }

  /** The first n bytes, each at its place. */
  function Weighted(s: seq<u8>, n: nat): nat
    requires n <= |s|
  {
    if n == 0 then 0 else Weighted(s, n - 1) + s[n - 1] * Power(n - 1)
  }

  lemma {:induction false} SpanIsPower(n: nat)
    ensures Span(n) == Power(n)
  {
    if n > 0 {
      SpanIsPower(n - 1);
    }
  }

  lemma {:induction false} ValueSnoc(b: seq<u8>, x: u8)
    ensures Value(b + [x]) == Value(b) + x * Power(|b|)
  {
    if b == [] {
      assert ([] + [x])[1..] == [];
    } else {
      assert (b + [x])[1..] == b[1..] + [x];
      ValueSnoc(b[1..], x);
      assert 256 * (x * Power(|b| - 1)) == x * Power(|b|);
    }
  }

  /** The byte at each place counts 256 times the one before it. */
  lemma {:induction false} ByPlaces(s: seq<u8>, n: nat)
    requires n <= |s|
    ensures Value(s[..n]) == Weighted(s, n)
  {
    if n > 0 {
      ByPlaces(s, n - 1);
      ValueSnoc(s[..n - 1], s[n - 1]);
      assert s[..n - 1] + [s[n - 1]] == s[..n];
    }
  }

  // ----- Values by type code.

  /** Numbered types come in rows: the code says how many bytes. */
  function UnsignedWidth(t: DataType): Option<nat> {
    if 0x20 <= t <= 0x25 && t != 0x24 then Some(t - 0x1F)
    else if 0x18 <= t <= 0x1B && t != 0x1A then Some(t - 0x17)
    else if 0x30 <= t <= 0x31 then Some(t - 0x2F)
    else if t == 0x08 then Some(1)
    else if t == 0xE2 then Some(4)
    else None
  }

  function SignedWidth(t: DataType): Option<nat> {
    if 0x28 <= t <= 0x2B then Some(t - 0x27) else None
  }

  lemma {:induction false} CodeKinds(t: DataType)
    ensures forall w: nat :: KindOf(t) == Natural(w) <==> UnsignedWidth(t) == Some(w)
    ensures forall w: nat :: KindOf(t) == Integer(w) <==> SignedWidth(t) == Some(w)
  {
  }

  /** Unsigned numbers of every type are read at the width of their code. */
  lemma {:induction false} UnsignedRead(s: seq<u8>, t: DataType)
    requires UnsignedWidth(t).Some?
    ensures var w := UnsignedWidth(t).value;
      ParseValue(s, t) == if |s| < w then Err(Truncated) else Ok(Parse(Uint(Weighted(s, w)), w))
  {
    CodeKinds(t);
    assert KindOf(t) == Natural(UnsignedWidth(t).value);
    if |s| >= UnsignedWidth(t).value {
      ByPlaces(s, UnsignedWidth(t).value);
    }
  }

  /** And signed ones, the upper half of their range standing for negative numbers. */
  lemma {:induction false} SignedRead(s: seq<u8>, t: DataType)
    requires SignedWidth(t).Some?
    ensures var w := SignedWidth(t).value;
      if |s| < w then ParseValue(s, t) == Err(Truncated)
      else
        var n := Weighted(s, w);
        n < Power(w) && ParseValue(s, t) == Ok(Parse(Int(if 2 * n < Power(w) then n else n - Power(w)), w))
  {
    CodeKinds(t);
    var w := SignedWidth(t).value;
    assert KindOf(t) == Integer(w);
    SpanIsPower(w);
    if |s| >= w {
      ByPlaces(s, w);
      BytesOfValue(s[..w]);
    }
  }

  /** Everything else that can be read, and that nothing more can. */
  lemma {:induction false} OthersRead(s: seq<u8>, t: DataType)
    requires UnsignedWidth(t).None? && SignedWidth(t).None?
    ensures t == 0x00 ==> ParseValue(s, t) == Ok(Parse(Absent, 0))
    ensures t == 0x10 ==>
      ParseValue(s, t) ==
        if s == [] then Err(Truncated) else Ok(Parse(if s[0] == 255 then Absent else Truth(s[0] != 0), 1))
    ensures t == 0x39 && |s| < 4 ==> ParseValue(s, t) == Err(Truncated)
    ensures t == 0x39 && |s| >= 4 ==>
      Weighted(s, 4) < 0x1_0000_0000 && ParseValue(s, t) == Ok(Parse(Single(Weighted(s, 4)), 4))
    ensures t == 0xF0 ==> ParseValue(s, t) == (if |s| < 8 then Err(Truncated) else Ok(Parse(Raw(s[..8]), 8)))
    ensures t == 0x41 || t == 0x42 ==>
      ParseValue(s, t) ==
        if s == [] then Err(Truncated)
        else if s[0] == 255 then Ok(Parse(Absent, 1))
        else if |s| <= s[0] then Err(Truncated)
        else Ok(Parse(if t == 0x42 then Str(s[1..1 + s[0]]) else Raw(s[1..1 + s[0]]), 1 + s[0]))
    ensures ParseValue(s, t) == Err(Unsupported(t)) <==> t !in {0x00, 0x10, 0x39, 0x41, 0x42, 0xF0}
  {
    CodeKinds(t);
    if |s| >= 4 {
      ByPlaces(s, 4);
      BytesOfValue(s[..4]);
      SpanValues();
    }
    if s != [] {
      ValueOfOne(s);
    }
  }

  /** What asks for a reportable change: counts, measures and times, but no flags, names or
      choices. */
  lemma {:induction false} AnalogCodes(t: DataType)
    requires KindOf(t) != Unknown
    ensures Analog(t) <==>
      KindOf(t).Float? || KindOf(t).Integer? || (UnsignedWidth(t).Some? && (t / 16 == 2 || t == 0xE2))
  {
    CodeKinds(t);
  }

  // ----- What is accepted.

  predicate ForUnsigned(v: Any) {
    v.U64? || v.U32? || v.U16? || v.U8? || v.GoInt? || v.I64?
  }

  predicate ForSigned(v: Any) {
    v.I64? || v.I32? || v.I16? || v.I8? || v.GoInt? || v.U64?
  }

  lemma {:induction false} NaturalAccepted(v: Any, w: nat)
    requires 1 <= w <= 6
    ensures EncodeNatural(v, w).Ok? <==> ForUnsigned(v) && 0 <= Number(v).value < Span(w)
  {
  }

  lemma {:induction false} IntegerAccepted(v: Any, w: nat)
    requires 1 <= w <= 4
    ensures EncodeInteger(v, w).Ok? <==>
      ForSigned(v) &&
      var n := if v.U64? && v.u >= 0x8000_0000_0000_0000 then v.u - 0x1_0000_0000_0000_0000 else Number(v).value;
      -2 * n <= Span(w) && 2 * n < Span(w)
  {
  }

  /** A number is accepted for an unsigned type exactly if it is in the type's range. */
  lemma {:induction false} UnsignedAccepted(t: DataType, v: Any, round: Rounding)
    requires UnsignedWidth(t).Some?
    ensures EncodeValue(t, v, round).Ok? <==> ForUnsigned(v) && 0 <= Number(v).value < Power(UnsignedWidth(t).value)
  {
    hide KindOf, UnsignedWidth, EncodeNatural, ForUnsigned, Number, Span, Power;
    CodeKinds(t);
    assert KindOf(t) == Natural(UnsignedWidth(t).value);
    NaturalAccepted(v, UnsignedWidth(t).value);
    SpanIsPower(UnsignedWidth(t).value);
  }

  /** And for a signed one exactly if it is in range once a uint64 is taken modulo 2^64. */
  lemma {:induction false} SignedAccepted(t: DataType, v: Any, round: Rounding)
    requires SignedWidth(t).Some?
    ensures EncodeValue(t, v, round).Ok? <==>
      ForSigned(v) &&
      var n := if v.U64? && v.u >= 0x8000_0000_0000_0000 then v.u - 0x1_0000_0000_0000_0000 else Number(v).value;
      -2 * n <= Power(SignedWidth(t).value) && 2 * n < Power(SignedWidth(t).value)
  {
    hide KindOf, SignedWidth, EncodeInteger, ForSigned, Number, Span, Power;
    CodeKinds(t);
    assert KindOf(t) == Integer(SignedWidth(t).value);
    IntegerAccepted(v, SignedWidth(t).value);
    SpanIsPower(SignedWidth(t).value);
  }

  lemma {:induction false} OthersAccepted(t: DataType, v: Any, round: Rounding)
    requires UnsignedWidth(t).None? && SignedWidth(t).None?
    ensures EncodeValue(t, v, round).Ok? <==>
      || (t == 0x10 && v.IsBool?) || (t == 0x39 && round(v).Some?)
      || ((t == 0x41 || t == 0x42) && ((v.IsString? && |v.chars| <= 254) || (v.IsBytes? && |v.bytes| <= 254)))
  {
    CodeKinds(t);
  }

  /** A configuration may disable reporting or bound it; what it may not is reverse its bounds,
      or lack a change that its type needs. */
  predicate Acceptable(cfg: Config, round: Rounding) {
    && (cfg.max == 0xFFFF || cfg.min <= cfg.max)
    && (Analog(cfg.kind) ==> cfg.change != Nil && EncodeValue(cfg.kind, cfg.change, round).Ok?)
  }

  /** A request is built exactly if every configuration in it is acceptable, and reversed bounds
      are what is blamed for one exactly if it has them. */
  lemma {:induction false} ConfigsAccepted(cfgs: seq<Config>, round: Rounding)
    ensures EncodeConfigs(cfgs, round).Ok? <==> forall i | 0 <= i < |cfgs| :: Acceptable(cfgs[i], round)
  {
    if cfgs != [] {
      ConfigsAccepted(cfgs[1..], round);
      assert EncodeConfig(cfgs[0], round).Ok? <==> Acceptable(cfgs[0], round);
      assert forall i | 0 < i < |cfgs| :: cfgs[i] == cfgs[1..][i - 1];
      assert forall i | 0 <= i < |cfgs| - 1 :: cfgs[1..][i] == cfgs[i + 1];
    }
  }

  lemma {:induction false} ConfigRefused(cfg: Config, round: Rounding)
    ensures EncodeConfig(cfg, round) == Err(IntervalsReversed) <==> cfg.max < cfg.min && cfg.max < 0xFFFF
    ensures EncodeConfig(cfg, round) == Err(ChangeMissing) ==> Analog(cfg.kind) && cfg.change == Nil
  {
  }

  // ----- What a device may answer.

  /** Each attribute asked about is answered on its own. */
  datatype Told =
    | Refused(id: u16, status: u8, direction: u8)
    | Receiving(id: u16, direction: u8, timeout: u16)
    | Sending(cfg: Config)

  predicate Sensible(t: Told, round: Rounding) {
    match t
    case Refused(_, status, _) => status != 0
    case Receiving(_, direction, _) => direction != 0
    case Sending(cfg) => EncodeConfig(cfg, round).Ok?
  }

  function Wire(t: Told, round: Rounding): seq<u8>
    requires Sensible(t, round)
  {
    match t
    case Refused(id, status, direction) => [status, direction] + Bytes(id, 2)
    case Receiving(id, direction, timeout) => [0, direction] + Bytes(id, 2) + Bytes(timeout, 2)
    case Sending(cfg) => [0] + EncodeConfig(cfg, round).value
  }

  function Heard(t: Told, round: Rounding): Status
    requires Sensible(t, round)
  {
    match t
    case Refused(id, status, _) => Status(id, status, 0, 0, 0, [])
    case Receiving(id, _, _) => Status(id, 0, 0, 0, 0, [])
    case Sending(cfg) => Held(cfg, round)
  }

  function WireAll(ts: seq<Told>, round: Rounding): seq<u8>
    requires forall t | t in ts :: Sensible(t, round)
  {
    if ts == [] then [] else Wire(ts[0], round) + WireAll(ts[1..], round)
  }

  function HeardAll(ts: seq<Told>, round: Rounding): seq<Status>
    requires forall t | t in ts :: Sensible(t, round)
  {
    if ts == [] then [] else [Heard(ts[0], round)] + HeardAll(ts[1..], round)
  }

  lemma {:induction false} ToldRead(t: Told, round: Rounding, rest: seq<u8>)
    requires Sensible(t, round)
    ensures ParseStatus(Wire(t, round) + rest) == Turn([Heard(t, round)], |Wire(t, round)|, None)
  {
    match t {
      case Sending(cfg) => EchoOne(cfg, round, rest);
      case Refused(id, _, _) =>
        hide Bytes, Pair;
        PairOfBytes(id);
        var s := Wire(t, round) + rest;
        assert s[2] == Bytes(id, 2)[0] && s[3] == Bytes(id, 2)[1];
      case Receiving(id, _, _) =>
        hide Bytes, Pair;
        PairOfBytes(id);
        var s := Wire(t, round) + rest;
        assert s[2] == Bytes(id, 2)[0] && s[3] == Bytes(id, 2)[1];
    }
  }

  /** Any mixture of answers is read as those answers, in order. */
  lemma {:induction false} AnswersRoundTrip(ts: seq<Told>, round: Rounding)
    requires forall t | t in ts :: Sensible(t, round)
    ensures ParseStatuses(WireAll(ts, round)) == Statuses(HeardAll(ts, round), None)
  {
    hide Wire, Heard, ParseStatus;
    if ts != [] {
      var first, rest := Wire(ts[0], round), WireAll(ts[1..], round);
      ToldRead(ts[0], round, rest);
      AnswersRoundTrip(ts[1..], round);
      assert (first + rest)[|first|..] == rest && first + rest != [];
    }
  }
}
