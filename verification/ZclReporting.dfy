/** Reporting configurations: what ConfigureReportingRequest sends, and what
    ReadReportingConfigResponse and decodeChange make of a device's echo of it. */
module ZclReporting {
  import opened ZclBytes
  import opened ZclValue
  import opened ZclCursor
  import opened ZclFrame
  import opened Wrappers

  const DISABLED: u16 := 0xFFFF
  const SEND: u8 := 0x00

  datatype Config = Config(id: u16, kind: DataType, min: u16, max: u16, change: Any)

  datatype ConfigError = NoAttributes | IntervalsReversed | ChangeMissing | ChangeRefused(e: EncodeError)

  /** Everything of a configuration but its reportable change. */
  function Head(cfg: Config): (r: seq<u8>)
    ensures |r| == 8
  {
    [SEND] + Bytes(cfg.id, 2) + [cfg.kind] + Bytes(cfg.min, 2) + Bytes(cfg.max, 2)
  }

  function EncodeConfig(cfg: Config, round: Rounding): Result<seq<u8>, ConfigError> {
    if cfg.max != DISABLED && cfg.min > cfg.max then Err(IntervalsReversed)
    else if !Analog(cfg.kind) then Ok(Head(cfg))
    else if cfg.change.Nil? then Err(ChangeMissing)
    else
      match EncodeValue(cfg.kind, cfg.change, round)
      case Err(e) => Err(ChangeRefused(e))
      case Ok(b) => Ok(Head(cfg) + b)
  }

  function Join(done: seq<u8>, r: Result<seq<u8>, ConfigError>): Result<seq<u8>, ConfigError> {
    if r.Ok? then Ok(done + r.value) else r
  }

  function EncodeConfigs(cfgs: seq<Config>, round: Rounding): Result<seq<u8>, ConfigError> {
    if cfgs == [] then Ok([])
    else
      match EncodeConfig(cfgs[0], round)
      case Err(e) => Err(e)
      case Ok(first) => Join(first, EncodeConfigs(cfgs[1..], round))
  }

  lemma JoinTwice(a: seq<u8>, b: seq<u8>, r: Result<seq<u8>, ConfigError>)
    ensures Join(a, Join(b, r)) == Join(a + b, r)
  {
    if r.Ok? {
      assert a + (b + r.value) == (a + b) + r.value;
    }
  }

  method AppendHead(init: seq<u8>, cfg: Config) returns (out: seq<u8>)
    ensures out == init + Head(cfg)
  {
    out := init + [SEND];
    out := AppendUint(out, cfg.id, 2);
    out := out + [cfg.kind];
    out := AppendUint(out, cfg.min, 2);
    out := AppendUint(out, cfg.max, 2);
  }

  /** One turn of the loop in ConfigureReportingRequest. */
  method AppendConfig(init: seq<u8>, cfg: Config, round: Rounding) returns (r: Result<seq<u8>, ConfigError>)
    ensures r == Join(init, EncodeConfig(cfg, round))
  {
    if cfg.max != DISABLED && cfg.min > cfg.max {
      return Err(IntervalsReversed);
    }
    var out := AppendHead(init, cfg);
    if !Analog(cfg.kind) {
      return Ok(out);
    }
    if cfg.change.Nil? {
      return Err(ChangeMissing);
    }
    var encoded := EncodeValue(cfg.kind, cfg.change, round);
    if encoded.Err? {
      return Err(ChangeRefused(encoded.error));
    }
    JoinTwice(init, Head(cfg), Ok(encoded.value));
    r := Ok(out + encoded.value);
  }

  method ConfigureReportingRequest(sequence: u8, configs: seq<Config>, round: Rounding)
    returns (r: Result<seq<u8>, ConfigError>)
    ensures r == if configs == [] then Err(NoAttributes)
                 else Join([0x00, sequence, CMD_CONFIGURE_REPORTING], EncodeConfigs(configs, round))
  {
    if configs == [] {
      return Err(NoAttributes);
    }
    var out: seq<u8> := [0x00, sequence, CMD_CONFIGURE_REPORTING];
    ghost var all := Join(out, EncodeConfigs(configs, round));
    for i := 0 to |configs|
      invariant all == Join(out, EncodeConfigs(configs[i..], round))
    {
      assert configs[i..][1..] == configs[i + 1..];
      var next := AppendConfig(out, configs[i], round);
      if next.Err? {
        return next;
      }
      JoinTwice(out, EncodeConfig(configs[i], round).value, EncodeConfigs(configs[i + 1..], round));
      out := next.value;
    }
    assert out + [] == out;
    r := Ok(out);
  }

  // ----- Reading a device's configuration back.

  datatype Status = Status(id: u16, status: u8, kind: DataType, min: u16, max: u16, change: seq<u8>)

  /** One turn of the reading loop: what it records, how far it reads, and why it stops. */
  datatype Turn = Turn(found: seq<Status>, length: nat, err: Option<ReadError>)

  /** The configuration behind a record's first four bytes. */
  function ParseHeld(s: seq<u8>, bare: Status): (r: Turn)
    ensures r.err.None? ==> r.length <= |s|
  {
    if |s| < 5 then Turn([], 0, Some(Truncated))
    else
      var st := bare.(kind := s[0], min := Pair(s[1], s[2]), max := Pair(s[3], s[4]));
      if !Analog(s[0]) then Turn([st], 5, None)
      else
        match ParseValue(s[5..], s[0])
        case Err(e) => Turn([], 0, Some(e))
        case Ok(p) => Turn([st.(change := s[5..][..p.length])], 5 + p.length, None)
  }

  function ParseStatus(s: seq<u8>): (r: Turn)
    ensures r.err.None? ==> 0 < r.length <= |s|
  {
    if |s| < 4 then Turn([], 0, Some(Truncated))
    else
      var status, direction := s[0], s[1];
      var bare := Status(Pair(s[2], s[3]), status, 0, 0, 0, []);
      if status != SUCCESS then Turn([bare], 4, None)
      else if direction != SEND then
        // The timeout behind it is skipped, and the record kept even if that is cut short.
        if |s| < 6 then Turn([bare], 0, Some(Truncated)) else Turn([bare], 6, None)
      else
        var t := ParseHeld(s[4..], bare);
        t.(length := 4 + t.length)
  }

  /** A record is kept although reading it failed exactly when it is a successful one of the
      receiving direction whose timeout is cut short. */
  lemma {:induction false} KeptDespiteError(s: seq<u8>)
    ensures var t := ParseStatus(s);
      t.err.Some? && t.found != [] <==> 4 <= |s| < 6 && s[0] == SUCCESS && s[1] != SEND
  {
  }

  datatype Statuses = Statuses(found: seq<Status>, err: Option<ReadError>)

  function ParseStatuses(s: seq<u8>): Statuses
    decreases |s|
  {
    if s == [] then Statuses([], None)
    else
      var t := ParseStatus(s);
      if t.err.Some? then Statuses(t.found, t.err)
      else
        var rest := ParseStatuses(s[t.length..]);
        Statuses(t.found + rest.found, rest.err)
  }

  /** For one, with one byte of a timeout for attribute 4. */
  lemma {:induction false} CutShortKept()
    ensures ParseStatuses([SUCCESS, 1, 4, 0, 9]) == Statuses([Status(4, SUCCESS, 0, 0, 0, [])], Some(Truncated))
  {
  }

  ghost function Pending(c: Cursor): Statuses
    requires c.Valid()
    reads c
  {
    if c.err.Some? then Statuses([], c.err) else ParseStatuses(c.Rest())
  }

  function Past(done: seq<Status>, r: Statuses): Statuses {
    Statuses(done + r.found, r.err)
  }

  lemma PastTwice(a: seq<Status>, b: seq<Status>, r: Statuses)
    ensures Past(a, Past(b, r)) == Past(a + b, r)
  {
  }

  method ReadByte(c: Cursor) returns (v: u8)
    requires c.Valid()
    modifies c
    ensures c.Valid()
    ensures old(c.err).None? && 1 <= |old(c.Rest())| ==> c.err.None? && c.pos == old(c.pos) + 1 && v == old(c.Rest())[0]
    ensures old(c.err).None? && 1 > |old(c.Rest())| ==> c.err == Some(Truncated) && v == 0
    ensures old(c.err).Some? ==> c.err == old(c.err) && v == 0
    ensures c.err.Some? ==> c.pos == old(c.pos)
  {
    SpanValues();
    if c.Rest() != [] { ValueOfOne(c.Rest()); }
    v := c.Number(1);
  }

  method ReadPair(c: Cursor) returns (v: u16)
    requires c.Valid()
    modifies c
    ensures c.Valid()
    ensures old(c.err).None? && 2 <= |old(c.Rest())| ==>
      c.err.None? && c.pos == old(c.pos) + 2 && v == Pair(old(c.Rest())[0], old(c.Rest())[1])
    ensures old(c.err).None? && 2 > |old(c.Rest())| ==> c.err == Some(Truncated) && v == 0
    ensures old(c.err).Some? ==> c.err == old(c.err) && v == 0
    ensures c.err.Some? ==> c.pos == old(c.pos)
  {
    SpanValues();
    if |c.Rest()| >= 2 { ValueOfTwo(c.Rest()); }
    v := c.Number(2);
  }

  method ReadHeld(c: Cursor, bare: Status) returns (found: seq<Status>)
    requires c.Valid() && c.err.None?
    modifies c
    ensures c.Valid()
    ensures var t := ParseHeld(old(c.Rest()), bare);
      found == t.found && c.err == t.err && (t.err.None? ==> c.pos == old(c.pos) + t.length)
  {
    ghost var s := c.Rest();
    var kind := ReadByte(c);
    var min := ReadPair(c);
    var max := ReadPair(c);
    var st := bare.(kind := kind, min := min, max := max);
    assert c.err.None? ==> |s| >= 5 && c.Rest() == s[5..];
    if Analog(kind) {
      var start := c.pos;
      var value := c.DecodeValue(kind);
      if c.err.Some? {
        return [];
      }
      st := st.(change := c.b[start..c.pos]);
      assert st.change == s[5..][..c.pos - start];
    }
    if c.err.Some? {
      return [];
    }
    found := [st];
  }

  method ReadStatus(c: Cursor) returns (found: seq<Status>)
    requires c.Valid() && c.err.None?
    modifies c
    ensures c.Valid()
    ensures var t := ParseStatus(old(c.Rest()));
      found == t.found && c.err == t.err && (t.err.None? ==> c.pos == old(c.pos) + t.length)
  {
    ghost var s := c.Rest();
    var status := ReadByte(c);
    var direction := ReadByte(c);
    var id := ReadPair(c);
    if c.err.Some? {
      return [];
    }
    assert c.Rest() == s[4..];
    var st := Status(id, status, 0, 0, 0, []);
    if status != SUCCESS {
      return [st];
    }
    if direction != SEND {
      var timeout := ReadPair(c);
      return [st];
    }
    found := ReadHeld(c, st);
  }

  method TakeStatus(c: Cursor) returns (found: seq<Status>)
    requires c.Valid() && c.err.None? && c.Rest() != []
    modifies c
    ensures c.Valid() && (c.err.None? ==> c.pos > old(c.pos))
    ensures old(Pending(c)) == Past(found, Pending(c))
  {
    ghost var s := c.Rest();
    found := ReadStatus(c);
    if c.err.None? {
      assert s[ParseStatus(s).length..] == c.Rest();
    } else {
      assert found + [] == found;
    }
  }

  datatype ResponseError = NotAResponse | Reading(e: ReadError)

  method ReadReportingConfigResponse(f: Frame) returns (out: seq<Status>, err: Option<ResponseError>)
    ensures f.kind != PROFILE_WIDE || f.command != CMD_READ_REPORTING_RESPONSE ==>
      out == [] && err == Some(NotAResponse)
    ensures f.kind == PROFILE_WIDE && f.command == CMD_READ_REPORTING_RESPONSE ==>
      var r := ParseStatuses(f.payload);
      out == r.found && err == if r.err.None? then None else Some(ResponseError.Reading(r.err.value))
  {
    if f.kind != PROFILE_WIDE || f.command != CMD_READ_REPORTING_RESPONSE {
      return [], Some(NotAResponse);
    }
    out := [];
    var c := new Cursor(f.payload);
    assert f.payload[0..] == f.payload;
    ghost var all := ParseStatuses(f.payload);
    assert Past(out, all) == all;
    var left := c.Remaining();
    while left > 0 && c.err.None?
      invariant c.Valid() && fresh(c) && c.b == f.payload
      invariant left == if c.err.Some? then 0 else |c.Rest()|
      invariant all == Past(out, Pending(c))
      decreases c.err.None?, |c.b| - c.pos
    {
      var found := TakeStatus(c);
      PastTwice(out, found, Pending(c));
      out := out + found;
      left := c.Remaining();
    }
    assert out + [] == out;
    err := if c.err.Some? then Some(ResponseError.Reading(c.err.value)) else None;
  }

  predicate Reporting(st: Status) {
    st.status == SUCCESS && st.max != DISABLED
  }

  function ChangeOf(raw: seq<u8>): Option<nat> {
    if |raw| == 0 || |raw| > 8 then None else Some(Value(raw))
  }

  /** decodeChange: little-endian, and nothing for an empty or overlong change. */
  method DecodeChange(raw: seq<u8>) returns (v: Option<nat>)
    ensures v == ChangeOf(raw)
  {
    if |raw| == 0 || |raw| > 8 {
      return None;
    }
    var n := ReadUint(raw);
    v := Some(n);
  }

  // ----- A device that echoes what it was told.

  /** Each configuration record behind a success status. */
  function Echo(cfgs: seq<Config>, round: Rounding): seq<u8>
    requires EncodeConfigs(cfgs, round).Ok?
  {
    if cfgs == [] then []
    else [SUCCESS] + EncodeConfig(cfgs[0], round).value + Echo(cfgs[1..], round)
  }

  /** What a configuration should be read back as. */
  function Held(cfg: Config, round: Rounding): Status
    requires EncodeConfig(cfg, round).Ok?
  {
    Status(cfg.id, SUCCESS, cfg.kind, cfg.min, cfg.max,
           if Analog(cfg.kind) then EncodeValue(cfg.kind, cfg.change, round).value else [])
  }

  function HeldAll(cfgs: seq<Config>, round: Rounding): seq<Status>
    requires EncodeConfigs(cfgs, round).Ok?
  {
    if cfgs == [] then [] else [Held(cfgs[0], round)] + HeldAll(cfgs[1..], round)
  }

  lemma HeadFields(cfg: Config)
    ensures var h := Head(cfg);
      && h[0] == SEND && Pair(h[1], h[2]) == cfg.id && h[3] == cfg.kind
      && Pair(h[4], h[5]) == cfg.min && Pair(h[6], h[7]) == cfg.max
  {
    hide Pair, Bytes;
    PairOfBytes(cfg.id);
    PairOfBytes(cfg.min);
    PairOfBytes(cfg.max);
  }

  /** A configuration record's tail, read from its fields. */
  lemma HeldParses(h: seq<u8>, change: seq<u8>, rest: seq<u8>, bare: Status)
    requires |h| == 8 && bare.change == []
    requires if Analog(h[3]) then
        && ParseValue(change + rest, h[3]).Ok? && ParseValue(change + rest, h[3]).value.length == |change|
      else change == []
    ensures ParseHeld(h[3..] + (change + rest), bare) ==
      Turn([bare.(kind := h[3], min := Pair(h[4], h[5]), max := Pair(h[6], h[7]), change := change)],
           5 + |change|, None)
  {
  }

  lemma StatusParses(h: seq<u8>, tail: seq<u8>)
    requires |h| == 8 && h[0] == SEND
    ensures var t := ParseHeld(h[3..] + tail, Status(Pair(h[1], h[2]), SUCCESS, 0, 0, 0, []));
      ParseStatus([SUCCESS] + h + tail) == t.(length := 4 + t.length)
  {
  }

  lemma Regroup(h: seq<u8>, change: seq<u8>, rest: seq<u8>)
    ensures ([SUCCESS] + (h + change)) + rest == [SUCCESS] + h + (change + rest)
  {
  }

  lemma {:induction false} EchoOne(cfg: Config, round: Rounding, rest: seq<u8>)
    requires EncodeConfig(cfg, round).Ok?
    ensures var b := [SUCCESS] + EncodeConfig(cfg, round).value;
      ParseStatus(b + rest) == Turn([Held(cfg, round)], |b|, None)
  {
    var h := Head(cfg);
    var change := if Analog(cfg.kind) then EncodeValue(cfg.kind, cfg.change, round).value else [];
    HeadFields(cfg);
    if Analog(cfg.kind) {
      ValueRoundTrip(cfg.kind, cfg.change, round, rest);
    }
    HeldParses(h, change, rest, Status(cfg.id, SUCCESS, 0, 0, 0, []));
    StatusParses(h, change + rest);
    Regroup(h, change, rest);
    assert EncodeConfig(cfg, round).value == h + change;
  }

  /** Every accepted list of configurations, echoed, reads back as itself. */
  lemma {:induction false} ReportingEcho(cfgs: seq<Config>, round: Rounding)
    requires EncodeConfigs(cfgs, round).Ok?
    ensures ParseStatuses(Echo(cfgs, round)) == Statuses(HeldAll(cfgs, round), None)
  {
    if cfgs != [] {
      var first, rest := [SUCCESS] + EncodeConfig(cfgs[0], round).value, Echo(cfgs[1..], round);
      EchoOne(cfgs[0], round, rest);
      ReportingEcho(cfgs[1..], round);
      assert Echo(cfgs, round) == first + rest && (first + rest)[|first|..] == rest;
    }
  }

  /** Of a configuration so held: it reports unless disabled, and its change decodes to
      the number asked for whenever that is a non-negative one that encoded unwrapped;
      otherwise to the two's complement of what was encoded, or to nothing. */
  lemma HeldMeaning(cfg: Config, round: Rounding)
    requires EncodeConfig(cfg, round).Ok?
    ensures var st, k := Held(cfg, round), KindOf(cfg.kind);
      && (Reporting(st) <==> cfg.max != DISABLED)
      && (!Analog(cfg.kind) ==> ChangeOf(st.change) == None)
      && (Analog(cfg.kind) && k.Natural? ==> ChangeOf(st.change) == Number(cfg.change))
      && (Analog(cfg.kind) && k.Integer? ==>
            ChangeOf(st.change) == Some(Wrapped(AsInt(cfg.change).value, k.width)))
      && (Analog(cfg.kind) && k.Integer? && AsInt(cfg.change).value >= 0 ==>
            ChangeOf(st.change) == Number(cfg.change))
  {
    if Analog(cfg.kind) {
      match KindOf(cfg.kind) {
        case Natural(w) => ValueOfBytes(AsUint(cfg.change).value, w);
        case Integer(w) =>
          SignedRoundTrip(AsInt(cfg.change).value, w);
          ValueOfBytes(Wrapped(AsInt(cfg.change).value, w), w);
        case _ =>
      }
    }
  }
}
