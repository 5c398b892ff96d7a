/** ZCL frames and the attribute records they carry, from internal/zcl/zcl.go and
    encode.go. */
module ZclFrame {
  import opened ZclBytes
  import opened ZclValue
  import opened ZclCursor
  import opened Wrappers

  const CMD_READ_RESPONSE: u8 := 0x01
  const CMD_CONFIGURE_REPORTING: u8 := 0x06
  const CMD_READ_REPORTING_RESPONSE: u8 := 0x09
  const CMD_REPORT: u8 := 0x0A
  const PROFILE_WIDE: nat := 0
  const SUCCESS: u8 := 0x00

  datatype Frame = Frame(
    kind: nat, manufacturerSpecific: bool, manufacturer: u16, direction: nat,
    disableDefaultResponse: bool, sequence: u8, command: u8, payload: seq<u8>)

  function Decoded(b: seq<u8>): Result<Frame, ReadError> {
    if b == [] then Err(Truncated)
    else
      var fc := b[0];
      var own := fc / 4 % 2 == 1;
      var at := if own then 3 else 1;
      if |b| < at + 2 then Err(Truncated)
      else
        Ok(Frame(fc % 4, own, if own then Pair(b[1], b[2]) else 0, fc / 8 % 2, fc / 16 % 2 == 1,
                 b[at], b[at + 1], b[at + 2..]))
  }

  method Decode(b: seq<u8>) returns (r: Result<Frame, ReadError>)
    ensures r == Decoded(b)
  {
    hide Value, Pair;
    SpanValues();
    var c := new Cursor(b);
    if b != [] { ValueOfOne(c.Rest()); }
    var fc := c.Number(1);
    var own := fc / 4 % 2 == 1;
    var manufacturer := 0;
    if own {
      if |b| >= 3 { ValueOfTwo(c.Rest()); }
      manufacturer := c.Number(2);
    }
    if |c.Rest()| >= 1 { ValueOfOne(c.Rest()); }
    var sequence := c.Number(1);
    if |c.Rest()| >= 1 { ValueOfOne(c.Rest()); }
    var command := c.Number(1);
    if c.err.Some? {
      return Err(c.err.value);
    }
    r := Ok(Frame(fc % 4, own, manufacturer, fc / 8 % 2, fc / 16 % 2 == 1, sequence, command, b[c.pos..]));
  }

  // ----- Attribute records.

  datatype Attribute = Attribute(id: u16, status: u8, kind: DataType, value: ZclValue.Decoded, raw: seq<u8>)

  datatype OneRecord = OneRecord(attr: Attribute, length: nat)

  /** The first record of a payload: an identifier, in a response a status, and unless
      that is a failure a type and a value. */
  function ParseRecord(s: seq<u8>, withStatus: bool): (r: Result<OneRecord, ReadError>)
    ensures r.Ok? ==> 0 < r.value.length <= |s|
  {
    var head := if withStatus then 3 else 2;
    if |s| < head then Err(Truncated)
    else
      var id := Pair(s[0], s[1]);
      var status := if withStatus then s[2] else 0;
      if status != SUCCESS then Ok(OneRecord(Attribute(id, status, 0, Absent, []), 3))
      else if |s| == head then Err(Truncated)
      else
        var t := s[head];
        match ParseValue(s[head + 1..], t)
        case Err(e) => Err(e)
        case Ok(p) =>
          Ok(OneRecord(Attribute(id, status, t, p.value, s[head + 1..head + 1 + p.length]), head + 1 + p.length))
  }

  datatype Records = Records(attrs: seq<Attribute>, err: Option<ReadError>)

  function ParseRecords(s: seq<u8>, withStatus: bool): Records
    decreases |s|
  {
    if s == [] then Records([], None)
    else
      match ParseRecord(s, withStatus)
      case Err(e) => Records([], Some(e))
      case Ok(one) =>
        var rest := ParseRecords(s[one.length..], withStatus);
        Records([one.attr] + rest.attrs, rest.err)
  }

  /** A parse that continues after records already read. */
  function Onto(done: seq<Attribute>, r: Records): Records {
    Records(done + r.attrs, r.err)
  }

  datatype AttributesError = ClusterSpecific | NoRecords | Reading(e: ReadError)

  function AttributesOf(f: Frame): (seq<Attribute>, Option<AttributesError>) {
    if f.kind != PROFILE_WIDE then ([], Some(ClusterSpecific))
    else if f.command != CMD_REPORT && f.command != CMD_READ_RESPONSE then ([], Some(NoRecords))
    else
      var r := ParseRecords(f.payload, f.command == CMD_READ_RESPONSE);
      (r.attrs, if r.err.None? then None else Some(Reading(r.err.value)))
  }

  /** A record from its type on. */
  function ParseTyped(s: seq<u8>, id: u16, status: u8): (r: Result<OneRecord, ReadError>)
    ensures r.Ok? ==> r.value.length <= |s|
  {
    if s == [] then Err(Truncated)
    else
      match ParseValue(s[1..], s[0])
      case Err(e) => Err(e)
      case Ok(p) => Ok(OneRecord(Attribute(id, status, s[0], p.value, s[1..][..p.length]), 1 + p.length))
  }

  function Shifted(n: nat, r: Result<OneRecord, ReadError>): Result<OneRecord, ReadError> {
    match r case Ok(one) => Ok(one.(length := n + one.length)) case Err(_) => r
  }

  lemma {:induction false} RecordIsTyped(s: seq<u8>, withStatus: bool)
    requires var head := if withStatus then 3 else 2; |s| >= head && (withStatus ==> s[2] == SUCCESS)
    ensures var head := if withStatus then 3 else 2;
      ParseRecord(s, withStatus) == Shifted(head, ParseTyped(s[head..], Pair(s[0], s[1]), SUCCESS))
  {
    var head := if withStatus then 3 else 2;
    if |s| > head {
      assert s[head..][1..] == s[head + 1..];
      var r := ParseValue(s[head + 1..], s[head]);
      assert r.Ok? ==> s[head + 1..][..r.value.length] == s[head + 1..head + 1 + r.value.length];
    }
  }

  method NextTyped(c: Cursor, id: u16, status: u8) returns (a: Attribute)
    requires c.Valid() && c.err.None?
    modifies c
    ensures c.Valid()
    ensures match ParseTyped(old(c.Rest()), id, status)
      case Err(e) => c.err == Some(e)
      case Ok(one) => c.err.None? && a == one.attr && c.pos == old(c.pos) + one.length
  {
    SpanValues();
    ghost var s := c.Rest();
    if s != [] { ValueOfOne(s); }
    var t := c.Number(1);
    var start := c.pos;
    assert s != [] ==> c.Rest() == s[1..];
    var value := c.DecodeValue(t);
    if c.err.Some? {
      return Attribute(id, status, t, value, []);
    }
    assert c.b[start..c.pos] == s[1..][..c.pos - start];
    a := Attribute(id, status, t, value, c.b[start..c.pos]);
  }

  /** One record, read field by field. */
  method NextRecord(c: Cursor, withStatus: bool) returns (a: Attribute)
    requires c.Valid() && c.err.None?
    modifies c
    ensures c.Valid()
    ensures match ParseRecord(old(c.Rest()), withStatus)
      case Err(e) => c.err == Some(e)
      case Ok(one) => c.err.None? && a == one.attr && c.pos == old(c.pos) + one.length
  {
    SpanValues();
    ghost var s := c.Rest();
    if |s| >= 2 { ValueOfTwo(s); }
    var id := c.Number(2);
    var status := 0;
    if withStatus {
      if c.err.None? && c.Rest() != [] { ValueOfOne(c.Rest()); }
      status := c.Number(1);
      if status != SUCCESS {
        return Attribute(id, status, 0, Absent, []);
      }
    }
    if c.err.Some? {
      return Attribute(id, status, 0, Absent, []);
    }
    RecordIsTyped(s, withStatus);
    assert c.Rest() == s[if withStatus then 3 else 2..];
    a := NextTyped(c, id, status);
  }

  /** What a cursor has yet to yield. */
  ghost function Left(c: Cursor, withStatus: bool): Records
    requires c.Valid()
    reads c
  {
    if c.err.Some? then Records([], c.err) else ParseRecords(c.Rest(), withStatus)
  }

  /** One turn of the loop in Attributes. */
  method TakeRecord(c: Cursor, withStatus: bool) returns (a: seq<Attribute>)
    requires c.Valid() && c.err.None? && c.Rest() != []
    modifies c
    ensures c.Valid() && (c.err.None? ==> c.pos > old(c.pos))
    ensures old(Left(c, withStatus)) == Onto(a, Left(c, withStatus))
  {
    ghost var s := c.Rest();
    var attr := NextRecord(c, withStatus);
    a := if c.err.None? then [attr] else [];
    if c.err.None? {
      assert s[ParseRecord(s, withStatus).value.length..] == c.Rest();
    }
  }

  lemma OntoTwice(a: seq<Attribute>, b: seq<Attribute>, r: Records)
    ensures Onto(a, Onto(b, r)) == Onto(a + b, r)
  {
  }

  /** The loop in Attributes. */
  method ReadRecords(payload: seq<u8>, withStatus: bool) returns (out: seq<Attribute>, err: Option<ReadError>)
    ensures Records(out, err) == ParseRecords(payload, withStatus)
  {
    out := [];
    var c := new Cursor(payload);
    assert payload[0..] == payload;
    ghost var all := ParseRecords(payload, withStatus);
    var left := c.Remaining();
    assert Onto(out, all) == all;
    while left > 0 && c.err.None?
      invariant c.Valid() && fresh(c) && c.b == payload
      invariant left == if c.err.Some? then 0 else |c.Rest()|
      invariant all == Onto(out, Left(c, withStatus))
      decreases c.err.None?, |c.b| - c.pos
    {
      var a := TakeRecord(c, withStatus);
      OntoTwice(out, a, Left(c, withStatus));
      out := out + a;
      left := c.Remaining();
    }
    err := c.err;
    assert out + [] == out;
  }

  method Attributes(f: Frame) returns (out: seq<Attribute>, err: Option<AttributesError>)
    ensures (out, err) == AttributesOf(f)
  {
    if f.kind != PROFILE_WIDE {
      return [], Some(ClusterSpecific);
    }
    if f.command != CMD_REPORT && f.command != CMD_READ_RESPONSE {
      return [], Some(NoRecords);
    }
    var failure;
    out, failure := ReadRecords(f.payload, f.command == CMD_READ_RESPONSE);
    err := if failure.Some? then Some(Reading(failure.value)) else None;
  }

  // ----- Nothing is lost in parsing.

  function Serialized(a: Attribute, withStatus: bool): seq<u8> {
    Bytes(a.id, 2) + (if withStatus then [a.status] else [])
    + if a.status == SUCCESS then [a.kind] + a.raw else []
  }

  function SerializedAll(attrs: seq<Attribute>, withStatus: bool): seq<u8> {
    if attrs == [] then [] else Serialized(attrs[0], withStatus) + SerializedAll(attrs[1..], withStatus)
  }

  /** A record's raw bytes read as exactly its value. */
  predicate RawFits(a: Attribute) {
    a.status == SUCCESS ==> ParseValue(a.raw, a.kind) == Ok(Parse(a.value, |a.raw|))
  }

  lemma RecordLossless(s: seq<u8>, withStatus: bool)
    requires ParseRecord(s, withStatus).Ok?
    ensures var one := ParseRecord(s, withStatus).value;
      Serialized(one.attr, withStatus) == s[..one.length]
  {
  }

  lemma RecordRawFits(s: seq<u8>, withStatus: bool)
    requires ParseRecord(s, withStatus).Ok?
    ensures RawFits(ParseRecord(s, withStatus).value.attr)
  {
    var one := ParseRecord(s, withStatus).value;
    var head := if withStatus then 3 else 2;
    if one.attr.status == SUCCESS {
      ParseIsLocal(s[head + 1..], [], one.attr.kind);
      assert s[head + 1..][..one.length - head - 1] == one.attr.raw;
    }
  }

  lemma SerializedCons(a: Attribute, rest: seq<Attribute>, withStatus: bool, s: seq<u8>, n: nat)
    requires n <= |s| && Serialized(a, withStatus) == s[..n] && SerializedAll(rest, withStatus) == s[n..]
    ensures SerializedAll([a] + rest, withStatus) == s
  {
  }

  /** Whenever a payload parses, writing the records out again gives the payload back. */
  lemma {:induction false} ParsingLossless(s: seq<u8>, withStatus: bool)
    requires ParseRecords(s, withStatus).err.None?
    ensures SerializedAll(ParseRecords(s, withStatus).attrs, withStatus) == s
    decreases |s|
  {
    if s != [] {
      var one := ParseRecord(s, withStatus).value;
      RecordLossless(s, withStatus);
      ParsingLossless(s[one.length..], withStatus);
      SerializedCons(one.attr, ParseRecords(s[one.length..], withStatus).attrs, withStatus, s, one.length);
    }
  }

  lemma {:induction false} RawsFit(s: seq<u8>, withStatus: bool)
    ensures forall a | a in ParseRecords(s, withStatus).attrs :: RawFits(a)
    decreases |s|
  {
    if s != [] && ParseRecord(s, withStatus).Ok? {
      RecordRawFits(s, withStatus);
      RawsFit(s[ParseRecord(s, withStatus).value.length..], withStatus);
    }
  }

  // ----- Building a response.

  datatype Record = Record(id: u16, status: u8, kind: DataType, value: Any)

  function EncodeRecord(rec: Record, round: Rounding): Result<seq<u8>, EncodeError> {
    var head := Bytes(rec.id, 2) + [rec.status];
    if rec.status != SUCCESS then Ok(head)
    else
      match EncodeValue(rec.kind, rec.value, round)
      case Err(e) => Err(e)
      case Ok(b) => Ok(head + [rec.kind] + b)
  }

  function After(done: seq<u8>, r: Result<seq<u8>, EncodeError>): Result<seq<u8>, EncodeError> {
    if r.Ok? then Ok(done + r.value) else r
  }

  function EncodeRecords(recs: seq<Record>, round: Rounding): Result<seq<u8>, EncodeError> {
    if recs == [] then Ok([])
    else
      match EncodeRecord(recs[0], round)
      case Err(e) => Err(e)
      case Ok(first) => After(first, EncodeRecords(recs[1..], round))
  }

  lemma AfterTwice(a: seq<u8>, b: seq<u8>, r: Result<seq<u8>, EncodeError>)
    ensures After(a, After(b, r)) == After(a + b, r)
  {
    if r.Ok? {
      assert a + (b + r.value) == (a + b) + r.value;
    }
  }

  /** One turn of the loop in ReadAttributesResponse. */
  method AppendRecord(init: seq<u8>, rec: Record, round: Rounding) returns (r: Result<seq<u8>, EncodeError>)
    ensures r == After(init, EncodeRecord(rec, round))
  {
    var out := AppendUint(init, rec.id, 2);
    out := out + [rec.status];
    assert out == init + (Bytes(rec.id, 2) + [rec.status]);
    if rec.status != SUCCESS {
      return Ok(out);
    }
    out := out + [rec.kind];
    var encoded := EncodeValue(rec.kind, rec.value, round);
    if encoded.Err? {
      return Err(encoded.error);
    }
    out := out + encoded.value;
    assert out == init + (Bytes(rec.id, 2) + [rec.status] + [rec.kind] + encoded.value);
    r := Ok(out);
  }

  method ReadAttributesResponse(sequence: u8, records: seq<Record>, round: Rounding)
    returns (r: Result<seq<u8>, EncodeError>)
    ensures r == After([0x18, sequence, CMD_READ_RESPONSE], EncodeRecords(records, round))
  {
    var out: seq<u8> := [0x18, sequence, CMD_READ_RESPONSE];
    ghost var all := After(out, EncodeRecords(records, round));
    for i := 0 to |records|
      invariant all == After(out, EncodeRecords(records[i..], round))
    {
      assert records[i..][1..] == records[i + 1..];
      var next := AppendRecord(out, records[i], round);
      if next.Err? {
        return next;
      }
      AfterTwice(out, EncodeRecord(records[i], round).value, EncodeRecords(records[i + 1..], round));
      out := next.value;
    }
    assert out + [] == out;
    r := Ok(out);
  }

  /** What a record should be read as. */
  function Expected(rec: Record, round: Rounding): Attribute
    requires EncodeRecord(rec, round).Ok?
  {
    if rec.status != SUCCESS then Attribute(rec.id, rec.status, 0, Absent, [])
    else
      Attribute(rec.id, SUCCESS, rec.kind, Meant(rec.kind, rec.value, round),
                EncodeValue(rec.kind, rec.value, round).value)
  }

  function ExpectedAll(recs: seq<Record>, round: Rounding): seq<Attribute>
    requires EncodeRecords(recs, round).Ok?
  {
    if recs == [] then [] else [Expected(recs[0], round)] + ExpectedAll(recs[1..], round)
  }

  lemma {:induction false} FailureRoundTrip(rec: Record, round: Rounding, rest: seq<u8>)
    requires rec.status != SUCCESS
    ensures var b := EncodeRecord(rec, round).value;
      ParseRecord(b + rest, true) == Ok(OneRecord(Expected(rec, round), |b|))
  {
    hide Pair, Bytes;
    var b := EncodeRecord(rec, round).value;
    PairOfBytes(rec.id);
    assert (b + rest)[0] == Bytes(rec.id, 2)[0] && (b + rest)[1] == Bytes(rec.id, 2)[1] && (b + rest)[2] == rec.status;
  }

  lemma {:induction false} TypedRoundTrip(rec: Record, round: Rounding, v: seq<u8>, rest: seq<u8>)
    requires EncodeValue(rec.kind, rec.value, round) == Ok(v)
    ensures ParseTyped([rec.kind] + v + rest, rec.id, SUCCESS) ==
      Ok(OneRecord(Attribute(rec.id, SUCCESS, rec.kind, Meant(rec.kind, rec.value, round), v), 1 + |v|))
  {
    hide EncodeValue, ParseValue, Meant;
    var s := [rec.kind] + v + rest;
    ValueRoundTrip(rec.kind, rec.value, round, rest);
    assert s[1..] == v + rest && (v + rest)[..|v|] == v;
  }

  lemma {:induction false} RecordRoundTrip(rec: Record, round: Rounding, rest: seq<u8>)
    requires EncodeRecord(rec, round).Ok?
    ensures var b := EncodeRecord(rec, round).value;
      ParseRecord(b + rest, true) == Ok(OneRecord(Expected(rec, round), |b|))
  {
    if rec.status != SUCCESS {
      FailureRoundTrip(rec, round, rest);
    } else {
      hide Pair, Bytes, ParseRecord, ParseTyped, EncodeValue, Meant;
      var v := EncodeValue(rec.kind, rec.value, round).value;
      var head := Bytes(rec.id, 2) + [rec.status];
      var s := head + [rec.kind] + v + rest;
      assert s[0] == Bytes(rec.id, 2)[0] && s[1] == Bytes(rec.id, 2)[1] && s[2] == SUCCESS;
      assert s[3..] == [rec.kind] + v + rest;
      PairOfBytes(rec.id);
      RecordIsTyped(s, true);
      TypedRoundTrip(rec, round, v, rest);
    }
  }

  lemma {:induction false} RecordsRoundTrip(recs: seq<Record>, round: Rounding)
    requires EncodeRecords(recs, round).Ok?
    ensures ParseRecords(EncodeRecords(recs, round).value, true) == Records(ExpectedAll(recs, round), None)
  {
    if recs != [] {
      var first, rest := EncodeRecord(recs[0], round).value, EncodeRecords(recs[1..], round).value;
      RecordRoundTrip(recs[0], round, rest);
      RecordsRoundTrip(recs[1..], round);
      assert (first + rest)[|first|..] == rest;
    }
  }

  lemma {:induction false} HeaderRead(b: seq<u8>)
    requires |b| >= 3 && b[0] == 0x18
    ensures Decoded(b) == Ok(Frame(PROFILE_WIDE, false, 0, 1, true, b[1], b[2], b[3..]))
  {
  }

  /** A response the code builds is read back, header and records, as what was meant. */
  lemma {:induction false} ResponseRoundTrip(sequence: u8, recs: seq<Record>, round: Rounding)
    requires EncodeRecords(recs, round).Ok?
    ensures var payload := EncodeRecords(recs, round).value;
      var f := Frame(PROFILE_WIDE, false, 0, 1, true, sequence, CMD_READ_RESPONSE, payload);
      && Decoded([0x18, sequence, CMD_READ_RESPONSE] + payload) == Ok(f)
      && AttributesOf(f) == (ExpectedAll(recs, round), None)
  {
    var payload := EncodeRecords(recs, round).value;
    var b := [0x18, sequence, CMD_READ_RESPONSE] + payload;
    assert b[3..] == payload;
    HeaderRead(b);
    RecordsRoundTrip(recs, round);
  }
}
