/** Frames as their readers see them: what every header byte means, and attribute reports,
    which unlike read responses carry no statuses. */
module ZclReports {
  import opened ZclBytes
  import opened ZclValue
  import opened ZclFrame
  import opened Wrappers

  // ----- The header.

  function Bit(b: bool, weight: nat): nat {
    if b then weight else 0
  }

  /** A header written out from its fields; top is what its three unused bits hold. */
  predicate Fields(f: Frame) {
    f.kind < 4 && f.direction < 2 && (!f.manufacturerSpecific ==> f.manufacturer == 0)
  }

  function Header(f: Frame, top: nat): seq<u8>
    requires Fields(f) && top < 8
  {
    [f.kind + Bit(f.manufacturerSpecific, 4) + 8 * f.direction + Bit(f.disableDefaultResponse, 16) + 32 * top]
    + (if f.manufacturerSpecific then Bytes(f.manufacturer, 2) else [])
    + [f.sequence, f.command]
  }

  lemma {:induction false} Halves(fc: nat)
    ensures fc / 8 == fc / 4 / 2 && fc / 16 == fc / 8 / 2 && fc / 32 == fc / 16 / 2
  {
  }

  lemma {:induction false} ControlFields(kind: nat, own: bool, direction: nat, disable: bool, top: nat)
    requires kind < 4 && direction < 2 && top < 8
    ensures var fc := kind + Bit(own, 4) + 8 * direction + Bit(disable, 16) + 32 * top;
      && fc < 0x100 && fc % 4 == kind && (fc / 4 % 2 == 1 <==> own)
      && fc / 8 % 2 == direction && (fc / 16 % 2 == 1 <==> disable)
  {
    var fc := kind + Bit(own, 4) + 8 * direction + Bit(disable, 16) + 32 * top;
    var d := Bit(disable, 1) + 2 * top;
    var c := direction + 2 * d;
    var o := Bit(own, 1) + 2 * c;
    assert fc == kind + 4 * o;
    assert fc / 4 == o && fc % 4 == kind;
    Halves(fc);
    assert o / 2 == c && o % 2 == Bit(own, 1);
    assert c / 2 == d && c % 2 == direction;
    assert d % 2 == Bit(disable, 1);
  }

  /** Any frame's header, followed by its payload, is read as that frame. */
  lemma {:induction false} HeaderRoundTrip(f: Frame, top: nat)
    requires Fields(f) && top < 8
    ensures ZclFrame.Decoded(Header(f, top) + f.payload) == Ok(f)
  {
    hide Bytes, Pair, Bit;
    ControlFields(f.kind, f.manufacturerSpecific, f.direction, f.disableDefaultResponse, top);
    var b := Header(f, top) + f.payload;
    PairOfBytes(f.manufacturer);
    if f.manufacturerSpecific {
      assert b[1] == Bytes(f.manufacturer, 2)[0] && b[2] == Bytes(f.manufacturer, 2)[1];
      assert b[5..] == f.payload;
    } else {
      assert b[3..] == f.payload;
    }
  }

  lemma {:induction false} BytesOfPair(lo: u8, hi: u8)
    ensures Bytes(Pair(lo, hi), 2) == [lo, hi]
  {
    assert Bytes(Pair(lo, hi), 2) == [lo] + Bytes(hi, 1);
  }

  lemma {:induction false} ControlSplit(fc: u8)
    ensures fc == fc % 4 + Bit(fc / 4 % 2 == 1, 4) + 8 * (fc / 8 % 2) + Bit(fc / 16 % 2 == 1, 16) + 32 * (fc / 32)
  {
    Halves(fc);
    var o, c, d := fc / 4, fc / 8, fc / 16;
    assert fc == 4 * o + fc % 4 && o == 2 * c + o % 2 && c == 2 * d + c % 2 && d == 2 * (fc / 32) + d % 2;
  }

  /** Whatever is read as a frame is that frame's header and payload, but for the bits not
      used; only what is too short for its header is refused. */
  lemma {:induction false} HeaderExact(b: seq<u8>)
    ensures ZclFrame.Decoded(b).Err? <==> |b| < 3 || (|b| < 5 && b[0] / 4 % 2 == 1)
    ensures ZclFrame.Decoded(b).Ok? ==> var f := ZclFrame.Decoded(b).value;
      Fields(f) && b == Header(f, b[0] / 32) + f.payload
  {
    if ZclFrame.Decoded(b).Ok? {
      var f := ZclFrame.Decoded(b).value;
      hide Bytes, Pair;
      ControlSplit(b[0]);
      if f.manufacturerSpecific {
        BytesOfPair(b[1], b[2]);
        assert b == [b[0], b[1], b[2], b[3], b[4]] + b[5..];
      } else {
        assert b == [b[0], b[1], b[2]] + b[3..];
      }
    }
  }

  // ----- Attribute records, by the frame that carries them.

  lemma {:induction false} ReportsSucceed(s: seq<u8>)
    ensures forall a | a in ParseRecords(s, false).attrs :: a.status == SUCCESS
    decreases |s|
  {
    if s != [] && ParseRecord(s, false).Ok? {
      ReportsSucceed(s[ParseRecord(s, false).value.length..]);
    }
  }

  /** Only reports and read responses carry attribute records; those of a frame without error
      are its whole payload, with statuses exactly in a response. */
  lemma {:induction false} FramesLossless(f: Frame)
    ensures AttributesOf(f).1 == Some(ClusterSpecific) <==> f.kind != 0
    ensures AttributesOf(f).1 == Some(NoRecords) <==> f.kind == 0 && f.command != 0x0A && f.command != 0x01
    ensures AttributesOf(f).1.None? ==> SerializedAll(AttributesOf(f).0, f.command == 0x01) == f.payload
    ensures f.command != 0x01 ==> forall a | a in AttributesOf(f).0 :: a.status == 0
  {
    if f.kind == PROFILE_WIDE && (f.command == CMD_REPORT || f.command == CMD_READ_RESPONSE) {
      if AttributesOf(f).1.None? {
        ParsingLossless(f.payload, f.command == CMD_READ_RESPONSE);
      }
      if f.command == CMD_REPORT {
        ReportsSucceed(f.payload);
      }
    }
  }

  /** A report as a device sends it: identifier, type and value of each attribute. */
  function ReportOf(recs: seq<Record>, round: Rounding): Result<seq<u8>, EncodeError> {
    if recs == [] then Ok([])
    else
      match EncodeValue(recs[0].kind, recs[0].value, round)
      case Err(e) => Err(e)
      case Ok(v) => After(Bytes(recs[0].id, 2) + [recs[0].kind] + v, ReportOf(recs[1..], round))
  }

  /** What it should be read as. */
  function Reported(recs: seq<Record>, round: Rounding): seq<Attribute>
    requires ReportOf(recs, round).Ok?
  {
    if recs == [] then []
    else
      var rec := recs[0];
      [Attribute(rec.id, 0, rec.kind, Meant(rec.kind, rec.value, round), EncodeValue(rec.kind, rec.value, round).value)]
      + Reported(recs[1..], round)
  }

  lemma {:induction false} ReportedRecord(rec: Record, round: Rounding, v: seq<u8>, rest: seq<u8>)
    requires EncodeValue(rec.kind, rec.value, round) == Ok(v)
    ensures ParseRecord(Bytes(rec.id, 2) + [rec.kind] + v + rest, false) ==
      Ok(OneRecord(Attribute(rec.id, SUCCESS, rec.kind, Meant(rec.kind, rec.value, round), v), 3 + |v|))
  {
    hide Pair, Bytes, ParseRecord, ParseTyped, EncodeValue, Meant;
    var s := Bytes(rec.id, 2) + [rec.kind] + v + rest;
    assert s[0] == Bytes(rec.id, 2)[0] && s[1] == Bytes(rec.id, 2)[1];
    assert s[2..] == [rec.kind] + v + rest;
    PairOfBytes(rec.id);
    RecordIsTyped(s, false);
    TypedRoundTrip(rec, round, v, rest);
  }

  lemma {:induction false} ReportRecords(recs: seq<Record>, round: Rounding)
    requires ReportOf(recs, round).Ok?
    ensures ParseRecords(ReportOf(recs, round).value, false) == Records(Reported(recs, round), None)
  {
    hide ParseRecord, EncodeValue, Meant, Bytes;
    if recs != [] {
      var v := EncodeValue(recs[0].kind, recs[0].value, round).value;
      var first, rest := Bytes(recs[0].id, 2) + [recs[0].kind] + v, ReportOf(recs[1..], round).value;
      ReportedRecord(recs[0], round, v, rest);
      ReportRecords(recs[1..], round);
      assert (first + rest)[|first|..] == rest;
    }
  }

  /** Attributes reported, of any types and with any values that can be sent, come back as the
      same records in the same order, whatever the rest of the header says. */
  lemma {:induction false} ReportRoundTrip(f: Frame, recs: seq<Record>, round: Rounding)
    requires f.kind == 0 && f.command == 0x0A && ReportOf(recs, round) == Ok(f.payload)
    ensures AttributesOf(f) == (Reported(recs, round), None)
  {
    ReportRecords(recs, round);
  }
}
