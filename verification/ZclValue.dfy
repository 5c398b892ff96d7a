/** Attribute values of internal/zcl: what decodeValue reads and encodeValue writes. */
module ZclValue {
  import opened ZclBytes
  import opened Wrappers

  type DataType = u8

  /** The encodings, as both switches group the data types. */
  datatype Kind =
    | NoData
    | Boolean
    | Natural(width: nat)
    | Integer(width: nat)
    | Float
    | Octets
    | Text
    | Address
    | Unknown

  function KindOf(t: DataType): (k: Kind)
    ensures k.Natural? || k.Integer? ==> 1 <= k.width <= 6
    ensures k.Integer? ==> k.width <= 4
  {
    if t == 0x00 then NoData
    else if t == 0x10 then Boolean
    else if t == 0x08 || t == 0x18 || t == 0x20 || t == 0x30 then Natural(1)
    else if t == 0x19 || t == 0x21 || t == 0x31 then Natural(2)
    else if t == 0x22 then Natural(3)
    else if t == 0x1B || t == 0x23 || t == 0xE2 then Natural(4)
    else if t == 0x25 then Natural(6)
    else if t == 0x28 then Integer(1)
    else if t == 0x29 then Integer(2)
    else if t == 0x2A then Integer(3)
    else if t == 0x2B then Integer(4)
    else if t == 0x39 then Float
    else if t == 0x41 then Octets
    else if t == 0x42 then Text
    else if t == 0xF0 then Address
    else Unknown
  }

  predicate Analog(t: DataType) {
    0x20 <= t <= 0x27 || 0x28 <= t <= 0x2F || 0x38 <= t <= 0x3A || 0xE0 <= t <= 0xE2
  }

  // ----- Decoding.

  /** A decoded value; a float is kept as its binary32 pattern. */
  datatype Decoded = Absent | Truth(b: bool) | Uint(n: nat) | Int(i: int) | Single(bits: u32)
    | Str(chars: seq<u8>) | Raw(bytes: seq<u8>)

  datatype ReadError = Truncated | Unsupported(t: DataType)

  datatype Parse = Parse(value: Decoded, length: nat)

  lemma SpanValues()
    ensures Span(1) == 0x100 && Span(2) == 0x1_0000 && Span(3) == 0x100_0000 && Span(4) == 0x1_0000_0000
    ensures Span(6) == 0x1_0000_0000_0000
  {
  }

  /** Reading a number of w bytes off the front. */
  function ParseFixed(s: seq<u8>, w: nat, k: Kind): Result<Parse, ReadError>
    requires k.Float? ==> w == 4
  {
    if |s| < w then Err(Truncated)
    else
      var n := Value(s[..w]);
      BytesOfValue(s[..w]);
      SpanValues();
      Ok(Parse(
        match k
        case Integer(_) => Int(Signed(n, w))
        case Float => Single(n)
        case Boolean => if n == 0xFF then Absent else Truth(n != 0)
        case Address => Raw(s[..w])
        case _ => Uint(n), w))
  }

  /** What decodeValue makes of the bytes from the cursor on. */
  function ParseValue(s: seq<u8>, t: DataType): (r: Result<Parse, ReadError>)
    ensures r.Ok? ==> r.value.length <= |s|
  {
    match KindOf(t)
    case NoData => Ok(Parse(Absent, 0))
    case Boolean => ParseFixed(s, 1, Boolean)
    case Natural(w) => ParseFixed(s, w, KindOf(t))
    case Integer(w) => ParseFixed(s, w, KindOf(t))
    case Float => ParseFixed(s, 4, Float)
    case Address => ParseFixed(s, 8, Address)
    case Unknown => Err(Unsupported(t))
    case _ =>
      if s == [] then Err(Truncated)
      else if s[0] == 0xFF then Ok(Parse(Absent, 1))
      else if |s| < 1 + s[0] then Err(Truncated)
      else
        var b := s[1..1 + s[0]];
        Ok(Parse(if KindOf(t).Text? then Str(b) else Raw(b), 1 + s[0]))
  }

  /** A value's reading depends on its own bytes alone. */
  lemma ParseIsLocal(s: seq<u8>, rest: seq<u8>, t: DataType)
    requires ParseValue(s, t).Ok?
    ensures ParseValue(s + rest, t) == ParseValue(s, t)
    ensures var n := ParseValue(s, t).value.length; ParseValue(s[..n], t) == ParseValue(s, t)
  {
    var k := KindOf(t);
    var n := ParseValue(s, t).value.length;
    assert (s + rest)[..n] == s[..n];
    if k.Text? || k.Octets? {
      assert (s + rest)[1..n] == s[1..n] == s[..n][1..n];
    } else {
      assert s[..n][..n] == s[..n];
    }
  }

  // ----- Encoding.

  /** The dynamic types encodeValue distinguishes, with Go's widths.  Real stands for
      a float32 or float64. */
  datatype Any =
    | Nil | IsBool(b: bool) | IsString(chars: seq<u8>) | IsBytes(bytes: seq<u8>) | Real(id: nat)
    | U64(u: u64) | U32(u32: u32) | U16(u16: u16) | U8(u8: u8)
    | I64(i: i64) | I32(i32: i32) | I16(i16: i16) | I8(i8: i8) | GoInt(i: i64)
    | Other

  /** float32 rounding and its bit pattern, left open: None where the code has no
      conversion to a float. */
  type Rounding = Any -> Option<u32>

  datatype EncodeError = WrongType | OutOfRange | TooLong | CannotEncode(t: DataType)

  function AsUint(v: Any): Result<u64, EncodeError> {
    match v
    case U64(n) => Ok(n)
    case U32(n) => Ok(n)
    case U16(n) => Ok(n)
    case U8(n) => Ok(n)
    case GoInt(n) => if n < 0 then Err(OutOfRange) else Ok(n)
    case I64(n) => if n < 0 then Err(OutOfRange) else Ok(n)
    case _ => Err(WrongType)
  }

  /** A uint64 is converted, not checked: from 2^63 on it comes out negative. */
  function AsInt(v: Any): Result<int, EncodeError> {
    match v
    case I64(n) => Ok(n)
    case I32(n) => Ok(n)
    case I16(n) => Ok(n)
    case I8(n) => Ok(n)
    case GoInt(n) => Ok(n)
    case U64(n) => Ok(if n < 0x8000_0000_0000_0000 then n else n - 0x1_0000_0000_0000_0000)
    case _ => Err(WrongType)
  }

  function EncodeNatural(v: Any, w: nat): Result<seq<u8>, EncodeError> {
    match AsUint(v)
    case Err(e) => Err(e)
    case Ok(n) => if n >= Span(w) then Err(OutOfRange) else Ok(Bytes(n, w))
  }

  function EncodeInteger(v: Any, w: nat): Result<seq<u8>, EncodeError> {
    match AsInt(v)
    case Err(e) => Err(e)
    case Ok(n) => if !FitsSigned(n, w) then Err(OutOfRange) else Ok(Bytes(Wrapped(n, w), w))
  }

  function EncodeString(v: Any): Result<seq<u8>, EncodeError> {
    if !v.IsString? && !v.IsBytes? then Err(WrongType)
    else
      var b := if v.IsString? then v.chars else v.bytes;
      if |b| > 254 then Err(TooLong) else Ok([|b|] + b)
  }

  function EncodeValue(t: DataType, v: Any, round: Rounding): Result<seq<u8>, EncodeError> {
    match KindOf(t)
    case Boolean => if v.IsBool? then Ok([if v.b then 1 else 0]) else Err(WrongType)
    case Natural(w) => EncodeNatural(v, w)
    case Integer(w) => EncodeInteger(v, w)
    case Float => (match round(v) case None => Err(WrongType) case Some(bits) => Ok(Bytes(bits, 4)))
    case Octets => EncodeString(v)
    case Text => EncodeString(v)
    case _ => Err(CannotEncode(t))
  }

  /** What the far end should read for an accepted value. */
  function Meant(t: DataType, v: Any, round: Rounding): Decoded
    requires EncodeValue(t, v, round).Ok?
  {
    match KindOf(t)
    case Boolean => Truth(v.b)
    case Natural(_) => Uint(AsUint(v).value)
    case Integer(_) => Int(AsInt(v).value)
    case Float => Single(round(v).value)
    case Octets => Raw(if v.IsString? then v.chars else v.bytes)
    case Text => Str(if v.IsString? then v.chars else v.bytes)
    case _ => Absent
  }

  /** Every accepted value is read back as meant, by exactly the bytes written,
      whatever follows them. */
  lemma ValueRoundTrip(t: DataType, v: Any, round: Rounding, rest: seq<u8>)
    requires EncodeValue(t, v, round).Ok?
    ensures var b := EncodeValue(t, v, round).value;
      ParseValue(b + rest, t) == Ok(Parse(Meant(t, v, round), |b|))
  {
    var b := EncodeValue(t, v, round).value;
    SpanValues();
    assert (b + rest)[..|b|] == b;
    match KindOf(t) {
      case Boolean => assert Value(b) == b[0];
      case Natural(w) => ValueOfBytes(AsUint(v).value, w);
      case Integer(w) =>
        var n := AsInt(v).value;
        SignedRoundTrip(n, w);
        ValueOfBytes(Wrapped(n, w), w);
      case Float => ValueOfBytes(round(v).value, 4);
      case Octets => assert (b + rest)[1..|b|] == b[1..];
      case Text => assert (b + rest)[1..|b|] == b[1..];
      case _ =>
    }
  }

  /** The number itself: what an Any integer is, whatever its Go type. */
  function Number(v: Any): Option<int> {
    match v
    case U64(n) => Some(n)
    case U32(n) => Some(n)
    case U16(n) => Some(n)
    case U8(n) => Some(n)
    case I64(n) => Some(n)
    case I32(n) => Some(n)
    case I16(n) => Some(n)
    case I8(n) => Some(n)
    case GoInt(n) => Some(n)
    case _ => None
  }

  function NumberOf(d: Decoded): Option<int> {
    match d case Uint(n) => Some(n) case Int(i) => Some(i) case _ => None
  }

  /** Numbers survive the trip, except a uint64 of 2^63 or more given for a signed
      type: if that is accepted at all, the far end reads a different number. */
  lemma NumbersSurviveExactly(t: DataType, v: Any, round: Rounding)
    requires EncodeValue(t, v, round).Ok?
    requires KindOf(t).Natural? || KindOf(t).Integer?
    ensures NumberOf(Meant(t, v, round)) == Number(v)
      <==> !(KindOf(t).Integer? && v.U64? && v.u >= 0x8000_0000_0000_0000)
  {
  }

  /** Such a value really is accepted. */
  lemma WrappedValueAccepted(round: Rounding)
    ensures var v := U64(0xFFFF_FFFF_FFFF_FFFF);
      EncodeValue(0x28, v, round).Ok? && Meant(0x28, v, round) == Int(-1)
  {
  }
}
