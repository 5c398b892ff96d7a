/** The cursor of internal/zcl/zcl.go: a bounds-checked reader whose first error
    sticks, and the value decoder written over it. */
module ZclCursor {
  import opened ZclBytes
  import opened ZclValue
  import opened Wrappers

  class Cursor {
    const b: seq<u8>
    var pos: nat
    var err: Option<ReadError>

    ghost predicate Valid()
      reads this
    {
      pos <= |b|
    }

    /** What is still to be read. */
    ghost function Rest(): seq<u8>
      requires Valid()
      reads this
    {
      b[pos..]
    }

    constructor (b: seq<u8>)
      ensures Valid() && this.b == b && pos == 0 && err.None?
    {
      this.b := b;
      pos, err := 0, None;
    }

    method Fail(e: ReadError)
      modifies this`err
      ensures err == if old(err).None? then Some(e) else old(err)
    {
      if err.None? {
        err := Some(e);
      }
    }

    method Need(n: nat) returns (ok: bool)
      requires Valid()
      modifies this`err
      ensures ok == (old(err).None? && n <= |Rest()|)
      ensures err == if old(err).None? && !ok then Some(Truncated) else old(err)
    {
      if err.Some? {
        return false;
      }
      if pos + n > |b| {
        Fail(Truncated);
        return false;
      }
      ok := true;
    }

    /** An n-byte little-endian number: u8, u16, u32 and uint of the source. */
    method Number(n: nat) returns (v: nat)
      requires Valid()
      modifies this
      ensures Valid()
      ensures old(err).None? && n <= |old(Rest())| ==>
        err.None? && pos == old(pos) + n && v == Value(old(Rest())[..n]) && v < Span(n)
      ensures old(err).None? && n > |old(Rest())| ==> err == Some(Truncated) && pos == old(pos) && v == 0
      ensures old(err).Some? ==> err == old(err) && pos == old(pos) && v == 0
    {
      var ok := Need(n);
      if !ok {
        return 0;
      }
      v := ReadUint(b[pos..pos + n]);
      assert b[pos..pos + n] == Rest()[..n];
      BytesOfValue(b[pos..pos + n]);
      pos := pos + n;
    }

    method Take(n: nat) returns (v: seq<u8>)
      requires Valid()
      modifies this
      ensures Valid()
      ensures old(err).None? && n <= |old(Rest())| ==>
        err.None? && pos == old(pos) + n && v == old(Rest())[..n]
      ensures old(err).None? && n > |old(Rest())| ==> err == Some(Truncated) && pos == old(pos) && v == []
      ensures old(err).Some? ==> err == old(err) && pos == old(pos) && v == []
    {
      var ok := Need(n);
      if !ok {
        return [];
      }
      v := b[pos..pos + n];
      pos := pos + n;
    }

    method Remaining() returns (n: nat)
      requires Valid()
      ensures n == if err.Some? then 0 else |Rest()|
    {
      n := if err.Some? then 0 else |b| - pos;
    }

    /** A length and that many bytes, or the mark of an absent string. */
    method DecodeString(t: DataType) returns (v: Decoded)
      requires Valid() && (KindOf(t).Text? || KindOf(t).Octets?)
      modifies this
      ensures Valid()
      ensures old(err).Some? ==> err == old(err) && pos == old(pos)
      ensures old(err).None? ==>
        match ParseValue(old(Rest()), t)
        case Ok(p) => err.None? && pos == old(pos) + p.length && v == p.value
        case Err(e) => err == Some(e) && old(pos) <= pos
    {
      SpanValues();
      ghost var s := Rest();
      if s != [] { ValueOfOne(s); }
      var n := Number(1);
      if n == 0xFF {
        return Absent;
      }
      assert err.None? ==> Rest() == s[1..];
      var raw := Take(n);
      assert err.None? ==> raw == s[1..1 + n];
      v := if KindOf(t).Text? then Str(raw) else Raw(raw);
    }

    /** decodeValue: one value of the given type. */
    method DecodeValue(t: DataType) returns (v: Decoded)
      requires Valid()
      modifies this
      ensures Valid()
      ensures old(err).Some? ==> err == old(err) && pos == old(pos)
      ensures old(err).None? ==>
        match ParseValue(old(Rest()), t)
        case Ok(p) => err.None? && pos == old(pos) + p.length && v == p.value
        case Err(e) => err == Some(e) && old(pos) <= pos
    {
      SpanValues();
      ghost var s := Rest();
      match KindOf(t) {
        case NoData => v := Absent;
        case Boolean =>
          var n := Number(1);
          v := if n == 0xFF then Absent else Truth(n != 0);
        case Natural(w) =>
          var n := Number(w);
          v := Uint(n);
        case Integer(w) =>
          var n := Number(w);
          v := Int(Signed(n, w));
        case Float =>
          var n := Number(4);
          v := Single(n);
        case Address =>
          var raw := Take(8);
          v := Raw(raw);
        case Unknown =>
          Fail(Unsupported(t));
          v := Absent;
        case _ => v := DecodeString(t);
      }
    }
  }
}
