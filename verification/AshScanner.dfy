/** The scanner of internal/ash/conn.go: it cuts a byte stream, arriving in reads
    of any size, into frame bodies. */
module AshScanner {
  import opened AshFrame
  import opened Wrappers

  // ----- The plain fold that the scanner must equal.

  /** What reaches the caller: a body, or the nil that stands for a dropped frame. */
  datatype Item = Body(raw: seq<Byte>) | Discarded

  datatype Scan = Scan(frame: seq<Byte>, corrupt: bool)

  const FRESH := Scan([], false)

  function Take(s: Scan, b: Byte): Scan {
    if b == CANCEL then FRESH
    else if b == SUBST then s.(corrupt := true)
    else if b == XON || b == XOFF then s
    else if b == FLAG then FRESH
    else if |s.frame| >= MAX_FRAME_LEN then Scan([], true)
    else s.(frame := s.frame + [b])
  }

  function Yield(s: Scan, b: Byte): seq<Item> {
    if b != FLAG then []
    else if s.corrupt || s.frame == [] then [Discarded]
    else [Body(s.frame)]
  }

  function After(s: Scan, bytes: seq<Byte>): Scan
    decreases bytes
  {
    if bytes == [] then s else After(Take(s, bytes[0]), bytes[1..])
  }

  function Items(s: Scan, bytes: seq<Byte>): seq<Item>
    decreases bytes
  {
    if bytes == [] then [] else Yield(s, bytes[0]) + Items(Take(s, bytes[0]), bytes[1..])
  }

  // ----- The reader beneath: one scripted result per call.

  datatype ReadError = EOF | Failure(code: int)

  datatype Read = Read(bytes: seq<Byte>, err: Option<ReadError>)

  /** The bytes a script delivers before the scanner stops reading. */
  function Delivered(script: seq<Read>): seq<Byte> {
    if script == [] then []
    else if script[0].err.Some? || script[0].bytes == [] then script[0].bytes
    else script[0].bytes + Delivered(script[1..])
  }

  /** The error it stops with: an empty read without one counts as end of file. */
  function Final(script: seq<Read>): ReadError {
    if script == [] then EOF
    else if script[0].err.Some? then script[0].err.value
    else if script[0].bytes == [] then EOF
    else Final(script[1..])
  }

  /** No read may deliver more than the buffer it is given holds. */
  ghost predicate Bounded(script: seq<Read>, room: nat) {
    forall c | c in script :: |c.bytes| <= room
  }

  class Reader {
    var script: seq<Read>

    constructor (script: seq<Read>)
      ensures this.script == script
    {
      this.script := script;
    }

    method Read(buf: array<Byte>) returns (n: nat, err: Option<ReadError>)
      requires Bounded(script, buf.Length)
      modifies this, buf
      ensures script == if old(script) == [] then [] else old(script)[1..]
      ensures n <= buf.Length && buf[..n] == if old(script) == [] then [] else old(script)[0].bytes
      ensures err == if old(script) == [] then Some(EOF) else old(script)[0].err
    {
      if script == [] {
        return 0, Some(EOF);
      }
      var chunk := script[0];
      script := script[1..];
      forall i | 0 <= i < |chunk.bytes| {
        buf[i] := chunk.bytes[i];
      }
      n, err := |chunk.bytes|, chunk.err;
    }
  }

  datatype Next = Got(item: Item) | Stopped(err: ReadError)

  class Scanner {
    const r: Reader
    const buf: array<Byte>
    /** pend is the slice buf[lo..hi]. */
    var lo: nat
    var hi: nat
    var err: Option<ReadError>
    var frame: seq<Byte>
    var corrupt: bool

    ghost predicate Valid()
      reads this, r, buf
    {
      lo <= hi <= buf.Length && Bounded(r.script, buf.Length)
    }

    ghost function State(): Scan
      reads this
    {
      Scan(frame, corrupt)
    }

    /** Every byte still to be scanned. */
    ghost function Stream(): seq<Byte>
      requires Valid()
      reads this, r, buf
    {
      buf[lo..hi] + if err.Some? then [] else Delivered(r.script)
    }

    ghost function Ending(): ReadError
      reads this, r
    {
      if err.Some? then err.value else Final(r.script)
    }

    constructor (r: Reader)
      requires Bounded(r.script, 512)
      ensures Valid() && this.r == r && fresh(buf)
      ensures State() == FRESH && Stream() == Delivered(r.script) && Ending() == Final(r.script)
    {
      this.r := r;
      buf := new Byte[512](_ => 0);
      lo, hi, err, frame, corrupt := 0, 0, None, [], false;
    }

    /** Reads over the buffer, which is allowed only when no byte in it is pending. */
    method Refill()
      requires Valid() && lo == hi && err.None?
      modifies this`lo, this`hi, this`err, r, buf
      ensures Valid()
      ensures Stream() == old(Stream()) && Ending() == old(Ending())
      ensures lo < hi || err.Some?
      ensures err.Some? || (old(r.script) != [] && r.script == old(r.script)[1..])
    {
      var n, failure := r.Read(buf);
      assert buf[0..n] == buf[..n];
      lo, hi := 0, n;
      if failure.Some? {
        err := failure;
      } else if n == 0 {
        err := Some(EOF);
      }
    }

    /** All that is left to observe: the items to come, the state they leave, the error. */
    ghost function Future(): (seq<Item>, Scan, ReadError)
      requires Valid()
      reads this, r, buf
    {
      (Items(State(), Stream()), After(State(), Stream()), Ending())
    }

    /** One turn of the inner loop: consume one pending byte. */
    method Step() returns (out: Option<Item>)
      requires Valid() && lo < hi
      modifies this`lo, this`frame, this`corrupt
      ensures Valid() && lo == old(lo) + 1
      ensures out.None? ==> Future() == old(Future())
      ensures out.Some? ==> old(Future()) == ([out.value] + Future().0, Future().1, Future().2)
    {
      ghost var s, w := State(), Stream();
      var b := buf[lo];
      lo := lo + 1;
      assert w[0] == b && w[1..] == Stream();
      out := None;
      if b == CANCEL {
        frame, corrupt := [], false;
      } else if b == SUBST {
        corrupt := true;
      } else if b == XON || b == XOFF {
      } else if b == FLAG {
        var wasCorrupt, empty, body := corrupt, frame == [], frame;
        frame, corrupt := [], false;
        out := Some(if wasCorrupt || empty then Discarded else Body(body));
      } else if |frame| >= MAX_FRAME_LEN {
        frame, corrupt := [], true;
      } else {
        frame := frame + [b];
      }
      assert State() == Take(s, b) && Yield(s, b) == if out.None? then [] else [out.value];
      assert Items(s, w) == Yield(s, b) + Items(State(), Stream()) && After(s, w) == After(State(), Stream());
      assert out.None? ==> Items(s, w) == Items(State(), Stream());
    }

    /** The inner loop: consume pending bytes until one of them completes a frame. */
    method Consume() returns (out: Option<Item>)
      requires Valid()
      modifies this`lo, this`frame, this`corrupt
      ensures Valid()
      ensures out.None? ==> lo == hi && Future() == old(Future())
      ensures out.Some? ==> old(Future()) == ([out.value] + Future().0, Future().1, Future().2)
    {
      out := None;
      while lo < hi
        invariant out.None? && Valid() && Future() == old(Future())
        decreases hi - lo
      {
        out := Step();
        if out.Some? {
          return;
        }
      }
    }

    /** An error with nothing pending is all that is left. */
    lemma Exhausted()
      requires Valid() && lo == hi && err.Some?
      ensures Stream() == [] && Future() == ([], State(), err.value)
    {
    }

    method NextItem() returns (out: Next)
      requires Valid()
      modifies this`lo, this`hi, this`err, this`frame, this`corrupt, r, buf
      ensures Valid()
      ensures out.Got? ==> old(Future()) == ([out.item] + Future().0, Future().1, Future().2)
      ensures out.Stopped? ==>
        && old(Future()) == ([], State(), out.err)
        && Stream() == [] && err == Some(out.err)
    {
      while true
        invariant Valid() && Future() == old(Future())
        decreases err.None?, |r.script|
      {
        var item := Consume();
        if item.Some? {
          return Got(item.value);
        }
        if err.Some? {
          Exhausted();
          return Stopped(err.value);
        }
        Refill();
      }
    }
  }

  lemma Regroup(done: seq<Item>, item: Item, coming: seq<Item>, rest: seq<Item>)
    requires coming == [item] + rest
    ensures done + coming == (done + [item]) + rest
  {
  }

  /** One turn of the read pump: an item more, or the error that ends it. */
  method TakeNext(sc: Scanner, init: seq<Item>) returns (items: seq<Item>, stop: Option<ReadError>)
    requires sc.Valid()
    modifies sc, sc.r, sc.buf
    ensures sc.Valid()
    ensures items + sc.Future().0 == init + old(sc.Future()).0 && sc.Future().2 == old(sc.Future()).2
    ensures stop.None? ==> |sc.Future().0| < |old(sc.Future()).0|
    ensures stop.Some? ==> items == init + old(sc.Future()).0 && stop.value == old(sc.Future()).2
  {
    ghost var coming := sc.Future().0;
    items, stop := init, None;
    var next := sc.NextItem();
    match next {
      case Got(item) =>
        Regroup(init, item, coming, sc.Future().0);
        items := init + [item];
      case Stopped(e) =>
        assert sc.Future().0 == [] && coming == [] && init + [] == init;
        stop := Some(e);
    }
  }

  /** The read pump's loop. */
  method DrainFrom(sc: Scanner) returns (items: seq<Item>, err: ReadError)
    requires sc.Valid()
    modifies sc, sc.r, sc.buf
    ensures items == old(sc.Future()).0 && err == old(sc.Future()).2
  {
    items := [];
    ghost var future := sc.Future();
    assert items + future.0 == future.0;
    while true
      invariant sc.Valid() && items + sc.Future().0 == future.0 && sc.Future().2 == future.2
      decreases |sc.Future().0|
    {
      var stop;
      items, stop := TakeNext(sc, items);
      if stop.Some? {
        return items, stop.value;
      }
    }
  }

  /** The read pump's use of a scanner: everything it yields, to the error that ends it. */
  method Drain(r: Reader) returns (items: seq<Item>, err: ReadError)
    requires Bounded(r.script, 512)
    modifies r
    ensures items == old(Items(FRESH, Delivered(r.script)))
    ensures err == old(Final(r.script))
  {
    var sc := new Scanner(r);
    items, err := DrainFrom(sc);
  }

  // ----- What the fold, and so the scanner, guarantees.

  lemma {:induction false} ItemsAppend(s: Scan, a: seq<Byte>, b: seq<Byte>)
    ensures Items(s, a + b) == Items(s, a) + Items(After(s, a), b)
    ensures After(s, a + b) == After(After(s, a), b)
    decreases a
  {
    if a == [] {
      assert a + b == b;
    } else {
      assert (a + b)[1..] == a[1..] + b;
      ItemsAppend(Take(s, a[0]), a[1..], b);
    }
  }

  function Flat(script: seq<Read>): seq<Byte> {
    if script == [] then [] else script[0].bytes + Flat(script[1..])
  }

  /** Non-empty reads deliver exactly their concatenation. */
  lemma {:induction false} DeliversAll(script: seq<Read>, last: Read)
    requires forall c | c in script :: c.bytes != [] && c.err.None?
    requires last.err.Some?
    ensures Delivered(script + [last]) == Flat(script) + last.bytes
    ensures Final(script + [last]) == last.err.value
  {
    if script == [] {
      assert script + [last] == [last];
    } else {
      assert (script + [last])[1..] == script[1..] + [last];
      DeliversAll(script[1..], last);
    }
  }

  /** Cutting the same bytes into non-empty reads differently changes nothing the
      scanner yields, even when the last read brings bytes along with its error. */
  lemma SplitIrrelevant(one: seq<Read>, lastOne: Read, two: seq<Read>, lastTwo: Read)
    requires forall c | c in one + two :: c.bytes != [] && c.err.None?
    requires lastOne.err.Some? && lastOne.err == lastTwo.err
    requires Flat(one) + lastOne.bytes == Flat(two) + lastTwo.bytes
    ensures Items(FRESH, Delivered(one + [lastOne])) == Items(FRESH, Delivered(two + [lastTwo]))
    ensures Final(one + [lastOne]) == Final(two + [lastTwo])
  {
    assert forall c | c in one :: c in one + two;
    assert forall c | c in two :: c in one + two;
    DeliversAll(one, lastOne);
    DeliversAll(two, lastTwo);
  }

  /** After a cancel byte the scanner has forgotten everything before it. */
  lemma CancelIsolates(s: Scan, before: seq<Byte>, behind: seq<Byte>)
    ensures Items(s, before + [CANCEL] + behind) == Items(s, before) + Items(FRESH, behind)
  {
    ItemsAppend(s, before + [CANCEL], behind);
    ItemsAppend(s, before, [CANCEL]);
  }

  /** A stream with its flow-control bytes taken out. */
  function WithoutFlow(w: seq<Byte>): seq<Byte> {
    if w == [] then []
    else (if w[0] == XON || w[0] == XOFF then [] else [w[0]]) + WithoutFlow(w[1..])
  }

  lemma {:induction false} FlowIgnored(s: Scan, w: seq<Byte>)
    ensures Items(s, w) == Items(s, WithoutFlow(w))
    ensures After(s, w) == After(s, WithoutFlow(w))
    decreases w
  {
    if w != [] {
      FlowIgnored(Take(s, w[0]), w[1..]);
      if w[0] == XON || w[0] == XOFF {
        assert WithoutFlow(w) == WithoutFlow(w[1..]);
      } else {
        assert WithoutFlow(w)[1..] == WithoutFlow(w[1..]);
      }
    }
  }

  lemma TransparentTail(raw: seq<Byte>)
    requires Transparent(raw) && raw != []
    ensures Transparent(raw[1..])
  {
  }

  lemma {:induction false} PlainYieldsNothing(s: Scan, raw: seq<Byte>)
    requires Transparent(raw)
    ensures Items(s, raw) == []
    decreases raw
  {
    if raw != [] {
      assert raw[0] in raw && Yield(s, raw[0]) == [];
      TransparentTail(raw);
      PlainYieldsNothing(Take(s, raw[0]), raw[1..]);
    }
  }

  /** Plain bytes collect into the frame until it is full. */
  lemma {:induction false} PlainCollects(s: Scan, raw: seq<Byte>)
    requires Transparent(raw) && !s.corrupt && |s.frame| + |raw| <= MAX_FRAME_LEN
    ensures After(s, raw) == Scan(s.frame + raw, false)
    decreases raw
  {
    if raw != [] {
      assert raw[0] in raw;
      TransparentTail(raw);
      PlainCollects(Take(s, raw[0]), raw[1..]);
      assert s.frame + raw == (s.frame + [raw[0]]) + raw[1..];
    } else {
      assert s.frame + raw == s.frame;
    }
  }

  /** Past that the frame is marked corrupt, and plain bytes cannot clear the mark. */
  lemma {:induction false} PlainOverruns(s: Scan, raw: seq<Byte>)
    requires Transparent(raw) && |s.frame| <= MAX_FRAME_LEN
    requires s.corrupt || |s.frame| + |raw| > MAX_FRAME_LEN
    ensures After(s, raw).corrupt
    decreases raw
  {
    if raw != [] {
      assert raw[0] in raw;
      TransparentTail(raw);
      PlainOverruns(Take(s, raw[0]), raw[1..]);
    }
  }

  // ----- Frames through the scanner.

  predicate Fits(f: Frame) {
    |Escaped(Unstuffed(f))| <= MAX_FRAME_LEN
  }

  /** A frame with at most 125 payload bytes always fits, whatever needs escaping;
      one with 254 or more never does. */
  lemma PayloadBounds(f: Frame)
    ensures |f.data| <= 125 ==> Fits(f)
    ensures |f.data| >= 254 ==> !Fits(f)
  {
  }

  function Wire(fs: seq<Frame>): seq<Byte> {
    if fs == [] then [] else Escaped(Unstuffed(fs[0])) + [FLAG] + Wire(fs[1..])
  }

  /** What the far scanner yields for a frame sent. */
  function Arrival(f: Frame): Item {
    if Fits(f) then Body(Escaped(Unstuffed(f))) else Discarded
  }

  function Arrivals(fs: seq<Frame>): seq<Item> {
    if fs == [] then [] else [Arrival(fs[0])] + Arrivals(fs[1..])
  }

  /** What the read pump then decodes, skipping dropped frames. */
  function Received(items: seq<Item>): seq<Result<Frame, DecodeError>> {
    if items == [] then []
    else (if items[0].Body? then [Decoded(items[0].raw)] else []) + Received(items[1..])
  }

  lemma OneFrame(f: Frame)
    ensures var raw := Escaped(Unstuffed(f));
      Items(FRESH, raw + [FLAG]) == Arrivals([f]) && After(FRESH, raw + [FLAG]) == FRESH
  {
    hide Unstuffed, Transparent, NeedsEscape;
    var raw := Escaped(Unstuffed(f));
    StuffingRoundTrip(Unstuffed(f));
    PlainYieldsNothing(FRESH, raw);
    if Fits(f) {
      PlainCollects(FRESH, raw);
    } else {
      PlainOverruns(FRESH, raw);
    }
    ItemsAppend(FRESH, raw, [FLAG]);
    var full := After(FRESH, raw);
    assert Items(full, [FLAG]) == Yield(full, FLAG) + Items(FRESH, []);
    assert After(full, [FLAG]) == After(FRESH, []);
    assert FRESH.frame + raw == raw && raw != [];
  }

  lemma {:induction false} WireScanned(fs: seq<Frame>)
    ensures Items(FRESH, Wire(fs)) == Arrivals(fs)
  {
    if fs != [] {
      var first := Escaped(Unstuffed(fs[0])) + [FLAG];
      OneFrame(fs[0]);
      ItemsAppend(FRESH, first, Wire(fs[1..]));
      WireScanned(fs[1..]);
      assert Arrivals([fs[0]]) == Arrivals(fs)[..1];
    }
  }

  /** Frames written back to back, with flow-control bytes sprinkled anywhere, are
      cut apart again exactly: a frame whose stuffed body fits arrives whole, one
      that does not is dropped, and neither disturbs its neighbours. */
  lemma StreamTransparent(fs: seq<Frame>, w: seq<Byte>)
    requires WithoutFlow(w) == Wire(fs)
    ensures Items(FRESH, w) == Arrivals(fs)
  {
    FlowIgnored(FRESH, w);
    WireScanned(fs);
  }

  function Kept(fs: seq<Frame>): seq<Frame> {
    if fs == [] then [] else (if Fits(fs[0]) then [fs[0]] else []) + Kept(fs[1..])
  }

  function AllCarried(fs: seq<Frame>): seq<Result<Frame, DecodeError>> {
    if fs == [] then [] else [Ok(Carried(fs[0]))] + AllCarried(fs[1..])
  }

  /** A frame that fits is decoded as itself. */
  lemma {:induction false} ArrivalDecodes(f: Frame)
    requires |f.data| <= MAX_FRAME_LEN
    ensures Decoded(Escaped(Unstuffed(f))) == Ok(Carried(f))
  {
    FrameRoundTrip(f);
    var wire := Encoded(f).value;
    assert wire[..|wire| - 1] == Escaped(Unstuffed(f));
  }

  /** What the read pump makes of one arrival. */
  lemma {:induction false} ReceivedArrival(f: Frame, items: seq<Item>)
    requires |f.data| <= MAX_FRAME_LEN
    ensures Received([Arrival(f)] + items) == (if Fits(f) then [Ok(Carried(f))] else []) + Received(items)
  {
    ArrivalDecodes(f);
    assert ([Arrival(f)] + items)[1..] == items;
  }

  lemma {:induction false} KeptCarried(fs: seq<Frame>)
    requires fs != []
    ensures AllCarried(Kept(fs)) == (if Fits(fs[0]) then [Ok(Carried(fs[0]))] else []) + AllCarried(Kept(fs[1..]))
  {
    var rest := Kept(fs[1..]);
    if Fits(fs[0]) {
      assert Kept(fs) == [fs[0]] + rest && ([fs[0]] + rest)[1..] == rest;
    } else {
      assert Kept(fs) == rest;
    }
  }

  lemma {:induction false} ArrivalsDecode(fs: seq<Frame>)
    requires forall f | f in fs :: |f.data| <= MAX_FRAME_LEN
    ensures Received(Arrivals(fs)) == AllCarried(Kept(fs))
  {
    if fs != [] {
      ReceivedArrival(fs[0], Arrivals(fs[1..]));
      KeptCarried(fs);
      ArrivalsDecode(fs[1..]);
    }
  }

  lemma {:induction false} KeptAll(fs: seq<Frame>)
    requires forall f | f in fs :: Fits(f)
    ensures Kept(fs) == fs
  {
    if fs != [] {
      KeptAll(fs[1..]);
    }
  }

  /** End to end: a sender's frames, scanned and decoded, are the same frames in
      the same order, without those too long to fit. */
  lemma FramesSurvive(fs: seq<Frame>, w: seq<Byte>)
    requires forall f | f in fs :: |f.data| <= MAX_FRAME_LEN
    requires WithoutFlow(w) == Wire(fs)
    ensures Received(Items(FRESH, w)) == AllCarried(Kept(fs))
    ensures (forall f | f in fs :: Fits(f)) ==> Kept(fs) == fs
  {
    StreamTransparent(fs, w);
    ArrivalsDecode(fs);
    if forall f | f in fs :: Fits(f) {
      KeptAll(fs);
    }
  }
}
