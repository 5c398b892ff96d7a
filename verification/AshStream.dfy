/** What the scanner of AshScanner makes of a line that is not clean: stretches the
    adapter marked as damaged, partial frames cancelled, and idle flags. */
module AshStream {
  import opened AshFrame
  import opened AshScanner
  import opened Wrappers

  /** No byte ends a frame or a partial one. */
  predicate Unended(bytes: seq<Byte>) {
    FLAG !in bytes && CANCEL !in bytes
  }

  lemma {:induction false} UnendedYieldsNothing(s: Scan, bytes: seq<Byte>)
    requires FLAG !in bytes
    ensures Items(s, bytes) == []
    decreases bytes
  {
    if bytes != [] {
      UnendedYieldsNothing(Take(s, bytes[0]), bytes[1..]);
    }
  }

  /** Once a frame is marked as damaged, only its end or a cancel clears the mark. */
  lemma {:induction false} StaysCorrupt(s: Scan, bytes: seq<Byte>)
    requires s.corrupt && Unended(bytes)
    ensures After(s, bytes).corrupt
    decreases bytes
  {
    if bytes != [] {
      StaysCorrupt(Take(s, bytes[0]), bytes[1..]);
    }
  }

  lemma {:induction false} Ends(s: Scan)
    ensures Items(s, [FLAG]) == Yield(s, FLAG) && After(s, [FLAG]) == FRESH
  {
    assert [FLAG][1..] == [];
    assert Items(s, [FLAG]) == Yield(s, FLAG) + Items(FRESH, []);
    assert After(s, [FLAG]) == After(FRESH, []);
  }

  /** A substitute byte, wherever it stands in a frame, condemns that frame and no other. */
  lemma {:induction false} SubstituteDiscards(s: Scan, before: seq<Byte>, behind: seq<Byte>)
    requires Unended(before) && Unended(behind)
    ensures Items(s, before + [SUBST] + behind + [FLAG]) == [Discarded]
    ensures After(s, before + [SUBST] + behind + [FLAG]) == FRESH
  {
    var bytes := before + [SUBST] + behind;
    ItemsAppend(s, before + [SUBST], behind);
    ItemsAppend(s, before, [SUBST]);
    var marked := After(s, before + [SUBST]);
    assert After(After(s, before), [SUBST]) == After(Take(After(s, before), SUBST), [SUBST][1..]);
    StaysCorrupt(marked, behind);
    UnendedYieldsNothing(s, bytes);
    ItemsAppend(s, bytes, [FLAG]);
    Ends(After(s, bytes));
  }

  lemma {:induction false} CancelForgets(s: Scan, before: seq<Byte>)
    requires FLAG !in before
    ensures Items(s, before + [CANCEL]) == [] && After(s, before + [CANCEL]) == FRESH
  {
    UnendedYieldsNothing(s, before);
    UnendedYieldsNothing(After(s, before), [CANCEL]);
    ItemsAppend(s, before, [CANCEL]);
    assert After(After(s, before), [CANCEL]) == After(FRESH, [CANCEL][1..]);
  }

  // ----- Whole streams.

  /** What may stand between one fresh start of the scanner and the next. */
  datatype Piece =
    | Sent(f: Frame)                                  // a frame as written
    | Marred(before: seq<Byte>, behind: seq<Byte>)    // one with a substitute byte in it
    | CutOff(before: seq<Byte>)                       // a partial one, cancelled
    | Idle                                            // a flag with nothing before it

  function OnLine(p: Piece): seq<Byte> {
    match p
    case Sent(f) => Escaped(Unstuffed(f)) + [FLAG]
    case Marred(before, behind) => before + [SUBST] + behind + [FLAG]
    case CutOff(before) => before + [CANCEL]
    case Idle => [FLAG]
  }

  predicate Proper(p: Piece) {
    match p
    case Sent(f) => |f.data| <= MAX_FRAME_LEN
    case Marred(before, behind) => Unended(before) && Unended(behind)
    case CutOff(before) => FLAG !in before
    case Idle => true
  }

  function Line(ps: seq<Piece>): seq<Byte> {
    if ps == [] then [] else OnLine(ps[0]) + Line(ps[1..])
  }

  /** The frames among them that are whole and fit. */
  function Whole(ps: seq<Piece>): seq<Frame> {
    if ps == [] then []
    else (if ps[0].Sent? && Fits(ps[0].f) then [ps[0].f] else []) + Whole(ps[1..])
  }

  lemma {:induction false} ReceivedCons(i: Item, rest: seq<Item>)
    ensures Received([i] + rest) == (if i.Body? then [Decoded(i.raw)] else []) + Received(rest)
  {
    hide Decoded;
    assert ([i] + rest)[1..] == rest;
  }

  lemma {:induction false} ReceivedAppend(a: seq<Item>, b: seq<Item>)
    ensures Received(a + b) == Received(a) + Received(b)
  {
    if a == [] {
      assert a + b == b;
    } else {
      hide Decoded, Received;
      assert a == [a[0]] + a[1..] && a + b == [a[0]] + (a[1..] + b);
      ReceivedCons(a[0], a[1..]);
      ReceivedCons(a[0], a[1..] + b);
      ReceivedAppend(a[1..], b);
    }
  }

  lemma {:induction false} CarriedCons(f: Frame, fs: seq<Frame>)
    ensures AllCarried([f] + fs) == [Ok(Carried(f))] + AllCarried(fs)
  {
    hide Carried;
    assert ([f] + fs)[1..] == fs;
  }

  lemma {:induction false} PieceReceived(p: Piece)
    requires Proper(p)
    ensures Received(Items(FRESH, OnLine(p))) == AllCarried(Whole([p])) && After(FRESH, OnLine(p)) == FRESH
  {
    assert [p][1..] == [];
    match p {
      case Sent(f) =>
        OneFrame(f);
        ReceivedArrival(f, []);
        assert Arrivals([f]) == [Arrival(f)] + [];
        CarriedCons(f, []);
        assert [f] + [] == [f];
      case Marred(before, behind) => SubstituteDiscards(FRESH, before, behind);
      case CutOff(before) => CancelForgets(FRESH, before);
      case Idle => Ends(FRESH);
    }
  }

  lemma {:induction false} WholeAppend(p: Piece, ps: seq<Piece>)
    ensures AllCarried(Whole([p] + ps)) == AllCarried(Whole([p])) + AllCarried(Whole(ps))
  {
    hide Carried, Fits;
    assert ([p] + ps)[1..] == ps && [p][1..] == [];
    if p.Sent? && Fits(p.f) {
      CarriedCons(p.f, Whole(ps));
      CarriedCons(p.f, []);
      assert [p.f] + [] == [p.f] == Whole([p]);
    } else {
      assert Whole([p]) == [] && [] + Whole(ps) == Whole(ps);
    }
  }

  lemma {:induction false} LineReceived(ps: seq<Piece>)
    requires forall p | p in ps :: Proper(p)
    ensures Received(Items(FRESH, Line(ps))) == AllCarried(Whole(ps))
  {
    if ps != [] {
      PieceReceived(ps[0]);
      LineReceived(ps[1..]);
      ItemsAppend(FRESH, OnLine(ps[0]), Line(ps[1..]));
      ReceivedAppend(Items(FRESH, OnLine(ps[0])), Items(FRESH, Line(ps[1..])));
      WholeAppend(ps[0], ps[1..]);
      assert [ps[0]] + ps[1..] == ps;
    }
  }

  /** However a line is interrupted, with flow-control bytes anywhere in it, exactly the
      frames that were written whole and fit are received, in order. */
  lemma {:induction false} InterruptedStream(ps: seq<Piece>, w: seq<Byte>)
    requires (forall p | p in ps :: Proper(p)) && WithoutFlow(w) == WithoutFlow(Line(ps))
    ensures Received(Items(FRESH, w)) == AllCarried(Whole(ps))
  {
    FlowIgnored(FRESH, w);
    FlowIgnored(FRESH, Line(ps));
    LineReceived(ps);
  }
}
