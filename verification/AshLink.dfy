/** The whole ASH link: the host machine of AshHost and a network coprocessor that
    runs Go-Back-N with a bounded window, over two first-in first-out lines that may
    lose any frame.  A frame damaged on the way fails its CRC and counts as lost.

    The frames carry three-bit numbers only; the full counts kept beside them here
    exist for the proofs and decide nothing. */
module AshLink {
  import opened AshHost
  import opened Wrappers

  /** A frame on its way to the coprocessor.  count is the full value behind its
      acknowledgement number and at the host's count when it was written, so
      at - count is how stale the number was; index is the full frame number. */
  datatype Up = Up(f: Outbound, index: nat, count: nat, at: nat)

  /** A frame on its way to the host. */
  datatype Down = Down(f: Inbound, index: nat, count: nat)

  /** What the runs considered may do: the coprocessor's window, how many frames the
      host may accept between reading an acknowledgement number and writing it, and
      whether a Send may give up once its frame has been written. */
  datatype Limits = Limits(window: nat, staleness: nat, giveUp: bool)

  datatype World = World(
    host: Host,
    up: seq<Up>, down: seq<Down>,
    // host history
    accepted: seq<Payload>, completed: seq<Payload>,
    abandoned: bool,            // some Send gave up after its frame was written
    captured: nat,              // full value behind the number Send has read but not written
    ackCounts: seq<nat>,        // full values behind host.ackCh
    kept: seq<Payload>, consumed: seq<Payload>,
    backlog: seq<Payload>, dropped0: nat,
    // the coprocessor
    sent: seq<Payload>, base: nat, got: seq<Payload>)

  datatype Label =
    | Does(e: Event)       // a step of Send, of the consumer, or of the pump with its answer
    | Arrive               // the pump takes the oldest frame down
    | Damaged              // it fails its CRC there
    | Judges               // the pump compares the number of the DATA frame it took
    | LoseUp(i: nat)
    | LoseDown(i: nat)
    | NcpSend(p: Payload)  // a new payload, if the window allows
    | NcpResend(n: nat)    // an unacknowledged one again
    | NcpAck(nak: bool)
    | NcpHear              // the oldest frame up reaches the coprocessor

  predicate Initial(w: World) {
    && w.host.txSeq == 0 && w.host.rxSeq == 0 && w.host.phase.Idle? && w.host.pump.Resting?
    && |w.host.dataCh| <= DATA_ROOM
    && w.up == [] && w.down == []
    && w.accepted == [] && w.completed == [] && !w.abandoned && w.captured == 0
    && |w.ackCounts| == |w.host.ackCh|
    && w.kept == [] && w.consumed == [] && w.backlog == w.host.dataCh && w.dropped0 == w.host.droppedData
    && w.sent == [] && w.base == 0 && w.got == []
  }

  /** The events that a label other than Does brings about. */
  predicate OfLine(e: Event) {
    e.Heard? || e.HeardBad? || e.Judge?
  }

  /** The step makes a Send give up a frame that has been written.  A write that fails
      after all is one that is written and then given up. */
  predicate Abandons(h: Host, e: Event)
    requires Enabled(h, e)
  {
    Step(h, e).outcome.GaveUp? && !(h.phase.Writing? && h.phase.attempt == 0)
  }

  /** A DATA frame counts as being on the line until its number has been compared. */
  predicate InHand(w: World, i: nat) {
    i == 0 && w.host.pump.Judging?
  }

  predicate Possible(lim: Limits, w: World, lab: Label) {
    match lab
    case Does(e) =>
      && !OfLine(e) && Enabled(w.host, e)
      && (e.Write? ==> |w.accepted| <= w.captured + lim.staleness)
      && (Abandons(w.host, e) ==> lim.giveUp)
    case Arrive => w.down != [] && w.host.pump.Resting?
    case Damaged => w.down != [] && w.host.pump.Resting?
    case Judges => w.down != [] && w.host.pump.Judging?
    case LoseUp(i) => i < |w.up|
    case LoseDown(i) => i < |w.down| && !InHand(w, i)
    case NcpSend(p) => |w.sent| < w.base + lim.window
    case NcpResend(n) => w.base <= n < |w.sent|
    case NcpAck(_) => true
    case NcpHear => w.up != []
  }

  /** The window position an acknowledgement number names, if it names one. */
  function AckTo(base: nat, next: nat, ack: Seq3): nat {
    var k := base + (ack + 8 - base % 8) % 8;
    if k <= next then k else base
  }

  function Emit(w: World, f: Inbound, index: nat): World {
    w.(down := w.down + [Down(f, index, |w.got|)])
  }

  function Mark(w: World): Seq3 {
    |w.got| % 8
  }

  /** The host writes: fresh frames carry the current count, DATA the captured one. */
  function Written(w: World, out: seq<Outbound>): World {
    if out == [] then w
    else
      var f := out[0];
      w.(up := w.up + [Up(f, |w.completed|, if f.OutData? then w.captured else |w.accepted|, |w.accepted|)])
  }

  function Recorded(w: World, o: Outcome): World {
    match o
    case Accepted(p) => w.(accepted := w.accepted + [p])
    case Completed(p) => w.(completed := w.completed + [p])
    case Consumed(p) => w.(consumed := w.consumed + [p])
    case _ => w
  }

  /** A host step of Send, of the consumer, or of the pump with its answer. */
  function Acts(w: World, e: Event): World
    requires !OfLine(e) && Enabled(w.host, e)
  {
    var s := Step(w.host, e);
    var w1 := w.(host := s.host, abandoned := w.abandoned || Abandons(w.host, e));
    var w2 := if e.Begin? || e.Refresh? then w1.(captured := |w.accepted|) else w1;
    var w3 := if (e.Drain? || e.TakeAck?) && w.ackCounts != [] then w2.(ackCounts := w.ackCounts[1..]) else w2;
    var w4 := if e.Offer? && |w.host.dataCh| < DATA_ROOM then w3.(kept := w.kept + [w.host.pump.payload]) else w3;
    Recorded(Written(w4, s.out), s.outcome)
  }

  /** The host takes the oldest frame down. */
  function Hears(w: World): World
    requires w.down != []
  {
    var d := w.down[0];
    var room := !d.f.Reset? && !d.f.Rst? && |w.host.ackCh| < ACK_ROOM;
    w.(host := Taken(w.host, d.f),
       down := if d.f.Data? then w.down else w.down[1..],
       ackCounts := if room then w.ackCounts + [d.count] else w.ackCounts)
  }

  /** It fails its CRC. */
  function Spoils(w: World): World
    requires w.down != [] && w.host.pump.Resting?
  {
    w.(host := Step(w.host, HeardBad).host, down := w.down[1..])
  }

  /** The host compares the number of the frame it took. */
  function Compares(w: World): World
    requires w.down != [] && w.host.pump.Judging?
  {
    var s := Judged(w.host);
    Recorded(w.(host := s.host, down := w.down[1..]), s.outcome)
  }

  /** The coprocessor hears the oldest frame up. */
  function NcpHears(w: World): World
    requires w.up != []
  {
    var u := w.up[0];
    var w1 := w.(up := w.up[1..], base := AckTo(w.base, |w.sent|, u.f.ack));
    if u.f.OutData? && u.f.frm == Mark(w) then w1.(got := w.got + [u.f.payload]) else w1
  }

  function Then(lim: Limits, w: World, lab: Label): World
    requires Possible(lim, w, lab)
  {
    match lab
    case Does(e) => Acts(w, e)
    case Arrive => Hears(w)
    case Damaged => Spoils(w)
    case Judges => Compares(w)
    case LoseUp(i) => w.(up := w.up[..i] + w.up[i + 1..])
    case LoseDown(i) => w.(down := w.down[..i] + w.down[i + 1..])
    case NcpSend(p) => Emit(w.(sent := w.sent + [p]), Data(|w.sent| % 8, Mark(w), p), |w.sent|)
    case NcpResend(n) => Emit(w, Data(n % 8, Mark(w), w.sent[n]), n)
    case NcpAck(nak) => Emit(w, if nak then Nak(Mark(w)) else Ack(Mark(w)), 0)
    case NcpHear => NcpHears(w)
  }

  /** One step of a run through a succession of worlds. */
  predicate Hop(lim: Limits, run: seq<Label>, ws: seq<World>, i: nat) {
    i < |run| && i + 1 < |ws| && Possible(lim, ws[i], run[i]) && ws[i + 1] == Then(lim, ws[i], run[i])
  }

  ghost predicate Leads(lim: Limits, run: seq<Label>, ws: seq<World>) {
    |ws| == |run| + 1 && forall i: nat {:trigger Hop(lim, run, ws, i)} | i < |run| :: Hop(lim, run, ws, i)
  }

  /** The worlds that runs can reach. */
  ghost predicate Reachable(lim: Limits, w: World) {
    exists run, ws :: Leads(lim, run, ws) && Initial(ws[0]) && ws[|run|] == w
  }

  lemma {:induction false} Extend(lim: Limits, w: World, lab: Label)
    requires Reachable(lim, w) && Possible(lim, w, lab)
    ensures Reachable(lim, Then(lim, w, lab))
  {
    var run, ws :| Leads(lim, run, ws) && Initial(ws[0]) && ws[|run|] == w;
    var run', ws' := run + [lab], ws + [Then(lim, w, lab)];
    forall i: nat | i < |run'| ensures Hop(lim, run', ws', i) {
      assert i < |run| ==> Hop(lim, run, ws, i);
    }
    assert Leads(lim, run', ws') && ws'[0] == ws[0] && ws'[|run'|] == Then(lim, w, lab);
  }

  lemma {:induction false} Untouched(lim: Limits, w: World)
    requires Initial(w)
    ensures Reachable(lim, w)
  {
    var run: seq<Label> := [];
    assert Leads(lim, run, [w]) && [w][|run|] == w;
  }
}
