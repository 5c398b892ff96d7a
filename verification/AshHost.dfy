/** The host's side of the ASH link in internal/ash/conn.go, as a machine: one
    step for every region of Conn that runs without interruption, of Send and of the
    read pump alike. */
module AshHost {
  import AshFrame
  import opened Wrappers

  type Payload = seq<AshFrame.Byte>

  /** Frame numbers travel in three bits. */
  type Seq3 = n: nat | n < 8

  const ACK_ROOM: nat := 8
  const DATA_ROOM: nat := 64
  const RESET_ROOM: nat := 4
  const MAX_RETRIES: nat := 3

  function Next(n: Seq3): Seq3 {
    (n + 1) % 8
  }

  /** A decoded frame from the NCP. */
  datatype Inbound =
    | Data(frm: Seq3, ack: Seq3, payload: Payload)
    | Ack(ack: Seq3)
    | Nak(ack: Seq3)
    | Reset
    | Rst

  /** A frame written to the NCP. */
  datatype Outbound =
    | OutData(frm: Seq3, ack: Seq3, reTx: bool, payload: Payload)
    | OutAck(ack: Seq3)
    | OutNak(ack: Seq3)

  /** Where the read pump is with the frame in its hands.  It is the only one to change
      rxSeq, so reading that number and moving it on are one step; everything between
      the steps is open to Send. */
  datatype Pump =
    | Resting
    | Judging(frm: Seq3, payload: Payload)                  // acknowledgement signalled
    | Answering(answer: Outbound, accepted: Option<Payload>) // number compared
    | Offering(payload: Payload)                            // answer written

  datatype AckEvent = AckEvent(ackNum: Seq3, nak: bool)

  /** How far a Send has got.  The acknowledgement number a DATA frame will carry is
      read, under the lock, before the frame is written outside it. */
  datatype Phase =
    | Idle
    | Draining(payload: Payload, frm: Seq3, ack: Seq3)
    | Writing(payload: Payload, frm: Seq3, ack: Seq3, attempt: nat)
    | Waiting(payload: Payload, frm: Seq3, attempt: nat)
    | Retrying(payload: Payload, frm: Seq3, attempt: nat)

  datatype Host = Host(
    txSeq: Seq3, rxSeq: Seq3,
    ackCh: seq<AckEvent>, dataCh: seq<Payload>, resets: nat,
    droppedData: nat, droppedACK: nat, droppedReset: nat,
    phase: Phase, pump: Pump)

  datatype Event =
    | Heard(f: Inbound)      // the read pump takes a frame
    | HeardBad               // the read pump sees a frame fail its CRC
    | Judge                  // it compares a DATA frame's number with its own
    | Answer                 // it writes its answer
    | Offer                  // it offers an accepted payload to the consumer
    | Begin(payload: Payload)
    | Drain                  // Send throws away one stale acknowledgement
    | Drained                // Send finds none left
    | Write                  // Send writes its DATA frame
    | TakeAck                // awaitAck receives an acknowledgement
    | Timeout                // awaitAck's timer fires
    | SeeReset               // awaitAck receives a reset notification
    | Refresh                // Send reads a newer acknowledgement number to retry with
    | GiveUp                 // write error, closed link or cancelled context
    | Consume                // the consumer receives a payload

  datatype Outcome = Nothing | Accepted(p: Payload) | Completed(p: Payload) | GaveUp | Consumed(p: Payload)

  datatype Effect = Effect(host: Host, out: seq<Outbound>, outcome: Outcome)

  function SignalAck(h: Host, ev: AckEvent): Host {
    if |h.ackCh| < ACK_ROOM then h.(ackCh := h.ackCh + [ev]) else h.(droppedACK := h.droppedACK + 1)
  }

  function Deliver(h: Host, p: Payload): Host {
    if |h.dataCh| < DATA_ROOM then h.(dataCh := h.dataCh + [p]) else h.(droppedData := h.droppedData + 1)
  }

  /** Taking a frame: of a DATA frame, only as far as its acknowledgement. */
  function Taken(h: Host, f: Inbound): Host {
    match f
    case Data(frm, ack, payload) => SignalAck(h, AckEvent(ack, false)).(pump := Judging(frm, payload))
    case Ack(ack) => SignalAck(h, AckEvent(ack, false))
    case Nak(ack) => SignalAck(h, AckEvent(ack, true))
    case Reset =>
      if h.resets < RESET_ROOM then h.(resets := h.resets + 1) else h.(droppedReset := h.droppedReset + 1)
    case Rst => h
  }

  /** A repeat of the last frame is acknowledged again, anything else unexpected refused. */
  function Judged(h: Host): Effect
    requires h.pump.Judging?
  {
    if h.pump.frm == h.rxSeq then
      var h1 := h.(rxSeq := Next(h.rxSeq));
      Effect(h1.(pump := Answering(OutAck(h1.rxSeq), Some(h.pump.payload))), [], Accepted(h.pump.payload))
    else
      var answer := if h.pump.frm == (h.rxSeq + 7) % 8 then OutAck(h.rxSeq) else OutNak(h.rxSeq);
      Effect(h.(pump := Answering(answer, None)), [], Nothing)
  }

  function Answered(h: Host): Effect
    requires h.pump.Answering?
  {
    var next := if h.pump.accepted.Some? then Offering(h.pump.accepted.value) else Resting;
    Effect(h.(pump := next), [h.pump.answer], Nothing)
  }

  /** Where a failed attempt leaves Send: about to try again, or finished. */
  function AfterFailure(p: Phase): Phase
    requires p.Waiting?
  {
    if p.attempt < MAX_RETRIES then Retrying(p.payload, p.frm, p.attempt + 1) else Idle
  }

  function Retried(h: Host): Effect
    requires h.phase.Waiting?
  {
    var next := AfterFailure(h.phase);
    Effect(h.(phase := next), [], if next.Idle? then GaveUp else Nothing)
  }

  function AckTaken(h: Host): Effect
    requires h.phase.Waiting? && h.ackCh != []
  {
    var ev, h1 := h.ackCh[0], h.(ackCh := h.ackCh[1..]);
    if ev.nak then Retried(h1)
    else if ev.ackNum == Next(h.phase.frm) then
      Effect(h1.(txSeq := ev.ackNum, phase := Idle), [], Completed(h.phase.payload))
    else Effect(h1, [], Nothing)
  }

  predicate Enabled(h: Host, e: Event) {
    match e
    case Heard(_) => h.pump.Resting?
    case HeardBad => h.pump.Resting?
    case Judge => h.pump.Judging?
    case Answer => h.pump.Answering?
    case Offer => h.pump.Offering?
    case Begin(_) => h.phase.Idle?
    case Drain => h.phase.Draining? && h.ackCh != []
    case Drained => h.phase.Draining? && h.ackCh == []
    case Write => h.phase.Writing?
    case TakeAck => h.phase.Waiting? && h.ackCh != []
    case Timeout => h.phase.Waiting?
    case SeeReset => h.phase.Waiting? && h.resets > 0
    case Refresh => h.phase.Retrying?
    case GiveUp => h.phase.Writing? || h.phase.Waiting?
    case Consume => h.dataCh != []
  }

  function Step(h: Host, e: Event): Effect
    requires Enabled(h, e)
  {
    match e
    case Heard(f) => Effect(Taken(h, f), [], Nothing)
    case HeardBad => Effect(h.(pump := Answering(OutNak(h.rxSeq), None)), [], Nothing)
    case Judge => Judged(h)
    case Answer => Answered(h)
    case Offer => Effect(Deliver(h, h.pump.payload).(pump := Resting), [], Nothing)
    case Begin(p) => Effect(h.(phase := Draining(p, h.txSeq, h.rxSeq)), [], Nothing)
    case Drain => Effect(h.(ackCh := h.ackCh[1..]), [], Nothing)
    case Drained =>
      Effect(h.(phase := Writing(h.phase.payload, h.phase.frm, h.phase.ack, 0)), [], Nothing)
    case Write =>
      Effect(h.(phase := Waiting(h.phase.payload, h.phase.frm, h.phase.attempt)),
             [OutData(h.phase.frm, h.phase.ack, h.phase.attempt > 0, h.phase.payload)], Nothing)
    case TakeAck => AckTaken(h)
    case Timeout => Retried(h)
    case SeeReset => Effect(h.(resets := h.resets - 1, phase := Idle), [], GaveUp)
    case Refresh =>
      Effect(h.(phase := Writing(h.phase.payload, h.phase.frm, h.rxSeq, h.phase.attempt)), [], Nothing)
    case GiveUp => Effect(h.(phase := Idle), [], GaveUp)
    case Consume => Effect(h.(dataCh := h.dataCh[1..]), [], Consumed(h.dataCh[0]))
  }

  /** Where a run is: the machine's state, all it has written, the payloads handed to Send
      in order, and the latest outcome. */
  datatype Ran = Stuck | Ran(host: Host, wire: seq<Outbound>, sends: seq<Payload>, last: Outcome)

  function Begun(h: Host): Ran {
    Ran(h, [], [], Nothing)
  }

  function Onward(r: Ran, e: Event): Ran {
    if r.Stuck? || !Enabled(r.host, e) then Stuck
    else
      var step := Step(r.host, e);
      Ran(step.host, r.wire + step.out, r.sends + if e.Begin? then [e.payload] else [], step.outcome)
  }

  /** A run of the machine: where a log of events leads. */
  function Run(h: Host, log: seq<Event>): Ran
    decreases log
  {
    if log == [] then Begun(h) else Onward(Run(h, log[..|log| - 1]), log[|log| - 1])
  }

  /** The same kept step by step. */
  predicate Moves(log: seq<Event>, trail: seq<Ran>, i: nat) {
    i < |log| && i + 1 < |trail| && trail[i + 1] == Onward(trail[i], log[i])
  }

  ghost predicate Trail(h: Host, log: seq<Event>, trail: seq<Ran>) {
    && |trail| == |log| + 1 && trail[0] == Begun(h)
    && forall i: nat {:trigger Moves(log, trail, i)} | i < |log| :: Moves(log, trail, i)
  }

  lemma {:induction false} TrailOn(h: Host, log: seq<Event>, trail: seq<Ran>, e: Event)
    requires Trail(h, log, trail)
    ensures Trail(h, log + [e], trail + [Onward(trail[|log|], e)])
  {
    var log', trail' := log + [e], trail + [Onward(trail[|log|], e)];
    forall i: nat | i < |log'| ensures Moves(log', trail', i) {
      assert i < |log| ==> Moves(log, trail, i);
    }
  }

  lemma {:induction false} TrailRuns(h: Host, log: seq<Event>, trail: seq<Ran>)
    requires Trail(h, log, trail)
    ensures Run(h, log) == trail[|log|]
  {
    if log != [] {
      var n := |log| - 1;
      var log', trail' := log[..n], trail[..n + 1];
      assert Moves(log, trail, n);
      forall i: nat | i < n ensures Moves(log', trail', i) {
        assert Moves(log, trail, i);
      }
      TrailRuns(h, log', trail');
    }
  }
}
