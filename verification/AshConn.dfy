/** Conn of internal/ash/conn.go as the object it is.  Every method keeps Valid():
    the object's state and everything it has written are what the machine of
    AshHost reaches by the logged events, so what AshLink proves of the machine's
    runs holds of the object. */
module AshConn {
  import opened AshHost
  import opened Wrappers

  /** What ends one wait of Send or happens beside it; a script supplies the choices
      that timers, contexts, the reader and select make. */
  datatype Wake =
    | Pump(f: Inbound)   // the read pump, when free, takes a frame
    | PumpBad            // the read pump, when free, meets a bad CRC
    | PumpOn             // the read pump takes its next step with the frame in hand
    | AckReady           // select takes from ackCh
    | ResetReady         // select takes from resetCh
    | TimerFired
    | LinkDown           // the read pump is gone, or the context is done
    | WriteFails         // the port refuses the next frame

  datatype Await = Waits | Acked | Again | Failed(result: SendResult)

  datatype SendResult = Sent | Closed | LinkFailed | NCPReset | Aborted

  /** The DATA frames among those written. */
  function DataOf(wire: seq<Outbound>): seq<Outbound> {
    if wire == [] then []
    else
      var n := |wire| - 1;
      DataOf(wire[..n]) + if wire[n].OutData? then [wire[n]] else []
  }

  lemma {:induction false} DataOfMore(wire: seq<Outbound>, f: Outbound)
    ensures DataOf(wire + [f]) == DataOf(wire) + if f.OutData? then [f] else []
  {
    assert (wire + [f])[..|wire|] == wire;
  }

  predicate IsData(f: Outbound, frm: Seq3, payload: Payload, again: bool) {
    f.OutData? && f.frm == frm && f.payload == payload && f.reTx == again
  }

  /** One frame, and the same frame again with its mark. */
  predicate Repeats(frames: seq<Outbound>, frm: Seq3, payload: Payload) {
    forall i | 0 <= i < |frames| :: IsData(frames[i], frm, payload, i > 0)
  }

  lemma {:induction false} RepeatsMore(frames: seq<Outbound>, more: seq<Outbound>, frm: Seq3, payload: Payload)
    requires Repeats(frames, frm, payload)
    requires more == [] || (|more| == 1 && IsData(more[0], frm, payload, |frames| > 0))
    ensures Repeats(frames + more, frm, payload)
  {
  }

  class Conn {
    var txSeq: Seq3
    var rxSeq: Seq3
    var closed: bool
    var ackCh: seq<AckEvent>
    var dataCh: seq<Payload>
    var resetCh: seq<Inbound>
    var droppedData: nat
    var droppedACK: nat
    var droppedReset: nat
    var wire: seq<Outbound>   // what has been written to the port
    var pump: Pump            // handle's locals, and how far it has got
    ghost var phase: Phase
    ghost var log: seq<Event>
    ghost var trail: seq<Ran> // where each event led
    ghost const start: Host   // the state just after Reset

    ghost function View(): Host
      reads this
    {
      Host(txSeq, rxSeq, ackCh, dataCh, |resetCh|, droppedData, droppedACK, droppedReset, phase, pump)
    }

    ghost function Now(): Ran
      reads this
      requires |trail| == |log| + 1
    {
      trail[|log|]
    }

    ghost predicate Valid()
      reads this
    {
      && Trail(start, log, trail) && Now().Ran? && Now().host == View() && Now().wire == wire
      && (pump.Answering? ==> !pump.answer.OutData?)
    }

    /** The outcome of the latest event. */
    ghost function Last(): Outcome
      reads this
      requires Valid()
    {
      Now().last
    }

    /** The payloads handed to Send so far. */
    ghost function Handed(): seq<Payload>
      reads this
      requires Valid()
    {
      Now().sends
    }

    /** A connection as Reset leaves it: whatever the channels held is still there. */
    constructor (acks: seq<AckEvent>, payloads: seq<Payload>, resets: seq<Inbound>)
      ensures Valid() && log == [] && wire == [] && txSeq == rxSeq == 0 && phase == Idle && pump.Resting?
      ensures ackCh == acks && dataCh == payloads && resetCh == resets && !closed
    {
      txSeq, rxSeq, closed := 0, 0, false;
      ackCh, dataCh, resetCh := acks, payloads, resets;
      droppedData, droppedACK, droppedReset := 0, 0, 0;
      wire, pump, phase, log := [], Resting, Idle, [];
      trail := [Begun(Host(0, 0, acks, payloads, |resets|, 0, 0, 0, Idle, Resting))];
      start := Host(0, 0, acks, payloads, |resets|, 0, 0, 0, Idle, Resting);
    }

    /** What the logged events lead the machine to is what the object is. */
    lemma Reached()
      requires Valid()
      ensures Run(start, log) == Ran(View(), wire, Handed(), Last())
    {
      TrailRuns(start, log, trail);
    }

    /** Append to the log an event that is possible now; the caller then makes the
        object what the machine says it becomes. */
    ghost method Note(e: Event)
      requires Valid() && Enabled(View(), e)
      modifies this`log, this`trail
      ensures log == old(log) + [e] && Trail(start, log, trail)
      ensures Now() == Ran(Step(View(), e).host, wire + Step(View(), e).out,
                           old(Now()).sends + (if e.Begin? then [e.payload] else []), Step(View(), e).outcome)
    {
      TrailOn(start, log, trail, e);
      trail := trail + [Onward(trail[|log|], e)];
      log := log + [e];
    }

    method SignalAck(ev: AckEvent)
      modifies this`ackCh, this`droppedACK
      ensures |old(ackCh)| < ACK_ROOM ==> ackCh == old(ackCh) + [ev] && droppedACK == old(droppedACK)
      ensures |old(ackCh)| >= ACK_ROOM ==> ackCh == old(ackCh) && droppedACK == old(droppedACK) + 1
    {
      if |ackCh| < ACK_ROOM {
        ackCh := ackCh + [ev];
      } else {
        droppedACK := droppedACK + 1;
      }
    }

    method SignalReset(f: Inbound)
      modifies this`resetCh, this`droppedReset
      ensures |old(resetCh)| < RESET_ROOM ==> resetCh == old(resetCh) + [f] && droppedReset == old(droppedReset)
      ensures |old(resetCh)| >= RESET_ROOM ==> resetCh == old(resetCh) && droppedReset == old(droppedReset) + 1
    {
      if |resetCh| < RESET_ROOM {
        resetCh := resetCh + [f];
      } else {
        droppedReset := droppedReset + 1;
      }
    }

    method TakeFrame(f: Inbound)
      modifies this`ackCh, this`resetCh, this`pump, this`droppedACK, this`droppedReset
      ensures View() == Taken(old(View()), f)
    {
      match f {
        case Data(frm, ack, payload) =>
          SignalAck(AckEvent(ack, false));
          pump := Judging(frm, payload);
        case Ack(ack) => SignalAck(AckEvent(ack, false));
        case Nak(ack) => SignalAck(AckEvent(ack, true));
        case Reset => SignalReset(f);
        case Rst =>
      }
    }

    /** handle begins: every kind of frame but DATA is done with at once. */
    method Handle(f: Inbound)
      requires Valid() && pump.Resting?
      modifies this`ackCh, this`resetCh, this`pump, this`log, this`trail, this`droppedACK, this`droppedReset
      ensures Valid() && log == old(log) + [Heard(f)] && Handed() == old(Handed())
    {
      Note(Heard(f));
      TakeFrame(f);
    }

    /** The read pump's answer to a frame that fails its CRC. */
    method HandleBad()
      requires Valid() && pump.Resting?
      modifies this`pump, this`log, this`trail
      ensures Valid() && log == old(log) + [HeardBad] && Handed() == old(Handed())
    {
      Note(HeardBad);
      pump := Answering(OutNak(rxSeq), None);
    }

    /** handle goes on: the frame is the one awaited, the last one again, or out of order. */
    method JudgeData(frm: Seq3, payload: Payload)
      requires Valid() && pump == Judging(frm, payload)
      modifies this`rxSeq, this`pump, this`log, this`trail
      ensures Valid() && log == old(log) + [Judge] && Handed() == old(Handed())
    {
      Note(Judge);
      var want := rxSeq;
      if frm != want {
        pump := Answering(if frm as int == (want as int + 7) % 8 then OutAck(want) else OutNak(want), None);
        return;
      }
      rxSeq := Next(rxSeq);
      pump := Answering(OutAck(rxSeq), Some(payload));
    }

    method WriteAnswer(answer: Outbound, accepted: Option<Payload>)
      requires Valid() && pump == Answering(answer, accepted)
      modifies this`wire, this`pump, this`log, this`trail
      ensures Valid() && log == old(log) + [Answer] && Handed() == old(Handed())
      ensures wire == old(wire) + [answer] && DataOf(wire) == old(DataOf(wire))
    {
      Note(Answer);
      DataOfMore(wire, answer);
      wire := wire + [answer];
      pump := if accepted.Some? then Offering(accepted.value) else Resting;
    }

    /** Never stall on a slow consumer. */
    method QueueData(payload: Payload)
      modifies this`dataCh, this`droppedData
      ensures View() == Deliver(old(View()), payload)
    {
      if |dataCh| < DATA_ROOM {
        dataCh := dataCh + [payload];
      } else {
        droppedData := droppedData + 1;
      }
    }

    method OfferData(payload: Payload)
      requires Valid() && pump == Offering(payload)
      modifies this`dataCh, this`droppedData, this`pump, this`log, this`trail
      ensures Valid() && log == old(log) + [Offer] && Handed() == old(Handed())
    {
      Note(Offer);
      QueueData(payload);
      pump := Resting;
    }

    method PumpStep()
      requires Valid()
      modifies this`rxSeq, this`dataCh, this`wire, this`pump, this`log, this`trail, this`droppedData
      ensures Valid() && old(log) <= log && Handed() == old(Handed()) && DataOf(wire) == old(DataOf(wire))
    {
      match pump {
        case Resting =>
        case Judging(frm, payload) => JudgeData(frm, payload);
        case Answering(answer, accepted) => WriteAnswer(answer, accepted);
        case Offering(payload) => OfferData(payload);
      }
    }

    predicate ForPump(w: Wake) {
      w.Pump? || w.PumpBad? || w.PumpOn?
    }

    /** The read pump getting in before the next step of Send. */
    method LetPumpRun(script: seq<Wake>) returns (rest: seq<Wake>)
      requires Valid()
      modifies this`ackCh, this`rxSeq, this`dataCh, this`resetCh, this`wire, this`pump, this`log, this`trail
      modifies this`droppedData, this`droppedACK, this`droppedReset
      ensures Valid() && old(log) <= log && Handed() == old(Handed())
      ensures |rest| <= |script| && phase == old(phase) && DataOf(wire) == old(DataOf(wire))
      ensures rest == [] || !ForPump(rest[0])
    {
      rest := script;
      while rest != [] && ForPump(rest[0])
        invariant Valid() && old(log) <= log && Handed() == old(Handed()) && |rest| <= |script|
        invariant DataOf(wire) == old(DataOf(wire))
        decreases |rest|
      {
        if rest[0].PumpOn? {
          PumpStep();
        } else if pump.Resting? {
          if rest[0].Pump? {
            Handle(rest[0].f);
          } else {
            HandleBad();
          }
        }
        rest := rest[1..];
      }
    }

    /** What each way of waiting leaves behind. */
    ghost predicate Ended(before: Phase, r: Await)
      requires Valid() && before.Waiting?
      reads this
    {
      match r
      case Waits => phase == before
      case Acked => phase.Idle? && Last() == Completed(before.payload)
      case Again => phase == AfterFailure(before) && (phase.Idle? ==> Last() == GaveUp)
      case Failed(result) => phase.Idle? && Last() == GaveUp && (result == NCPReset || result == Aborted)
    }

    /** awaitAck receives from ackCh: nil when it keeps waiting. */
    method ReceiveAck(wantAck: Seq3) returns (r: Await)
      requires Valid() && phase.Waiting? && wantAck == Next(phase.frm) && ackCh != []
      modifies this`ackCh, this`txSeq, this`phase, this`log, this`trail
      ensures Valid() && log == old(log) + [TakeAck] && Handed() == old(Handed())
      ensures Ended(old(phase), r)
    {
      Note(TakeAck);
      var ev := ackCh[0];
      ackCh := ackCh[1..];
      if ev.nak {
        phase := AfterFailure(phase);
        return Again;
      }
      if ev.ackNum == wantAck {
        txSeq, phase := wantAck, Idle;
        return Acked;
      }
      r := Waits;
    }

    method Abandon()
      requires Valid() && (phase.Writing? || phase.Waiting?)
      modifies this`phase, this`log, this`trail
      ensures Valid() && log == old(log) + [GiveUp] && Handed() == old(Handed())
      ensures phase.Idle? && Last() == GaveUp
    {
      Note(GiveUp);
      phase := Idle;
    }

    method Expire()
      requires Valid() && phase.Waiting?
      modifies this`phase, this`log, this`trail
      ensures Valid() && log == old(log) + [Timeout] && Handed() == old(Handed())
      ensures Ended(old(phase), Again)
    {
      Note(Timeout);
      phase := AfterFailure(phase);
    }

    method NoticeReset()
      requires Valid() && phase.Waiting? && resetCh != []
      modifies this`phase, this`log, this`trail, this`resetCh
      ensures Valid() && log == old(log) + [SeeReset] && Handed() == old(Handed())
      ensures Ended(old(phase), Failed(NCPReset))
    {
      Note(SeeReset);
      resetCh, phase := resetCh[1..], Idle;
    }

    method AwaitAck(script: seq<Wake>, wantAck: Seq3) returns (r: Await, rest: seq<Wake>)
      requires Valid() && phase.Waiting? && wantAck == Next(phase.frm)
      modifies this`ackCh, this`rxSeq, this`dataCh, this`resetCh, this`wire, this`pump, this`log, this`trail
      modifies this`txSeq, this`phase, this`droppedData, this`droppedACK, this`droppedReset
      ensures Valid() && old(log) < log && Handed() == old(Handed()) && DataOf(wire) == old(DataOf(wire))
      ensures Ended(old(phase), r) && !r.Waits?
    {
      rest := script;
      while true
        invariant Valid() && phase == old(phase) && DataOf(wire) == old(DataOf(wire))
        invariant old(log) <= log && Handed() == old(Handed())
        decreases |rest|
      {
        rest := LetPumpRun(rest);
        if rest == [] {
          Abandon();
          return Failed(Aborted), rest;
        }
        var wake := rest[0];
        rest := rest[1..];
        if wake.AckReady? && ackCh != [] {
          r := ReceiveAck(wantAck);
          if !r.Waits? {
            return;
          }
        } else if wake.ResetReady? && resetCh != [] {
          NoticeReset();
          return Failed(NCPReset), rest;
        } else if wake.TimerFired? {
          Expire();
          return Again, rest;
        } else if wake.LinkDown? {
          Abandon();
          return Failed(Aborted), rest;
        }
      }
    }

    method DropAck()
      requires Valid() && phase.Draining? && ackCh != []
      modifies this`ackCh, this`log, this`trail
      ensures Valid() && log == old(log) + [Drain] && Handed() == old(Handed())
      ensures ackCh == old(ackCh)[1..]
    {
      Note(Drain);
      ackCh := ackCh[1..];
    }

    method EndDrain()
      requires Valid() && phase.Draining? && ackCh == []
      modifies this`phase, this`log, this`trail
      ensures Valid() && log == old(log) + [Drained] && Handed() == old(Handed())
      ensures phase == Writing(old(phase.payload), old(phase.frm), old(phase.ack), 0)
    {
      Note(Drained);
      phase := Writing(phase.payload, phase.frm, phase.ack, 0);
    }

    /** Clear stale acknowledgements, the read pump still running. */
    method DrainAcks(script: seq<Wake>) returns (rest: seq<Wake>)
      requires Valid() && phase.Draining?
      modifies this`ackCh, this`rxSeq, this`dataCh, this`resetCh, this`wire, this`pump, this`log, this`trail, this`phase
      modifies this`droppedData, this`droppedACK, this`droppedReset
      ensures Valid() && old(log) <= log && Handed() == old(Handed()) && DataOf(wire) == old(DataOf(wire))
      ensures phase == Writing(old(phase.payload), old(phase.frm), old(phase.ack), 0)
    {
      rest := LetPumpRun(script);
      while |ackCh| > 0
        invariant Valid() && phase == old(phase) && DataOf(wire) == old(DataOf(wire))
        invariant old(log) <= log && Handed() == old(Handed())
        decreases |rest|, |ackCh|
      {
        DropAck();
        if rest != [] {
          rest := LetPumpRun(rest[1..]);
        }
      }
      EndDrain();
    }

    /** Write the DATA frame with whatever acknowledgement number was read for it. */
    method WriteData(frm: Seq3, ack: Seq3, payload: Payload, attempt: nat)
      requires Valid() && phase == Writing(payload, frm, ack, attempt)
      modifies this`wire, this`phase, this`log, this`trail
      ensures Valid() && log == old(log) + [Write] && Handed() == old(Handed())
      ensures phase == Waiting(payload, frm, attempt)
      ensures DataOf(wire) == old(DataOf(wire)) + [OutData(frm, ack, attempt > 0, payload)]
    {
      Note(Write);
      DataOfMore(wire, OutData(frm, ack, attempt > 0, payload));
      wire := wire + [OutData(frm, ack, attempt > 0, payload)];
      phase := Waiting(payload, frm, attempt);
    }

    /** Refresh the piggybacked acknowledgement: frames may have arrived since. */
    method RefreshAck(frm: Seq3, payload: Payload, attempt: nat) returns (ack: Seq3)
      requires Valid() && phase == Retrying(payload, frm, attempt)
      modifies this`phase, this`log, this`trail
      ensures Valid() && log == old(log) + [Refresh] && Handed() == old(Handed())
      ensures ack == rxSeq && phase == Writing(payload, frm, ack, attempt)
    {
      Note(Refresh);
      ack := rxSeq;
      phase := Writing(payload, frm, ack, attempt);
    }

    /** Before each attempt, the read pump running: a retry takes the newest number. */
    method Prepare(frm: Seq3, piggyback: Seq3, payload: Payload, attempt: nat, script: seq<Wake>)
      returns (ack: Seq3, rest: seq<Wake>)
      requires Valid() && attempt <= MAX_RETRIES
      requires phase == if attempt == 0 then Writing(payload, frm, piggyback, 0) else Retrying(payload, frm, attempt)
      modifies this`ackCh, this`rxSeq, this`dataCh, this`resetCh, this`wire, this`pump, this`log, this`trail
      modifies this`phase, this`droppedData, this`droppedACK, this`droppedReset
      ensures Valid() && old(log) <= log && Handed() == old(Handed()) && DataOf(wire) == old(DataOf(wire))
      ensures phase == Writing(payload, frm, ack, attempt)
    {
      rest := LetPumpRun(script);
      ack := piggyback;
      if attempt > 0 {
        ack := RefreshAck(frm, payload, attempt);
        rest := LetPumpRun(rest);
      }
    }

    /** One turn of Send's retry loop. */
    method Attempt(frm: Seq3, piggyback: Seq3, payload: Payload, attempt: nat, script: seq<Wake>)
      returns (r: Await, rest: seq<Wake>, ghost frames: seq<Outbound>)
      requires Valid() && attempt <= MAX_RETRIES
      requires phase == if attempt == 0 then Writing(payload, frm, piggyback, 0) else Retrying(payload, frm, attempt)
      modifies this`ackCh, this`rxSeq, this`dataCh, this`resetCh, this`wire, this`pump, this`log, this`trail
      modifies this`txSeq, this`phase, this`droppedData, this`droppedACK, this`droppedReset
      ensures Valid() && old(log) < log && Handed() == old(Handed())
      ensures Ended(Waiting(payload, frm, attempt), r) && !r.Waits?
      ensures DataOf(wire) == old(DataOf(wire)) + frames && (frames == [] ==> r.Failed?)
      ensures frames == [] || (|frames| == 1 && IsData(frames[0], frm, payload, attempt > 0))
    {
      var ack;
      ack, rest := Prepare(frm, piggyback, payload, attempt, script);
      frames := [];
      if rest != [] && rest[0].WriteFails? {
        Abandon();
        return Failed(Aborted), rest, frames;
      }
      WriteData(frm, ack, payload, attempt);
      frames := [OutData(frm, ack, attempt > 0, payload)];
      r, rest := AwaitAck(rest, Next(frm));
    }

    /** Send's retry loop. */
    method Retry(frm: Seq3, ack: Seq3, payload: Payload, script: seq<Wake>)
      returns (r: SendResult, ghost frames: seq<Outbound>)
      requires Valid() && phase == Writing(payload, frm, ack, 0)
      modifies this`ackCh, this`rxSeq, this`dataCh, this`resetCh, this`wire, this`pump, this`log, this`trail
      modifies this`txSeq, this`phase, this`droppedData, this`droppedACK, this`droppedReset
      ensures Valid() && phase.Idle? && old(log) <= log && Handed() == old(Handed())
      ensures r != Closed && Last() == if r == Sent then Completed(payload) else GaveUp
      ensures DataOf(wire) == old(DataOf(wire)) + frames && Repeats(frames, frm, payload) && |frames| <= 4
      ensures (r == Sent ==> frames != []) && (r == LinkFailed ==> |frames| == 4)
    {
      var rest := script;
      frames := [];
      for attempt := 0 to MAX_RETRIES + 1
        invariant Valid() && old(log) <= log && Handed() == old(Handed())
        invariant attempt == 0 ==> phase == Writing(payload, frm, ack, 0)
        invariant 0 < attempt <= MAX_RETRIES ==> phase == Retrying(payload, frm, attempt)
        invariant attempt > MAX_RETRIES ==> phase.Idle? && Last() == GaveUp
        invariant DataOf(wire) == old(DataOf(wire)) + frames && |frames| == attempt && Repeats(frames, frm, payload)
      {
        var waited;
        ghost var more;
        waited, rest, more := Attempt(frm, ack, payload, attempt, rest);
        RepeatsMore(frames, more, frm, payload);
        assert old(DataOf(wire)) + (frames + more) == (old(DataOf(wire)) + frames) + more;
        frames := frames + more;
        if waited.Failed? {
          return waited.result, frames;
        } else if waited.Acked? {
          return Sent, frames;
        }
      }
      r := LinkFailed;
    }

    /** Both numbers are read under one lock. */
    method BeginSend(payload: Payload) returns (frm: Seq3, ack: Seq3)
      requires Valid() && phase.Idle?
      modifies this`phase, this`log, this`trail
      ensures Valid() && log == old(log) + [Begin(payload)] && Handed() == old(Handed()) + [payload]
      ensures frm == txSeq && ack == rxSeq && phase == Draining(payload, frm, ack)
    {
      frm, ack := txSeq, rxSeq;
      Note(Begin(payload));
      phase := Draining(payload, frm, ack);
    }

    /** One whole Send.  It reports success exactly when the acknowledgement of its
        own frame number ended it, and is always one complete exchange of the machine.  Of DATA
        frames it writes its own up to four times, marked as a retransmission from the second
        on, and no other. */
    method Send(payload: Payload, script: seq<Wake>) returns (r: SendResult, ghost frames: seq<Outbound>)
      requires Valid() && phase.Idle?
      modifies this`ackCh, this`rxSeq, this`dataCh, this`resetCh, this`wire, this`pump, this`log, this`trail
      modifies this`txSeq, this`phase, this`droppedData, this`droppedACK, this`droppedReset
      ensures Valid() && phase.Idle? && old(log) <= log
      ensures r == Closed <==> closed
      ensures closed ==> View() == old(View()) && wire == old(wire) && log == old(log)
      ensures !closed ==> Handed() == old(Handed()) + [payload]
      ensures !closed ==> Last() == if r == Sent then Completed(payload) else GaveUp
      ensures DataOf(wire) == old(DataOf(wire)) + frames && Repeats(frames, old(txSeq), payload) && |frames| <= 4
      ensures (r == Sent ==> frames != []) && (r == LinkFailed ==> |frames| == 4)
    {
      frames := [];
      if closed {
        return Closed, frames;
      }
      var frm, ack := BeginSend(payload);
      var rest := DrainAcks(script);
      r, frames := Retry(frm, ack, payload, rest);
    }
  }
}
