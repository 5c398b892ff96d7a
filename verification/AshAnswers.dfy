/** What each end of the ASH link may read into what the other writes, said in full frame
    numbers and in frames rather than in three bits. */
module AshAnswers {
  import opened AshHost
  import opened AshLink
  import opened AshReceive
  import opened Wrappers

  // ----- What the host answers.

  lemma {:induction false} ReachableInv(lim: Limits, w: World)
    requires Sound(lim) && Reachable(lim, w)
    ensures Inv(lim, w)
  {
    var run: seq<Label>, ws: seq<World> :| Leads(lim, run, ws) && Initial(ws[0]) && ws[|run|] == w;
    LeadsKeeps(lim, run, ws);
  }

  /** How far from the frame awaited the one in hand can be. */
  lemma {:induction false} NearNext(lim: Limits, w: World)
    requires Sound(lim) && Inv(lim, w) && w.down != [] && w.down[0].f.Data?
    ensures var n := |w.accepted|;
      && w.down[0].f.frm == w.down[0].index % 8 && w.host.rxSeq == n % 8
      && n <= w.down[0].index + 7 && w.down[0].index < n + 7
  {
    assert DownFrame(lim, w, w.down[0]);
  }

  lemma {:induction false} ThreeBits(n: nat, i: nat)
    requires n <= i + 7 && i < n + 7
    ensures i % 8 == n % 8 <==> i == n
    ensures i % 8 == (n % 8 + 7) % 8 <==> i + 1 == n
  {
    assert n == 8 * (n / 8) + n % 8 && i == 8 * (i / 8) + i % 8;
  }

  lemma {:induction false} InHandIs(lim: Limits, w: World)
    requires Sound(lim) && Inv(lim, w) && Possible(lim, w, Judges)
    ensures var d := w.down[0];
      d.f.Data? && d.index < |w.sent| && w.host.pump == Judging(d.f.frm, w.sent[d.index])
  {
    assert DownFrame(lim, w, w.down[0]);
  }

  /** The frame awaited is accepted, the one before it only acknowledged again, and any other
      refused; either answer asks for the frame awaited from now on. */
  predicate AnsweredInFull(w: World, d: Down, w': World)
    requires d.index < |w.sent|
  {
    var n := |w.accepted|;
    && w'.accepted == (if d.index == n then w.accepted + [w.sent[d.index]] else w.accepted)
    && w'.host.pump.Answering?
    && w'.host.pump.answer ==
         (if d.index == n || d.index + 1 == n then OutAck(|w'.accepted| % 8) else OutNak(n % 8))
    && w'.host.pump.accepted == (if d.index == n then Some(w.sent[d.index]) else None)
  }

  lemma {:induction false} JudgedInFull(w: World, d: Down)
    requires w.down != [] && d.index < |w.sent| && w.host.pump == Judging(d.index % 8, w.sent[d.index])
    requires var n := |w.accepted|; w.host.rxSeq == n % 8 && n <= d.index + 7 && d.index < n + 7
    ensures AnsweredInFull(w, d, Compares(w))
  {
    ThreeBits(|w.accepted|, d.index);
  }

  /** Within the limits, over every run, and whatever the three-bit numbers look like. */
  lemma {:induction false} AnswerExact(lim: Limits, w: World)
    requires Sound(lim) && Reachable(lim, w) && Possible(lim, w, Judges)
    ensures w.down[0].f.Data? && w.down[0].index < |w.sent|
    ensures AnsweredInFull(w, w.down[0], Then(lim, w, Judges))
  {
    hide Inv, Sound, AnsweredInFull, Compares;
    ReachableInv(lim, w);
    InHandIs(lim, w);
    NearNext(lim, w);
    JudgedInFull(w, w.down[0]);
  }

  /** A frame that fails its CRC is refused by the number awaited. */
  lemma {:induction false} DamageAnswered(lim: Limits, w: World)
    requires Sound(lim) && Reachable(lim, w) && Possible(lim, w, Damaged)
    ensures Then(lim, w, Damaged).host.pump == Answering(OutNak(|w.accepted| % 8), None)
    ensures Then(lim, w, Damaged).accepted == w.accepted
  {
    ReachableInv(lim, w);
  }

  /** The answer prepared is what goes up the line, and what was accepted goes on to the
      consumer. */
  lemma {:induction false} AnswerGoesUp(lim: Limits, w: World)
    requires Possible(lim, w, Does(Answer))
    ensures var w' := Then(lim, w, Does(Answer));
      && |w'.up| == |w.up| + 1 && w'.up[..|w.up|] == w.up && w'.up[|w.up|].f == w.host.pump.answer
      && w'.host.pump ==
           (if w.host.pump.accepted.Some? then Offering(w.host.pump.accepted.value) else Resting)
  {
  }

  // ----- What reaches the consumer.

  /** An accepted payload is queued behind the others while fewer than sixty-four wait, else
      counted; and the consumer takes the one that has waited longest. */
  lemma {:induction false} OffersWhileRoom(h: Host)
    ensures h.pump.Offering? ==> var h' := Step(h, Offer).host;
      && h'.pump.Resting?
      && (|h.dataCh| < 64 ==> h'.dataCh == h.dataCh + [h.pump.payload] && h'.droppedData == h.droppedData)
      && (|h.dataCh| >= 64 ==> h'.dataCh == h.dataCh && h'.droppedData == h.droppedData + 1)
    ensures h.dataCh != [] ==> var s := Step(h, Consume);
      h.dataCh == [s.outcome.p] + s.host.dataCh
  {
  }

  // ----- What ends a wait of Send.

  /** The acknowledgement a frame carries, and whether it is a refusal. */
  function Carries(f: Inbound): Option<AckEvent> {
    match f
    case Data(_, ack, _) => Some(AckEvent(ack, false))
    case Ack(ack) => Some(AckEvent(ack, false))
    case Nak(ack) => Some(AckEvent(ack, true))
    case _ => None
  }

  /** Every acknowledgement a frame carries waits its turn, while there is room for eight, and
      every reset, while there is room for four. */
  lemma {:induction false} FramesSignal(h: Host, f: Inbound)
    requires h.pump.Resting?
    ensures var h' := Step(h, Heard(f)).host;
      && h'.ackCh == h.ackCh + (if Carries(f).Some? && |h.ackCh| < 8 then [Carries(f).value] else [])
      && h'.droppedACK == h.droppedACK + (if Carries(f).Some? && |h.ackCh| >= 8 then 1 else 0)
      && h'.resets == h.resets + (if f.Reset? && h.resets < 4 then 1 else 0)
      && h'.droppedReset == h.droppedReset + (if f.Reset? && h.resets >= 4 then 1 else 0)
      && h'.rxSeq == h.rxSeq && h'.txSeq == h.txSeq && h'.phase == h.phase
  {
  }

  /** From the frame to the outcome.  A Send that waits is completed by an acknowledgement of
      the frame after its own and by nothing else; a refusal, whatever its number, makes it try
      again, up to three times; any other number leaves it waiting. */
  lemma {:induction false} FrameEndsWait(h: Host, f: Inbound)
    requires h.phase.Waiting? && h.pump.Resting? && h.ackCh == [] && Carries(f).Some?
    ensures var h1 := Step(h, Heard(f)).host;
      Enabled(h1, TakeAck) &&
      var s := Step(h1, TakeAck);
      if f.Nak? then
        if h.phase.attempt < 3 then
          s.outcome == Nothing && s.host.phase == Retrying(h.phase.payload, h.phase.frm, h.phase.attempt + 1)
        else s.outcome == GaveUp && s.host.phase.Idle? && s.host.txSeq == h.txSeq
      else if f.ack == (h.phase.frm + 1) % 8 then
        s.outcome == Completed(h.phase.payload) && s.host.phase.Idle? && s.host.txSeq == (h.phase.frm + 1) % 8
      else s.outcome == Nothing && s.host.phase == h.phase && s.host.txSeq == h.txSeq
  {
  }

  /** A timeout is answered as a refusal is, and a reset ends the Send at once. */
  lemma {:induction false} OtherEndsOfWait(h: Host)
    requires h.phase.Waiting?
    ensures var s := Step(h, Timeout);
      if h.phase.attempt < 3 then
        s.outcome == Nothing && s.host.phase == Retrying(h.phase.payload, h.phase.frm, h.phase.attempt + 1)
      else s.outcome == GaveUp && s.host.phase.Idle?
    ensures h.resets > 0 ==> var s := Step(h, SeeReset); s.outcome == GaveUp && s.host.phase.Idle?
    ensures Step(h, Timeout).host.txSeq == h.txSeq && (h.resets > 0 ==> Step(h, SeeReset).host.txSeq == h.txSeq)
  {
  }

  /** The frames heard in a log. */
  function Frames(log: seq<Event>): nat
    decreases log
  {
    if log == [] then 0 else Frames(log[..|log| - 1]) + if log[|log| - 1].Heard? then 1 else 0
  }

  /** Of at most some number waiting at the start, and with this many frames heard since. */
  predicate Leftover(h: Host, waiting: nat, frames: nat) {
    && |h.ackCh| <= waiting + frames
    && (h.phase.Draining? || h.phase.Idle? || |h.ackCh| <= frames)
  }

  lemma {:induction false} LeftoverStep(h: Host, e: Event, waiting: nat, frames: nat)
    requires Enabled(h, e) && !e.Begin? && Leftover(h, waiting, frames)
    ensures Leftover(Step(h, e).host, waiting, frames + if e.Heard? then 1 else 0)
  {
  }

  lemma LeftoverStart(h: Host)
    requires h.phase.Draining?
    ensures Leftover(h, |h.ackCh|, 0)
  {
  }

  /** What was left over from before a Send is thrown away before its frame is written: whatever
      acknowledgements it can still take came with the frames heard since it began. */
  lemma {:induction false} LeftoversIgnored(h: Host, log: seq<Event>)
    requires h.phase.Draining? && Run(h, log).Ran? && forall e | e in log :: !e.Begin?
    ensures Leftover(Run(h, log).host, |h.ackCh|, Frames(log))
    decreases log
  {
    hide Step, Leftover;
    if log != [] {
      var n := |log| - 1;
      assert log[n] in log && forall e | e in log[..n] :: e in log;
      LeftoversIgnored(h, log[..n]);
      LeftoverStep(Run(h, log[..n]).host, log[n], |h.ackCh|, Frames(log[..n]));
    } else {
      LeftoverStart(h);
    }
  }

  lemma {:induction false} NoFrames(log: seq<Event>)
    requires forall e | e in log :: !e.Heard?
    ensures Frames(log) == 0
    decreases log
  {
    if log != [] {
      NoFrames(log[..|log| - 1]);
      assert log[|log| - 1] in log;
    }
  }

  /** So the first acknowledgement taken came after Begin, and with nothing heard a Send has
      nothing to take. */
  lemma {:induction false} NothingHeardNothingTaken(h: Host, payload: Payload, log: seq<Event>)
    requires h.phase.Idle? && forall e | e in log :: !e.Begin? && !e.Heard?
    requires Run(Step(h, Begin(payload)).host, log).Ran?
    ensures !Enabled(Run(Step(h, Begin(payload)).host, log).host, TakeAck)
  {
    NoFrames(log);
    LeftoversIgnored(Step(h, Begin(payload)).host, log);
  }
}
