/** Send safety of the ASH link: the payloads of the Sends that reported success are
    exactly what the coprocessor has accepted, in every run, exactly if no Send may give
    up once its frame has been written. */
module AshSend {
  import opened AshHost
  import opened AshLink

  /** The property itself. */
  predicate Agreed(w: World) {
    w.host.phase.Idle? ==> w.got == w.completed
  }

  // ----- The invariant, all of it under the guard that no written frame was given up.

  /** The payloads numbered so far: those completed and the one under way. */
  function Numbered(w: World): seq<Payload> {
    w.completed + if w.host.phase.Idle? then [] else [w.host.phase.payload]
  }

  /** The current frame may be on the line or accepted only once it has been written. */
  predicate Fresh(p: Phase) {
    p.Idle? || p.Draining? || (p.Writing? && p.attempt == 0)
  }

  ghost predicate Position(w: World) {
    && w.host.txSeq == |w.completed| % 8
    && (!w.host.phase.Idle? ==> w.host.phase.frm == |w.completed| % 8)
    && (w.host.phase.Retrying? ==> w.host.phase.attempt > 0)
    && (w.got == w.completed || (!Fresh(w.host.phase) && w.got == Numbered(w)))
  }

  /** A DATA frame on the way up is the last one accepted, or the current one. */
  ghost predicate UpData(w: World, u: Up) {
    u.f.OutData? ==>
      && u.f.frm == u.index % 8 && |w.got| <= u.index + 1
      && u.index < |w.completed| + (if Fresh(w.host.phase) then 0 else 1)
      && u.f.payload == Numbered(w)[u.index]
  }

  ghost predicate UpInOrder(w: World) {
    && (forall i | 0 <= i < |w.up| :: UpData(w, w.up[i]))
    && (forall i, j | 0 <= i < j < |w.up| && w.up[i].f.OutData? && w.up[j].f.OutData? ::
          w.up[i].index <= w.up[j].index)
  }

  /** Send listens for acknowledgements; before that the channel may hold anything. */
  predicate Listening(p: Phase) {
    p.Writing? || p.Waiting? || p.Retrying?
  }

  function AckOf(f: Inbound): Seq3 {
    match f case Data(_, a, _) => a case Ack(a) => a case Nak(a) => a case Reset => 0 case Rst => 0
  }

  /** Acknowledgements never go back, whether still on the line or waiting in ackCh. */
  ghost predicate AcksInOrder(w: World) {
    && (forall i | 0 <= i < |w.down| ::
          && !w.down[i].f.Reset? && !w.down[i].f.Rst?
          && AckOf(w.down[i].f) == w.down[i].count % 8
          && |w.completed| <= w.down[i].count <= |w.got|)
    && (forall i, j | 0 <= i < j < |w.down| :: w.down[i].count <= w.down[j].count)
    && |w.ackCounts| == |w.host.ackCh|
  }

  ghost predicate AcksWaiting(w: World) {
    Listening(w.host.phase) ==>
      && |w.ackCounts| == |w.host.ackCh|
      && (forall i | 0 <= i < |w.ackCounts| ::
            && w.host.ackCh[i].ackNum == w.ackCounts[i] % 8
            && |w.completed| <= w.ackCounts[i] <= |w.got|)
      && (forall i, j | 0 <= i < j < |w.ackCounts| :: w.ackCounts[i] <= w.ackCounts[j])
      && (forall i, j | 0 <= i < |w.ackCounts| && 0 <= j < |w.down| :: w.ackCounts[i] <= w.down[j].count)
  }

  /** The pump answers with no data. */
  predicate Answerable(w: World) {
    w.host.pump.Answering? ==> !w.host.pump.answer.OutData?
  }

  ghost predicate Inv(w: World) {
    Answerable(w) && (!w.abandoned ==> Position(w) && UpInOrder(w) && AcksInOrder(w) && AcksWaiting(w))
  }

  // ----- Every step keeps it.

  /** Parts of a world this invariant does not look at. */
  predicate Same(w: World, w': World) {
    && w'.abandoned == w.abandoned && w'.completed == w.completed && w'.got == w.got
    && w'.host.txSeq == w.host.txSeq && w'.host.phase == w.host.phase
    && w'.host.ackCh == w.host.ackCh && w'.ackCounts == w.ackCounts && Answerable(w')
  }

  /** Lines that only lose frames, or gain answers that carry no data. */
  lemma LosesKeeps(w: World, w': World, i: nat, j: nat)
    requires Inv(w) && Same(w, w')
    requires w'.up == w.up || (i < |w.up| && w'.up == w.up[..i] + w.up[i + 1..])
    requires w'.down == w.down || (j < |w.down| && w'.down == w.down[..j] + w.down[j + 1..])
    ensures Inv(w')
  {
    assert forall u | UpData(w, u) :: UpData(w', u);
  }

  lemma AnswersKeeps(w: World, out: seq<Outbound>)
    requires Inv(w) && (out != [] ==> !out[0].OutData?)
    ensures Inv(Written(w, out))
  {
  }

  lemma EmitKeeps(w: World, f: Inbound, index: nat)
    requires Inv(w) && !f.Reset? && !f.Rst? && AckOf(f) == Mark(w)
    ensures Inv(Emit(w, f, index))
  {
  }

  /** A frame the coprocessor takes for the next one is the next one. */
  lemma TakenIsNext(w: World, u: Up)
    requires !w.abandoned && Inv(w) && UpData(w, u)
    requires u.f.OutData? && u.f.frm == Mark(w)
    ensures u.index == |w.got| == |w.completed| && w.got + [u.f.payload] == Numbered(w)
  {
  }

  lemma TailKeeps(w: World, base: nat)
    requires Inv(w) && w.up != []
    ensures Inv(w.(up := w.up[1..], base := base))
  {
  }

  lemma NcpHearsKeeps(w: World)
    requires Inv(w) && w.up != []
    ensures Inv(NcpHears(w))
  {
    var u, w' := w.up[0], w.(up := w.up[1..], base := AckTo(w.base, |w.sent|, w.up[0].f.ack));
    TailKeeps(w, w'.base);
    if !w.abandoned && u.f.OutData? && u.f.frm == Mark(w) {
      assert UpData(w, u) && UpData(w', u);
      TakenIsNext(w', u);
      assert forall i | 0 <= i < |w'.up| && w'.up[i].f.OutData? :: u.index <= w'.up[i].index;
      assert forall v | UpData(w', v) && (v.f.OutData? ==> u.index <= v.index) :: UpData(NcpHears(w), v);
    }
  }

  /** What hearing a frame does to the parts that matter here. */
  predicate MovedOn(w: World, w': World)
    requires w.down != []
  {
    && w'.abandoned == w.abandoned && w'.completed == w.completed && w'.got == w.got
    && w'.host.txSeq == w.host.txSeq && w'.host.phase == w.host.phase && Answerable(w')
    && w'.up == w.up && (w'.down == w.down || w'.down == w.down[1..])
    && ((w'.host.ackCh == w.host.ackCh && w'.ackCounts == w.ackCounts)
        || exists nak :: w'.host.ackCh == w.host.ackCh + [AckEvent(AckOf(w.down[0].f), nak)]
             && w'.ackCounts == w.ackCounts + [w.down[0].count])
  }

  lemma HearsMovesOn(w: World)
    requires w.down != [] && w.host.pump.Resting?
    ensures MovedOn(w, Hears(w))
  {
    var f, heard := w.down[0].f, Hears(w);
    if !f.Reset? && !f.Rst? && |w.host.ackCh| < ACK_ROOM {
      assert heard.host.ackCh == w.host.ackCh + [AckEvent(AckOf(f), f.Nak?)];
    }
  }

  lemma MovedOnKeeps(w: World, w': World)
    requires Inv(w) && w.down != [] && MovedOn(w, w')
    ensures Inv(w')
  {
    assert w'.down != w.down ==> forall k | 0 <= k < |w'.down| :: w'.down[k] == w.down[k + 1];
    assert forall u | UpData(w, u) :: UpData(w', u);
  }

  lemma HearsKeeps(w: World)
    requires Inv(w) && w.down != [] && w.host.pump.Resting?
    ensures Inv(Hears(w))
  {
    HearsMovesOn(w);
    MovedOnKeeps(w, Hears(w));
  }

  lemma SpoilsKeeps(w: World)
    requires Inv(w) && w.down != [] && w.host.pump.Resting?
    ensures Inv(Spoils(w))
  {
    MovedOnKeeps(w, Spoils(w));
  }

  lemma ComparesKeeps(w: World)
    requires Inv(w) && w.down != [] && w.host.pump.Judging?
    ensures Inv(Compares(w))
  {
    MovedOnKeeps(w, Compares(w));
  }

  lemma AnswerKeeps(w: World)
    requires Inv(w) && w.host.pump.Answering?
    ensures Inv(Acts(w, Answer))
  {
    var w' := Acts(w, Answer).(up := w.up);
    LosesKeeps(w, w', 0, 0);
    AnswersKeeps(w', [w.host.pump.answer]);
    assert Acts(w, Answer) == Written(w', [w.host.pump.answer]);
  }

  lemma WriteKeeps(w: World)
    requires Inv(w) && w.host.phase.Writing?
    ensures Inv(Acts(w, Write))
  {
  }

  /** The acknowledgement that ends a Send is for that Send. */
  lemma CompletedMeansAccepted(w: World)
    requires !w.abandoned && Inv(w) && w.host.phase.Waiting? && w.host.ackCh != []
    requires w.host.ackCh[0].ackNum == Next(w.host.phase.frm)
    ensures w.ackCounts[0] == |w.completed| + 1 && w.got == Numbered(w)
  {
  }

  /** One acknowledgement taken from the channel, whatever becomes of it. */
  predicate TookAck(w: World, w': World)
    requires w.host.ackCh != []
  {
    && w'.host.ackCh == w.host.ackCh[1..] && w'.ackCounts == (if w.ackCounts == [] then [] else w.ackCounts[1..])
    && w'.up == w.up && w'.down == w.down && w'.got == w.got && w'.host.pump == w.host.pump
  }

  lemma DoneKeeps(w: World, w': World)
    requires Inv(w) && w.host.phase.Waiting? && w.host.ackCh != [] && TookAck(w, w')
    requires !w.abandoned && !w.host.ackCh[0].nak && w.host.ackCh[0].ackNum == Next(w.host.phase.frm)
    requires w'.completed == w.completed + [w.host.phase.payload] && !w'.abandoned
    requires w'.host.phase.Idle? && w'.host.txSeq == Next(w.host.phase.frm)
    ensures Inv(w')
  {
    CompletedMeansAccepted(w);
    assert w'.completed == Numbered(w) == Numbered(w');
    assert forall i | 0 <= i < |w.down| :: w.ackCounts[0] <= w.down[i].count;
    assert forall u | UpData(w, u) :: UpData(w', u);
  }

  /** The Send goes on, trying again or still waiting. */
  lemma UndoneKeeps(w: World, w': World)
    requires Inv(w) && w.host.phase.Waiting? && w.host.ackCh != [] && TookAck(w, w') && !w.abandoned
    requires w'.completed == w.completed && !w'.abandoned && w'.host.txSeq == w.host.txSeq
    requires w'.host.phase == w.host.phase ||
      w'.host.phase == Retrying(w.host.phase.payload, w.host.phase.frm, w.host.phase.attempt + 1)
    ensures Inv(w')
  {
    assert Numbered(w') == Numbered(w);
    assert forall u | UpData(w, u) :: UpData(w', u);
  }

  lemma TakeAckKeeps(w: World)
    requires Inv(w) && w.host.phase.Waiting? && w.host.ackCh != []
    ensures Inv(Acts(w, TakeAck))
  {
    var ev, w' := w.host.ackCh[0], Acts(w, TakeAck);
    if !w'.abandoned {
      if !ev.nak && ev.ackNum == Next(w.host.phase.frm) {
        DoneKeeps(w, w');
      } else {
        UndoneKeeps(w, w');
      }
    }
  }

  /** The consumer and the pump's offer to it are no business of Send's. */
  lemma ConsumerKeeps(w: World, e: Event)
    requires Inv(w) && Enabled(w.host, e) && (e.Offer? || e.Consume?)
    ensures Inv(Acts(w, e))
  {
    LosesKeeps(w, Acts(w, e), 0, 0);
  }

  /** Send getting ready to write. */
  lemma PreparesKeeps(w: World, e: Event)
    requires Inv(w) && Enabled(w.host, e) && (e.Begin? || e.Drain? || e.Drained?)
    ensures Inv(Acts(w, e))
  {
    var w' := Acts(w, e);
    if !w.abandoned {
      assert forall u | UpData(w, u) :: UpData(w', u);
    }
  }

  /** Send trying again. */
  lemma RetriesKeeps(w: World, e: Event)
    requires Inv(w) && Enabled(w.host, e) && (e.Timeout? || e.Refresh?)
    ensures Inv(Acts(w, e))
  {
    var w' := Acts(w, e);
    if !w'.abandoned {
      assert forall u | UpData(w, u) :: UpData(w', u);
    }
  }

  /** Send giving up, before its frame was ever written if that is to matter. */
  lemma EndsKeeps(w: World, e: Event)
    requires Inv(w) && Enabled(w.host, e) && (e.GiveUp? || e.SeeReset?)
    ensures Inv(Acts(w, e))
  {
    var w' := Acts(w, e);
    if !w'.abandoned {
      assert forall u | UpData(w, u) :: UpData(w', u);
    }
  }

  lemma ActsKeeps(w: World, e: Event)
    requires Inv(w) && Enabled(w.host, e) && !OfLine(e)
    ensures Inv(Acts(w, e))
  {
    if e.Write? {
      WriteKeeps(w);
    } else if e.Answer? {
      AnswerKeeps(w);
    } else if e.TakeAck? {
      TakeAckKeeps(w);
    } else if e.Offer? || e.Consume? {
      ConsumerKeeps(w, e);
    } else if e.Begin? || e.Drain? || e.Drained? {
      PreparesKeeps(w, e);
    } else if e.Timeout? || e.Refresh? {
      RetriesKeeps(w, e);
    } else {
      EndsKeeps(w, e);
    }
  }

  lemma NcpSendKeeps(w: World, p: Payload)
    requires Inv(w)
    ensures var w' := w.(sent := w.sent + [p]); Inv(Emit(w', Data(|w.sent| % 8, Mark(w), p), |w.sent|))
  {
    var w' := w.(sent := w.sent + [p]);
    LosesKeeps(w, w', 0, 0);
    EmitKeeps(w', Data(|w.sent| % 8, Mark(w), p), |w.sent|);
  }

  lemma {:induction false} StepKeeps(lim: Limits, w: World, lab: Label)
    requires Inv(w) && Possible(lim, w, lab)
    ensures Inv(Then(lim, w, lab))
  {
    match lab {
      case Does(e) => ActsKeeps(w, e);
      case Arrive => HearsKeeps(w);
      case Damaged => SpoilsKeeps(w);
      case Judges => ComparesKeeps(w);
      case LoseUp(i) => LosesKeeps(w, Then(lim, w, lab), i, 0);
      case LoseDown(i) => LosesKeeps(w, Then(lim, w, lab), 0, i);
      case NcpSend(p) => NcpSendKeeps(w, p);
      case NcpResend(n) => EmitKeeps(w, Data(n % 8, Mark(w), w.sent[n]), n);
      case NcpAck(nak) => EmitKeeps(w, if nak then Nak(Mark(w)) else Ack(Mark(w)), 0);
      case NcpHear => NcpHearsKeeps(w);
    }
  }

  lemma {:induction false} LeadsKeeps(lim: Limits, run: seq<Label>, ws: seq<World>)
    requires Leads(lim, run, ws) && Inv(ws[0])
    ensures Inv(ws[|run|])
  {
    for i := 0 to |run|
      invariant Inv(ws[i])
    {
      assert Hop(lim, run, ws, i);
      StepKeeps(lim, ws[i], run[i]);
    }
  }

  /** Send safety, over every run and whatever the coprocessor's window: while no written
      frame has been given up, completed payloads are those accepted, save that the one
      under way may have been accepted already. */
  lemma {:induction false} SendSafe(lim: Limits, w: World)
    requires Reachable(lim, w) && !w.abandoned
    ensures Agreed(w)
    ensures w.completed <= w.got && |w.got| <= |w.completed| + 1
  {
    var run, ws :| Leads(lim, run, ws) && Initial(ws[0]) && ws[|run|] == w;
    LeadsKeeps(lim, run, ws);
  }

  lemma {:induction false} NotAbandonedBy(lim: Limits, w: World, lab: Label)
    requires Possible(lim, w, lab) && !lim.giveUp && !w.abandoned
    ensures !Then(lim, w, lab).abandoned
  {
  }

  lemma {:induction false} NeverAbandoned(lim: Limits, w: World)
    requires Reachable(lim, w) && !lim.giveUp
    ensures !w.abandoned
  {
    var run: seq<Label>, ws: seq<World> :| Leads(lim, run, ws) && Initial(ws[0]) && ws[|run|] == w;
    for i := 0 to |run|
      invariant !ws[i].abandoned
    {
      assert Hop(lim, run, ws, i);
      NotAbandonedBy(lim, ws[i], run[i]);
    }
  }

  // ----- Why the guard is needed.

  predicate Quiet(w: World) {
    && w.host.phase.Idle? && w.host.txSeq == 0 && w.host.pump.Resting? && w.up == [] && w.down == []
    && w.host.ackCh == [] && w.completed == []
  }

  /** A Send under way with its frame delivered or lost and no answer yet. */
  predicate Awaiting(w: World, p: Payload) {
    && w.host.phase == Waiting(p, 0, 0) && w.host.txSeq == 0 && w.host.pump.Resting?
    && w.down == [] && w.host.ackCh == [] && w.completed == []
  }

  lemma {:induction false} Ready(lim: Limits, w: World, p: Payload) returns (w': World)
    requires Reachable(lim, w) && Quiet(w)
    ensures Reachable(lim, w') && w'.host.phase.Writing? && w'.captured == |w'.accepted|
    ensures w' == w.(host := w.host.(phase := Writing(p, 0, w.host.rxSeq, 0)), captured := |w.accepted|)
  {
    Extend(lim, w, Does(Begin(p)));
    var w1 := Acts(w, Begin(p));
    assert w1 == w.(host := w.host.(phase := Draining(p, 0, w.host.rxSeq)), captured := |w.accepted|);
    Extend(lim, w1, Does(Drained));
    w' := Acts(w1, Drained);
  }

  lemma {:induction false} WrittenOut(lim: Limits, w: World, p: Payload) returns (w': World)
    requires Reachable(lim, w) && Quiet(w)
    ensures Reachable(lim, w') && Awaiting(w', p) && w'.abandoned == w.abandoned && w'.got == w.got
    ensures |w'.up| == 1 && w'.up[0].f.OutData? && w'.up[0].f.frm == 0 && w'.up[0].f.payload == p
  {
    var w1 := Ready(lim, w, p);
    Extend(lim, w1, Does(Write));
    w' := Acts(w1, Write);
  }

  /** A payload written over quiet lines, and heard. */
  lemma {:induction false} WrittenAndHeard(lim: Limits, w: World, p: Payload) returns (w': World)
    requires Reachable(lim, w) && Quiet(w)
    ensures Reachable(lim, w') && Awaiting(w', p) && w'.up == [] && w'.abandoned == w.abandoned
    ensures w'.got == w.got + if |w.got| % 8 == 0 then [p] else []
  {
    var w1 := WrittenOut(lim, w, p);
    Extend(lim, w1, NcpHear);
    w' := NcpHears(w1);
  }

  lemma {:induction false} Started(lim: Limits) returns (w: World)
    ensures Reachable(lim, w) && Quiet(w) && w.got == [] && !w.abandoned
  {
    var h := Host(0, 0, [], [], 0, 0, 0, 0, Idle, Resting);
    w := World(h, [], [], [], [], false, 0, [], [], [], [], 0, [], 0, []);
    Untouched(lim, w);
  }

  /** A payload taken whose acknowledgement never comes, and whose Send gives up. */
  lemma {:induction false} Abandoned(lim: Limits, a: Payload) returns (w: World)
    requires lim.giveUp
    ensures Reachable(lim, w) && Quiet(w) && w.abandoned && w.got == [a]
  {
    var w0 := Started(lim);
    var w1 := WrittenAndHeard(lim, w0, a);
    Extend(lim, w1, Does(GiveUp));
    w := Acts(w1, GiveUp);
  }

  lemma {:induction false} AckedAndDone(lim: Limits, w: World, p: Payload) returns (w': World)
    requires Reachable(lim, w) && Awaiting(w, p) && |w.got| % 8 == 1
    ensures Reachable(lim, w') && w'.host.phase.Idle? && w'.abandoned == w.abandoned
    ensures w'.got == w.got && w'.completed == [p]
  {
    Extend(lim, w, NcpAck(false));
    var w1 := Emit(w, Ack(Mark(w)), 0);
    Extend(lim, w1, Arrive);
    var w2 := Hears(w1);
    assert w2.host.ackCh == [AckEvent(1, false)];
    Extend(lim, w2, Does(TakeAck));
    w' := Acts(w2, TakeAck);
  }

  /** The next payload reuses the number, is acknowledged as the repeat it seems to be, and
      its Send reports success though the coprocessor never took it. */
  lemma {:induction false} AbandonedSendMisleads(lim: Limits, a: Payload, b: Payload) returns (w: World)
    requires lim.giveUp
    ensures Reachable(lim, w) && w.abandoned && w.host.phase.Idle?
    ensures w.completed == [b] && w.got == [a]
  {
    var w0 := Abandoned(lim, a);
    var w1 := WrittenAndHeard(lim, w0, b);
    w := AckedAndDone(lim, w1, b);
  }

  /** Send safety holds over all runs exactly if no Send may give up once its frame has
      been written, whatever the window and the staleness. */
  lemma {:induction false} SendExact(lim: Limits)
    ensures !lim.giveUp <==> forall w: World | Reachable(lim, w) :: Agreed(w)
  {
    if lim.giveUp {
      var w := AbandonedSendMisleads(lim, [0x0A], [0x0B]);
      assert w.got[0] != w.completed[0];
    } else {
      forall w: World | Reachable(lim, w) ensures Agreed(w) {
        NeverAbandoned(lim, w);
        SendSafe(lim, w);
      }
    }
  }
}
