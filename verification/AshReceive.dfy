/** Receive safety of the ASH link: though frames carry three-bit numbers, the host
    accepts a prefix of what the coprocessor sent, in order and without repeats. */
module AshReceive {
  import opened AshHost
  import opened AshLink

  /** The limits under which no run can go wrong. */
  predicate Sound(lim: Limits) {
    1 <= lim.window <= 7 && (lim.window <= 3 || lim.staleness + lim.window <= 7)
  }

  /** The property itself. */
  predicate InOrder(w: World) {
    w.accepted <= w.sent
  }

  // ----- The invariant.

  ghost predicate Counting(lim: Limits, w: World) {
    && w.host.rxSeq == |w.accepted| % 8
    && w.accepted <= w.sent
    && w.base <= |w.sent| <= w.base + lim.window
  }

  /** A DATA frame on the way down carries the payload its full number names, and no
      frame ahead of it, heard or not, is as much as a window further on. */
  ghost predicate DownFrame(lim: Limits, w: World, d: Down) {
    d.f.Data? ==>
      && d.index < |w.sent| && d.f.frm == d.index % 8 && d.f.payload == w.sent[d.index]
      && |w.accepted| <= d.index + lim.window
  }

  ghost predicate DownLine(lim: Limits, w: World) {
    && (forall i | 0 <= i < |w.down| :: DownFrame(lim, w, w.down[i]))
    && (forall i, j | 0 <= i < j < |w.down| && w.down[i].f.Data? && w.down[j].f.Data? ::
          w.down[i].index < w.down[j].index + lim.window)
  }

  /** The number written is an honest count, fresh except on DATA frames. */
  ghost predicate UpFrame(w: World, u: Up) {
    && u.f.ack == u.count % 8 && u.count <= u.at <= |w.accepted|
    && (u.f.OutData? || u.count == u.at)
  }

  /** Send reads a number only after writing its previous frame, so a stale number
      never predates the writing of an earlier DATA frame. */
  ghost predicate UpLine(w: World) {
    && (forall i | 0 <= i < |w.up| :: UpFrame(w, w.up[i]))
    && (forall i, j | 0 <= i < j < |w.up| ::
          w.up[i].at <= w.up[j].at && (w.up[i].f.OutData? ==> w.up[i].at <= w.up[j].count))
  }

  predicate Holding(p: Phase) {
    p.Draining? || p.Writing?
  }

  /** The number Send is holding on to. */
  ghost predicate Held(w: World) {
    Holding(w.host.phase) ==>
      && w.host.phase.ack == w.captured % 8 && w.captured <= |w.accepted|
      && forall i | 0 <= i < |w.up| && w.up[i].f.OutData? :: w.up[i].at <= w.captured
  }

  /** Either the coprocessor has not gone past what the host had accepted when the
      number was written, or the number is too recent to be mistaken for the next
      time around. */
  predicate Harmless(base: nat, window: nat, count: nat, at: nat) {
    base <= at || count + 8 > base + window
  }

  ghost predicate Unconfused(lim: Limits, w: World) {
    if lim.window <= 3 then
      && w.base <= |w.accepted| + lim.window
      && (forall i | 0 <= i < |w.up| :: Harmless(w.base, lim.window, w.up[i].count, w.up[i].at))
      && (Holding(w.host.phase) ==> Harmless(w.base, lim.window, w.captured, |w.accepted|))
    else
      && w.base <= |w.accepted|
      && (forall i | 0 <= i < |w.up| :: w.base <= w.up[i].at <= w.up[i].count + lim.staleness)
  }

  /** The pump judges the frame at the head of the line, and answers with its own number. */
  predicate PumpTrue(w: World) {
    match w.host.pump
    case Judging(frm, payload) =>
      w.down != [] && w.down[0].f.Data? && w.down[0].f.frm == frm && w.down[0].f.payload == payload
    case Answering(answer, _) => !answer.OutData? && answer.ack == w.host.rxSeq
    case _ => true
  }

  ghost predicate Inv(lim: Limits, w: World) {
    PumpTrue(w) && Counting(lim, w) && DownLine(lim, w) && UpLine(w) && Held(w) && Unconfused(lim, w)
  }

  // ----- Every step keeps it.

  lemma EmitKeeps(lim: Limits, w: World, f: Inbound, index: nat)
    requires Sound(lim) && Inv(lim, w)
    requires f.Data? ==> w.base <= index < |w.sent| && f.frm == index % 8 && f.payload == w.sent[index]
    ensures Inv(lim, Emit(w, f, index))
  {
  }

  lemma GrowKeeps(lim: Limits, w: World, p: Payload)
    requires Sound(lim) && Inv(lim, w) && |w.sent| < w.base + lim.window
    ensures Inv(lim, w.(sent := w.sent + [p]))
  {
  }

  lemma WriteKeeps(lim: Limits, w: World, out: seq<Outbound>)
    requires Sound(lim) && Inv(lim, w)
    requires out != [] ==>
      if out[0].OutData? then
        && !Holding(w.host.phase)
        && w.captured <= |w.accepted| <= w.captured + lim.staleness
        && out[0].ack == w.captured % 8
        && (forall i | 0 <= i < |w.up| && w.up[i].f.OutData? :: w.up[i].at <= w.captured)
        && (lim.window <= 3 ==> Harmless(w.base, lim.window, w.captured, |w.accepted|))
      else out[0].ack == |w.accepted| % 8
    ensures Inv(lim, Written(w, out))
  {
  }

  lemma LoseUpKeeps(lim: Limits, w: World, i: nat)
    requires Sound(lim) && Inv(lim, w) && i < |w.up|
    ensures Inv(lim, w.(up := w.up[..i] + w.up[i + 1..]))
  {
    var rest := w.up[..i] + w.up[i + 1..];
    assert forall k | 0 <= k < |rest| :: rest[k] == w.up[if k < i then k else k + 1];
  }

  lemma LoseDownKeeps(lim: Limits, w: World, i: nat)
    requires Sound(lim) && Inv(lim, w) && i < |w.down| && !InHand(w, i)
    ensures Inv(lim, w.(down := w.down[..i] + w.down[i + 1..]))
  {
    var rest := w.down[..i] + w.down[i + 1..];
    assert forall k | 0 <= k < |rest| :: rest[k] == w.down[if k < i then k else k + 1];
  }

  /** A DATA frame the host takes for the next one is the next one. */
  lemma AcceptedIsNext(lim: Limits, w: World, d: Down)
    requires Sound(lim) && Inv(lim, w) && DownFrame(lim, w, d)
    requires d.f.Data? && d.f.frm == w.host.rxSeq
    ensures d.index == |w.accepted|
  {
  }

  /** Only these parts of a world matter to the invariant. */
  predicate Same(w: World, w': World) {
    && w'.up == w.up && w'.down == w.down && w'.sent == w.sent && w'.base == w.base
    && w'.accepted == w.accepted && w'.host.rxSeq == w.host.rxSeq
    && (Holding(w'.host.phase) ==>
          || (w'.captured == |w.accepted| && w'.host.phase.ack == w.host.rxSeq)
          || (w'.captured == w.captured && Holding(w.host.phase) && w'.host.phase.ack == w.host.phase.ack))
  }

  lemma SameKeeps(lim: Limits, w: World, w': World)
    requires Sound(lim) && Inv(lim, w) && Same(w, w') && PumpTrue(w')
    ensures Inv(lim, w')
  {
  }

  lemma LoseFirst(lim: Limits, w: World)
    requires Sound(lim) && Inv(lim, w) && w.down != [] && w.host.pump.Resting?
    ensures Inv(lim, w.(down := w.down[1..]))
  {
    assert w.down[..0] + w.down[0 + 1..] == w.down[1..];
    LoseDownKeeps(lim, w, 0);
  }

  lemma HearsKeeps(lim: Limits, w: World)
    requires Sound(lim) && Inv(lim, w) && w.down != [] && w.host.pump.Resting?
    ensures Inv(lim, Hears(w))
  {
    if w.down[0].f.Data? {
      SameKeeps(lim, w, Hears(w));
    } else {
      LoseFirst(lim, w);
      SameKeeps(lim, w.(down := w.down[1..]), Hears(w));
    }
  }

  lemma SpoilsKeeps(lim: Limits, w: World)
    requires Sound(lim) && Inv(lim, w) && w.down != [] && w.host.pump.Resting?
    ensures Inv(lim, Spoils(w))
  {
    LoseFirst(lim, w);
    SameKeeps(lim, w.(down := w.down[1..]), Spoils(w));
  }

  /** The host's view moves on by one DATA frame compared, and by one accepted if it is next. */
  predicate MovedOn(w: World, w': World)
    requires w.down != [] && w.down[0].f.Data?
  {
    && w'.up == w.up && w'.down == w.down[1..] && w'.sent == w.sent && w'.base == w.base
    && w'.captured == w.captured && w'.host.phase == w.host.phase
    && var f := w.down[0].f;
       if f.frm == w.host.rxSeq then
         w'.accepted == w.accepted + [f.payload] && w'.host.rxSeq == Next(w.host.rxSeq)
       else w'.accepted == w.accepted && w'.host.rxSeq == w.host.rxSeq
  }

  lemma MovedOnCounts(lim: Limits, w: World, w': World)
    requires Sound(lim) && Inv(lim, w) && w.down != [] && w.down[0].f.Data? && MovedOn(w, w')
    ensures Counting(lim, w') && |w.accepted| <= |w'.accepted|
    ensures |w'.accepted| > |w.accepted| ==> w.down[0].index == |w.accepted| == |w'.accepted| - 1
  {
    var d := w.down[0];
    assert DownFrame(lim, w, d);
    if d.f.frm == w.host.rxSeq {
      AcceptedIsNext(lim, w, d);
      assert w'.accepted == w.sent[..|w'.accepted|];
    }
  }

  lemma MovedOnKeepsDown(lim: Limits, w: World, w': World)
    requires Sound(lim) && Inv(lim, w) && w.down != [] && w.down[0].f.Data? && MovedOn(w, w')
    ensures DownLine(lim, w')
  {
    MovedOnCounts(lim, w, w');
    forall k | 0 <= k < |w'.down| ensures DownFrame(lim, w', w'.down[k]) {
      assert w'.down[k] == w.down[k + 1] && DownFrame(lim, w, w.down[k + 1]);
    }
    assert forall k | 0 <= k < |w'.down| :: w'.down[k] == w.down[k + 1];
  }

  lemma MovedOnKeepsUp(lim: Limits, w: World, w': World)
    requires Sound(lim) && Inv(lim, w) && w.down != [] && w.down[0].f.Data? && MovedOn(w, w')
    ensures UpLine(w') && Held(w') && Unconfused(lim, w')
  {
    assert |w.accepted| <= |w'.accepted|;
    assert forall u | UpFrame(w, u) :: UpFrame(w', u);
  }

  lemma ComparesKeeps(lim: Limits, w: World)
    requires Sound(lim) && Inv(lim, w) && w.down != [] && w.host.pump.Judging?
    ensures Inv(lim, Compares(w))
  {
    MovedOnCounts(lim, w, Compares(w));
    MovedOnKeepsDown(lim, w, Compares(w));
    MovedOnKeepsUp(lim, w, Compares(w));
  }

  /** Numbers that agree in three bits are the same or eight and more apart. */
  lemma {:induction false} AgreeInThreeBits(a: nat, b: nat)
    requires a % 8 == b % 8
    ensures a == b || a >= b + 8 || b >= a + 8
  {
    assert a == 8 * (a / 8) + a % 8 && b == 8 * (b / 8) + b % 8;
  }

  lemma {:induction false} OffsetReaches(base: nat, n: Seq3)
    ensures (base + (n + 8 - base % 8) % 8) % 8 == n
  {
    var r := base % 8;
    assert base == 8 * (base / 8) + r;
  }

  /** An acknowledgement number moves the window to the count behind it, or at worst
      to a count at least eight further on. */
  lemma {:induction false} AckToNames(base: nat, next: nat, count: nat)
    requires base <= next <= base + 7 && count <= next
    ensures var k := AckTo(base, next, count % 8);
      base <= k <= next && (k == base || k == count || k >= count + 8)
  {
    OffsetReaches(base, count % 8);
    AgreeInThreeBits(base + (count % 8 + 8 - base % 8) % 8, count);
  }

  lemma MoveKeeps(lim: Limits, w: World, u: Up, k: nat)
    requires Sound(lim) && Inv(lim, w) && UpFrame(w, u)
    requires w.base <= k <= |w.sent| && (k == w.base || k == u.count || k >= u.count + 8)
    requires forall i | 0 <= i < |w.up| ::
      u.at <= w.up[i].at && (u.f.OutData? ==> u.at <= w.up[i].count)
    requires Holding(w.host.phase) && u.f.OutData? ==> u.at <= w.captured
    requires if lim.window <= 3 then Harmless(w.base, lim.window, u.count, u.at)
      else w.base <= u.at <= u.count + lim.staleness
    ensures Inv(lim, w.(base := k))
  {
  }

  lemma TailKeeps(lim: Limits, w: World)
    requires Sound(lim) && Inv(lim, w) && w.up != []
    ensures Inv(lim, w.(up := w.up[1..]))
  {
  }

  lemma {:induction false} NcpHearsKeeps(lim: Limits, w: World)
    requires Sound(lim) && Inv(lim, w) && w.up != []
    ensures Inv(lim, NcpHears(w))
  {
    var u, w' := w.up[0], w.(up := w.up[1..]);
    var k := AckTo(w.base, |w.sent|, u.f.ack);
    TailKeeps(lim, w);
    assert UpFrame(w, u) && UpFrame(w', u);
    AckToNames(w.base, |w.sent|, u.count);
    MoveKeeps(lim, w', u, k);
    SameKeeps(lim, w'.(base := k), NcpHears(w));
  }

  lemma WriteStepKeeps(lim: Limits, w: World)
    requires Sound(lim) && Inv(lim, w) && Possible(lim, w, Does(Write))
    ensures Inv(lim, Acts(w, Write))
  {
    var w' := Acts(w, Write).(up := w.up);
    SameKeeps(lim, w, w');
    WriteKeeps(lim, w', Step(w.host, Write).out);
    assert Acts(w, Write) == Written(w', Step(w.host, Write).out);
  }

  lemma AnswerKeeps(lim: Limits, w: World)
    requires Sound(lim) && Inv(lim, w) && w.host.pump.Answering?
    ensures Inv(lim, Acts(w, Answer))
  {
    var w' := Acts(w, Answer).(up := w.up);
    SameKeeps(lim, w, w');
    WriteKeeps(lim, w', [w.host.pump.answer]);
    assert Acts(w, Answer) == Written(w', [w.host.pump.answer]);
  }

  lemma {:induction false} ConsumerSame(w: World, e: Event)
    requires (e.Offer? || e.Consume?) && Enabled(w.host, e) && PumpTrue(w)
    ensures Same(w, Acts(w, e)) && PumpTrue(Acts(w, e))
  {
  }

  lemma {:induction false} WaitSame(w: World, e: Event)
    requires (e.TakeAck? || e.Timeout? || e.SeeReset?) && Enabled(w.host, e) && PumpTrue(w)
    ensures Same(w, Acts(w, e)) && PumpTrue(Acts(w, e))
  {
  }

  lemma {:induction false} SendSame(w: World, e: Event)
    requires !OfLine(e) && !e.Write? && !e.Answer? && !e.Offer? && !e.Consume? && Enabled(w.host, e)
    requires w.host.rxSeq == |w.accepted| % 8 && PumpTrue(w)
    ensures Same(w, Acts(w, e)) && PumpTrue(Acts(w, e))
  {
    if e.TakeAck? || e.Timeout? || e.SeeReset? {
      WaitSame(w, e);
    }
  }

  /** Any other step of Send, of the consumer or of the pump leaves all this alone. */
  lemma {:induction false} QuietSame(w: World, e: Event)
    requires !OfLine(e) && !e.Write? && !e.Answer? && Enabled(w.host, e)
    requires w.host.rxSeq == |w.accepted| % 8 && PumpTrue(w)
    ensures Same(w, Acts(w, e)) && PumpTrue(Acts(w, e))
  {
    if e.Offer? || e.Consume? {
      ConsumerSame(w, e);
    } else {
      SendSame(w, e);
    }
  }

  lemma ActsKeeps(lim: Limits, w: World, e: Event)
    requires Sound(lim) && Inv(lim, w) && Possible(lim, w, Does(e))
    ensures Inv(lim, Acts(w, e))
  {
    if e.Write? {
      WriteStepKeeps(lim, w);
    } else if e.Answer? {
      AnswerKeeps(lim, w);
    } else {
      QuietSame(w, e);
      SameKeeps(lim, w, Acts(w, e));
    }
  }

  lemma NcpSendKeeps(lim: Limits, w: World, p: Payload)
    requires Sound(lim) && Inv(lim, w) && |w.sent| < w.base + lim.window
    ensures Inv(lim, Emit(w.(sent := w.sent + [p]), Data(|w.sent| % 8, Mark(w), p), |w.sent|))
  {
    GrowKeeps(lim, w, p);
    EmitKeeps(lim, w.(sent := w.sent + [p]), Data(|w.sent| % 8, Mark(w), p), |w.sent|);
  }

  predicate AtHost(lab: Label) {
    lab.Does? || lab.Arrive? || lab.Damaged? || lab.Judges?
  }

  lemma HostKeeps(lim: Limits, w: World, lab: Label)
    requires Sound(lim) && Inv(lim, w) && Possible(lim, w, lab) && AtHost(lab)
    ensures Inv(lim, Then(lim, w, lab))
  {
    match lab {
      case Does(e) => ActsKeeps(lim, w, e);
      case Arrive => HearsKeeps(lim, w);
      case Damaged => SpoilsKeeps(lim, w);
      case Judges => ComparesKeeps(lim, w);
    }
  }

  lemma LossKeeps(lim: Limits, w: World, lab: Label)
    requires Sound(lim) && Inv(lim, w) && Possible(lim, w, lab) && (lab.LoseUp? || lab.LoseDown?)
    ensures Inv(lim, Then(lim, w, lab))
  {
    hide Inv, Sound;
    match lab {
      case LoseUp(i) => LoseUpKeeps(lim, w, i);
      case LoseDown(i) => LoseDownKeeps(lim, w, i);
    }
  }

  lemma NcpKeeps(lim: Limits, w: World, lab: Label)
    requires Sound(lim) && Inv(lim, w) && Possible(lim, w, lab) && !AtHost(lab) && !lab.LoseUp? && !lab.LoseDown?
    ensures Inv(lim, Then(lim, w, lab))
  {
    match lab {
      case NcpSend(p) => NcpSendKeeps(lim, w, p);
      case NcpResend(n) => EmitKeeps(lim, w, Data(n % 8, Mark(w), w.sent[n]), n);
      case NcpAck(nak) => EmitKeeps(lim, w, if nak then Nak(Mark(w)) else Ack(Mark(w)), 0);
      case NcpHear => NcpHearsKeeps(lim, w);
    }
  }

  lemma {:induction false} StepKeeps(lim: Limits, w: World, lab: Label)
    requires Sound(lim) && Inv(lim, w) && Possible(lim, w, lab)
    ensures Inv(lim, Then(lim, w, lab))
  {
    if AtHost(lab) {
      HostKeeps(lim, w, lab);
    } else if lab.LoseUp? || lab.LoseDown? {
      LossKeeps(lim, w, lab);
    } else {
      NcpKeeps(lim, w, lab);
    }
  }

  lemma {:induction false} LeadsKeeps(lim: Limits, run: seq<Label>, ws: seq<World>)
    requires Sound(lim) && Leads(lim, run, ws) && Inv(lim, ws[0])
    ensures Inv(lim, ws[|run|])
  {
    for i := 0 to |run|
      invariant Inv(lim, ws[i])
    {
      assert Hop(lim, run, ws, i);
      StepKeeps(lim, ws[i], run[i]);
    }
  }

  /** Receive safety, over every run within the limits. */
  lemma {:induction false} ReceiveSafe(lim: Limits, w: World)
    requires Sound(lim) && Reachable(lim, w)
    ensures InOrder(w)
  {
    var run, ws :| Leads(lim, run, ws) && Initial(ws[0]) && ws[|run|] == w;
    LeadsKeeps(lim, run, ws);
  }
}
