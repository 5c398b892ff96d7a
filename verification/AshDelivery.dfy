/** What becomes of accepted payloads, and how the machine of AshHost sits inside the
    link of AshLink. */
module AshDelivery {
  import opened AshHost
  import opened AshLink

  /** a is b with some elements left out. */
  predicate Within(a: seq<Payload>, b: seq<Payload>)
    decreases b
  {
    if a == [] then true
    else
      && b != []
      && ((a[|a| - 1] == b[|b| - 1] && Within(a[..|a| - 1], b[..|b| - 1])) || Within(a, b[..|b| - 1]))
  }

  lemma WithinGrows(a: seq<Payload>, b: seq<Payload>, p: Payload)
    requires Within(a, b)
    ensures Within(a, b + [p]) && Within(a + [p], b + [p])
  {
  }

  /** The accepted payload the pump has yet to offer, if any. */
  function InPump(w: World): seq<Payload> {
    match w.host.pump
    case Answering(_, accepted) => if accepted.Some? then [accepted.value] else []
    case Offering(payload) => [payload]
    case _ => []
  }

  /** The accepted payloads that have been offered to the consumer. */
  function OfferedTo(w: World): seq<Payload>
    requires InPump(w) == [] || w.accepted != []
  {
    w.accepted[..|w.accepted| - |InPump(w)|]
  }

  /** The consumer has received, or has waiting, what was queued before the run and
      then the accepted payloads offered to it, in order, less exactly those counted as
      dropped; at most the last one accepted is still in the pump's hands. */
  ghost predicate Accounted(w: World) {
    && (InPump(w) != [] ==> w.accepted != [] && InPump(w) == [w.accepted[|w.accepted| - 1]])
    && w.consumed + w.host.dataCh == w.backlog + w.kept
    && Within(w.kept, OfferedTo(w))
    && |OfferedTo(w)| == |w.kept| + (w.host.droppedData - w.dropped0)
  }

  /** A step that has nothing to do with these parts, or only hands a payload over. */
  predicate Unmoved(w: World, w': World) {
    && InPump(w') == InPump(w) && w'.accepted == w.accepted && w'.kept == w.kept
    && w'.backlog == w.backlog && w'.dropped0 == w.dropped0 && w'.host.droppedData == w.host.droppedData
    && w'.consumed + w'.host.dataCh == w.consumed + w.host.dataCh
  }

  lemma {:induction false} ComparesKeeps(w: World)
    requires Accounted(w) && w.down != [] && w.host.pump.Judging?
    ensures Accounted(Compares(w))
  {
    assert OfferedTo(Compares(w)) == OfferedTo(w);
  }

  lemma {:induction false} UnmovedKeeps(w: World, w': World)
    requires Accounted(w) && Unmoved(w, w')
    ensures Accounted(w')
  {
  }

  /** The pump's payload offered: queued, or counted as dropped. */
  predicate Offers(w: World, w': World, p: Payload) {
    && InPump(w) == [p] && InPump(w') == [] && w'.accepted == w.accepted
    && w'.consumed == w.consumed && w'.backlog == w.backlog && w'.dropped0 == w.dropped0
    && ((w'.kept == w.kept + [p] && w'.host.dataCh == w.host.dataCh + [p] && w'.host.droppedData == w.host.droppedData)
        || (w'.kept == w.kept && w'.host.dataCh == w.host.dataCh && w'.host.droppedData == w.host.droppedData + 1))
  }

  lemma {:induction false} ActsOffers(w: World)
    requires w.host.pump.Offering?
    ensures Offers(w, Acts(w, Offer), w.host.pump.payload)
  {
  }

  lemma {:induction false} OffersKeeps(w: World, w': World, p: Payload)
    requires Accounted(w) && Offers(w, w', p)
    ensures Accounted(w')
  {
    hide Within;
    assert OfferedTo(w') == w.accepted == OfferedTo(w) + [p];
    WithinGrows(w.kept, OfferedTo(w), p);
    assert (w.consumed + w.host.dataCh) + [p] == w.consumed + (w.host.dataCh + [p]);
    assert (w.backlog + w.kept) + [p] == w.backlog + (w.kept + [p]);
  }

  lemma {:induction false} ConsumeUnmoved(w: World)
    requires w.host.dataCh != []
    ensures Unmoved(w, Acts(w, Consume))
  {
    assert w.consumed + w.host.dataCh == (w.consumed + [w.host.dataCh[0]]) + w.host.dataCh[1..];
  }

  lemma {:induction false} AnswerUnmoved(w: World)
    requires w.host.pump.Answering?
    ensures Unmoved(w, Acts(w, Answer))
  {
  }

  lemma {:induction false} SendUnmoved(w: World, e: Event)
    requires !OfLine(e) && !e.Offer? && !e.Answer? && !e.Consume? && Enabled(w.host, e)
    ensures Unmoved(w, Acts(w, e))
  {
  }

  lemma {:induction false} HearsUnmoved(w: World)
    requires w.down != [] && w.host.pump.Resting?
    ensures Unmoved(w, Hears(w)) && Unmoved(w, Spoils(w))
  {
  }

  lemma {:induction false} LineUnmoved(lim: Limits, w: World, lab: Label)
    requires Possible(lim, w, lab) && !lab.Does? && !lab.Arrive? && !lab.Damaged? && !lab.Judges?
    ensures Unmoved(w, Then(lim, w, lab))
  {
  }

  lemma {:induction false} ActsKeeps(w: World, e: Event)
    requires Accounted(w) && !OfLine(e) && Enabled(w.host, e)
    ensures Accounted(Acts(w, e))
  {
    if e.Offer? {
      ActsOffers(w);
      OffersKeeps(w, Acts(w, e), w.host.pump.payload);
    } else {
      if e.Answer? {
        AnswerUnmoved(w);
      } else if e.Consume? {
        ConsumeUnmoved(w);
      } else {
        SendUnmoved(w, e);
      }
      UnmovedKeeps(w, Acts(w, e));
    }
  }

  lemma {:induction false} StepKeeps(lim: Limits, w: World, lab: Label)
    requires Accounted(w) && Possible(lim, w, lab)
    ensures Accounted(Then(lim, w, lab))
  {
    if lab.Does? {
      ActsKeeps(w, lab.e);
    } else if lab.Judges? {
      ComparesKeeps(w);
    } else {
      if lab.Arrive? || lab.Damaged? {
        HearsUnmoved(w);
      } else {
        LineUnmoved(lim, w, lab);
      }
      UnmovedKeeps(w, Then(lim, w, lab));
    }
  }

  /** Over every run, whatever is lost or dropped. */
  lemma {:induction false} EveryPayloadAccounted(lim: Limits, w: World)
    requires Reachable(lim, w)
    ensures Accounted(w)
  {
    var run: seq<Label>, ws: seq<World> :| Leads(lim, run, ws) && Initial(ws[0]) && ws[|run|] == w;
    assert ws[0].backlog + [] == ws[0].backlog && [] + ws[0].host.dataCh == ws[0].host.dataCh;
    for i := 0 to |run|
      invariant Accounted(ws[i])
    {
      assert Hop(lim, run, ws, i);
      StepKeeps(lim, ws[i], run[i]);
    }
  }

  // ----- The host's share of a run.

  function Part(w: World, lab: Label): seq<Event> {
    match lab
    case Does(e) => [e]
    case Arrive => if w.down == [] then [] else [Heard(w.down[0].f)]
    case Damaged => [HeardBad]
    case Judges => [Judge]
    case _ => []
  }

  function Share(run: seq<Label>, ws: seq<World>): seq<Event>
    requires |ws| == |run| + 1
  {
    if run == [] then []
    else
      var n := |run| - 1;
      Share(run[..n], ws[..n + 1]) + Part(ws[n], run[n])
  }

  lemma {:induction false} RunOne(h: Host, log: seq<Event>, e: Event)
    ensures Run(h, log + [e]) == Onward(Run(h, log), e)
  {
    assert (log + [e])[..|log|] == log;
  }

  lemma {:induction false} PartSteps(lim: Limits, w: World, lab: Label)
    requires Possible(lim, w, lab)
    ensures Part(w, lab) == [] ==> Then(lim, w, lab).host == w.host
    ensures Part(w, lab) != [] ==>
      && |Part(w, lab)| == 1 && Enabled(w.host, Part(w, lab)[0])
      && Then(lim, w, lab).host == Step(w.host, Part(w, lab)[0]).host
  {
  }

  /** Where the host's share of a run leads the machine is where the run leads the host. */
  ghost predicate Follows(run: seq<Label>, ws: seq<World>) {
    |ws| == |run| + 1 && var r := Run(ws[0].host, Share(run, ws)); r.Ran? && r.host == ws[|run|].host
  }

  lemma {:induction false} FollowsOn(lim: Limits, run: seq<Label>, ws: seq<World>, lab: Label)
    requires Follows(run, ws) && Possible(lim, ws[|run|], lab)
    ensures Follows(run + [lab], ws + [Then(lim, ws[|run|], lab)])
  {
    var run', ws' := run + [lab], ws + [Then(lim, ws[|run|], lab)];
    var share, part := Share(run, ws), Part(ws[|run|], lab);
    assert run'[..|run|] == run && ws'[..|run| + 1] == ws;
    assert Share(run', ws') == share + part;
    PartSteps(lim, ws[|run|], lab);
    if part == [] {
      assert share + part == share;
    } else {
      assert part == [part[0]];
      RunOne(ws[0].host, share, part[0]);
    }
  }

  lemma {:induction false} FollowsNext(lim: Limits, run: seq<Label>, ws: seq<World>, i: nat)
    requires Hop(lim, run, ws, i) && Follows(run[..i], ws[..i + 1])
    ensures Follows(run[..i + 1], ws[..i + 2])
  {
    hide Follows, Possible, Then;
    var run0, ws0 := run[..i], ws[..i + 1];
    assert ws0[|run0|] == ws[i];
    FollowsOn(lim, run0, ws0, run[i]);
    assert run[..i + 1] == run0 + [run[i]] && ws[..i + 2] == ws0 + [ws[i + 1]];
  }

  /** Seen from the host, every run of the link is a run of the machine that Conn is. */
  lemma {:induction false} HostRuns(lim: Limits, run: seq<Label>, ws: seq<World>)
    requires Leads(lim, run, ws)
    ensures var r := Run(ws[0].host, Share(run, ws)); r.Ran? && r.host == ws[|run|].host
  {
    for i := 0 to |run|
      invariant Follows(run[..i], ws[..i + 1])
    {
      assert Hop(lim, run, ws, i);
      FollowsNext(lim, run, ws, i);
    }
    assert run[..|run|] == run && ws[..|run| + 1] == ws;
  }
}
