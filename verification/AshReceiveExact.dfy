/** The limits of AshReceive are exact.  Send reads its acknowledgement number under
    the lock and writes the frame later; if the read pump accepts frames in between,
    the number written is stale, and a wide enough window takes it for the number one
    lap ahead.  Then frames the host never heard count as delivered, and a later one
    is accepted in their place. */
module AshReceiveExact {
  import opened AshHost
  import opened AshLink
  import opened AshReceive

  const EARLY: Payload := [0x0E]
  const LATE: Payload := [0x1A]

  function Copies(p: Payload, n: nat): (r: seq<Payload>)
    ensures |r| == n && forall i | 0 <= i < n :: r[i] == p
  {
    seq(n, _ => p)
  }

  /** Send holds the number 0 while the lines are quiet and r frames have been accepted. */
  predicate Poised(w: World, r: nat, sent: nat) {
    && w.host.phase == Writing(EARLY, 0, 0, 0) && w.captured == 0 && w.host.pump.Resting?
    && w.host.rxSeq == r % 8 && |w.accepted| == r && w.sent == Copies(EARLY, sent)
    && w.base == r && w.up == [] && w.down == [] && w.got == []
  }

  lemma {:induction false} Start(lim: Limits) returns (w: World)
    ensures Reachable(lim, w) && Poised(w, 0, 0)
  {
    var h := Host(0, 0, [], [], 0, 0, 0, 0, Idle, Resting);
    var w0 := World(h, [], [], [], [], false, 0, [], [], [], [], 0, [], 0, []);
    Untouched(lim, w0);
    Extend(lim, w0, Does(Begin(EARLY)));
    var w1 := Then(lim, w0, Does(Begin(EARLY)));
    Extend(lim, w1, Does(Drained));
    w := Then(lim, w1, Does(Drained));
  }

  /** What later steps depend on, apart from the lines and the numbers. */
  predicate SameSend(w: World, w': World) {
    && w'.host.phase == w.host.phase && w'.captured == w.captured && w'.got == w.got
    && w.host.pump.Resting? && w'.host.pump.Resting?
  }

  /** What a step of the pump with its answer leaves as it was. */
  predicate SameBut(w: World, w': World) {
    && w'.host.phase == w.host.phase && w'.captured == w.captured && w'.got == w.got
    && w'.sent == w.sent && w'.base == w.base && w'.down == w.down
    && w'.accepted == w.accepted && w'.host.rxSeq == w.host.rxSeq
  }

  lemma {:induction false} Answers(lim: Limits, w: World) returns (w': World)
    requires Reachable(lim, w) && w.up == [] && w.host.pump.Answering?
    ensures Reachable(lim, w') && SameBut(w, w')
    ensures |w'.up| == 1 && w'.up[0].f == w.host.pump.answer
    ensures w'.host.pump.Resting? || w'.host.pump.Offering?
  {
    Extend(lim, w, Does(Answer));
    w' := Acts(w, Answer);
  }

  lemma {:induction false} Offers(lim: Limits, w: World) returns (w': World)
    requires Reachable(lim, w) && (w.host.pump.Resting? || w.host.pump.Offering?)
    ensures Reachable(lim, w') && SameBut(w, w') && w'.host.pump.Resting? && w'.up == w.up
  {
    w' := w;
    if w.host.pump.Offering? {
      Extend(lim, w, Does(Offer));
      w' := Acts(w, Offer);
    }
  }

  /** A payload sent over quiet lines, and compared. */
  lemma {:induction false} Compared(lim: Limits, w: World, p: Payload) returns (w': World)
    requires Reachable(lim, w) && w.up == [] && w.down == [] && |w.sent| < w.base + lim.window
    requires w.host.pump.Resting?
    ensures Reachable(lim, w') && w'.host.pump.Answering?
    ensures w'.host.pump.answer == OutAck(w'.host.rxSeq) || w'.host.pump.answer == OutNak(w'.host.rxSeq)
    ensures w'.host.phase == w.host.phase && w'.captured == w.captured && w'.got == w.got
    ensures w'.sent == w.sent + [p] && w'.base == w.base && w'.down == [] && w'.up == []
    ensures if |w.sent| % 8 == w.host.rxSeq
      then w'.accepted == w.accepted + [p] && w'.host.rxSeq == Next(w.host.rxSeq)
      else w'.accepted == w.accepted && w'.host.rxSeq == w.host.rxSeq
  {
    Extend(lim, w, NcpSend(p));
    var w1 := Then(lim, w, NcpSend(p));
    assert w1.down == [Down(Data(|w.sent| % 8, Mark(w), p), |w.sent|, |w.got|)];
    Extend(lim, w1, Arrive);
    var w2 := Hears(w1);
    assert w2.down == w1.down && w2.host.pump == Judging(|w.sent| % 8, p);
    Extend(lim, w2, Judges);
    w' := Compares(w2);
  }

  /** A payload sent over quiet lines, heard, and answered with the host's number. */
  lemma {:induction false} Exchange(lim: Limits, w: World, p: Payload) returns (w': World)
    requires Reachable(lim, w) && w.up == [] && w.down == [] && |w.sent| < w.base + lim.window
    requires w.host.pump.Resting?
    ensures Reachable(lim, w') && SameSend(w, w')
    ensures w'.sent == w.sent + [p] && w'.base == w.base && w'.down == []
    ensures |w'.up| == 1 && !w'.up[0].f.OutData? && w'.up[0].f.ack == w'.host.rxSeq
    ensures if |w.sent| % 8 == w.host.rxSeq
      then w'.accepted == w.accepted + [p] && w'.host.rxSeq == Next(w.host.rxSeq)
      else w'.accepted == w.accepted && w'.host.rxSeq == w.host.rxSeq
  {
    var w1 := Compared(lim, w, p);
    var w2 := Answers(lim, w1);
    w' := Offers(lim, w2);
  }

  lemma {:induction false} Acknowledged(lim: Limits, w: World) returns (w': World)
    requires Reachable(lim, w) && |w.up| == 1 && !w.up[0].f.OutData?
    ensures Reachable(lim, w') && w' == w.(up := [], base := AckTo(w.base, |w.sent|, w.up[0].f.ack))
  {
    Extend(lim, w, NcpHear);
    w' := NcpHears(w);
  }

  /** Within a window of seven a number names its position. */
  lemma {:induction false} AckExact(base: nat, next: nat, k: nat)
    requires base <= k <= next <= base + 7
    ensures AckTo(base, next, k % 8) == k
  {
    var off := (k % 8 + 8 - base % 8) % 8;
    assert off == (k - base) % 8;
  }

  /** A frame exchanged and its answer heard: the window moves on to the host's number. */
  lemma {:induction false} Acknowledges(lim: Limits, w: World, p: Payload, k: nat) returns (w': World)
    requires lim.window <= 7 && Reachable(lim, w) && w.up == [] && w.down == [] && w.host.pump.Resting?
    requires w.base <= k <= |w.sent| + 1 <= w.base + lim.window
    requires k % 8 == if |w.sent| % 8 == w.host.rxSeq then Next(w.host.rxSeq) else w.host.rxSeq
    ensures Reachable(lim, w') && SameSend(w, w') && w'.up == [] && w'.down == []
    ensures w'.sent == w.sent + [p] && w'.base == k && w'.host.rxSeq == k % 8
    ensures w'.accepted == if |w.sent| % 8 == w.host.rxSeq then w.accepted + [p] else w.accepted
  {
    var w1 := Exchange(lim, w, p);
    w' := Acknowledged(lim, w1);
    AckExact(w.base, |w.sent| + 1, k);
  }

  lemma {:induction false} NextOf(r: nat)
    ensures Next(r % 8) == (r + 1) % 8
  {
  }

  lemma {:induction false} CopiesOn(p: Payload, n: nat)
    ensures Copies(p, n) + [p] == Copies(p, n + 1)
  {
  }

  /** One more frame sent, accepted and acknowledged behind Send's back. */
  lemma {:induction false} Round(lim: Limits, w: World, r: nat) returns (w': World)
    requires 1 <= lim.window <= 7 && Reachable(lim, w) && Poised(w, r, r)
    ensures Reachable(lim, w') && Poised(w', r + 1, r + 1)
  {
    NextOf(r);
    CopiesOn(EARLY, r);
    w' := Acknowledges(lim, w, EARLY, r + 1);
  }

  lemma {:induction false} Rounds(lim: Limits, n: nat) returns (w: World)
    requires 1 <= lim.window <= 7
    ensures Reachable(lim, w) && Poised(w, n, n)
  {
    if n == 0 {
      w := Start(lim);
    } else {
      w := Rounds(lim, n - 1);
      w := Round(lim, w, n - 1);
    }
  }

  /** A frame the coprocessor sends and the line loses. */
  lemma {:induction false} SendLost(lim: Limits, w: World, p: Payload) returns (w': World)
    requires Reachable(lim, w) && w.down == [] && w.host.pump.Resting? && |w.sent| < w.base + lim.window
    ensures Reachable(lim, w') && w' == w.(sent := w.sent + [p])
  {
    Extend(lim, w, NcpSend(p));
    var w1 := Then(lim, w, NcpSend(p));
    Extend(lim, w1, LoseDown(0));
    w' := Then(lim, w1, LoseDown(0));
    assert w'.down == [];
  }

  lemma {:induction false} SendsLost(lim: Limits, w: World, p: Payload, n: nat) returns (w': World)
    requires Reachable(lim, w) && w.down == [] && w.host.pump.Resting? && |w.sent| + n <= w.base + lim.window
    ensures Reachable(lim, w') && w' == w.(sent := w.sent + Copies(p, n))
    decreases n
  {
    if n == 0 {
      w' := w;
      assert w.sent + Copies(p, 0) == w.sent;
    } else {
      w' := SendLost(lim, w, p);
      assert (w.sent + [p]) + Copies(p, n - 1) == w.sent + Copies(p, n);
      w' := SendsLost(lim, w', p, n - 1);
    }
  }

  /** The captured number goes out at last and is heard. */
  lemma {:induction false} StaleWritten(lim: Limits, w: World, d: nat, n: nat) returns (w': World)
    requires Reachable(lim, w) && Poised(w, d, n) && d <= lim.staleness
    ensures Reachable(lim, w') && w'.base == AckTo(d, n, 0)
    ensures w'.up == [] && w'.down == [] && w'.sent == w.sent
    ensures w'.accepted == w.accepted && w'.host.rxSeq == w.host.rxSeq && w'.host.pump.Resting?
  {
    Extend(lim, w, Does(Write));
    var w1 := Acts(w, Write);
    assert |w1.up| == 1 && w1.up[0].f == OutData(0, 0, false, EARLY);
    Extend(lim, w1, NcpHear);
    w' := NcpHears(w1);
  }

  /** The stale number 0 is taken for 8: the coprocessor believes all it lost arrived. */
  lemma {:induction false} Mistaken(lim: Limits, d: nat) returns (w: World)
    requires 4 <= lim.window <= 7 && d == 8 - lim.window <= lim.staleness
    ensures Reachable(lim, w) && w.base == 8 && w.sent == Copies(EARLY, 8)
    ensures |w.accepted| == d == w.host.rxSeq && w.up == [] && w.down == [] && w.host.pump.Resting?
  {
    assert d % 8 == d;
    w := Rounds(lim, d);
    w := SendsLost(lim, w, EARLY, lim.window);
    assert w.sent == Copies(EARLY, 8);
    AckExact(d, 8, 8);
    w := StaleWritten(lim, w, d, 8);
  }

  /** Even the host's refusal of what comes next is taken for a full window's worth. */
  lemma {:induction false} Overrun(lim: Limits, d: nat) returns (w: World)
    requires 4 <= lim.window <= 7 && d == 8 - lim.window <= lim.staleness
    ensures Reachable(lim, w) && w.base == 8 + d && w.up == [] && w.down == [] && w.host.pump.Resting?
    ensures w.sent == Copies(EARLY, 8) + Copies(LATE, d) && |w.accepted| == d == w.host.rxSeq
  {
    var w1 := Mistaken(lim, d);
    var w2 := SendsLost(lim, w1, LATE, d - 1);
    w := Acknowledges(lim, w2, LATE, 8 + d);
    CopiesOn(LATE, d - 1);
    assert (Copies(EARLY, 8) + Copies(LATE, d - 1)) + [LATE] == Copies(EARLY, 8) + Copies(LATE, d);
  }

  /** So the host comes to accept a frame in place of one it never heard. */
  lemma {:induction false} Unsafe(lim: Limits) returns (w: World)
    requires 4 <= lim.window <= 7 && lim.staleness + lim.window >= 8
    ensures Reachable(lim, w) && !InOrder(w)
  {
    var d := 8 - lim.window;
    var w1 := Overrun(lim, d);
    assert (8 + d) % 8 == d;
    w := Exchange(lim, w1, LATE);
    assert w.accepted[d] == LATE && w.sent[d] == EARLY;
  }

  /** Receive safety holds over all runs exactly within the limits of Sound: with a
      window of three or less whatever the interleaving, and with a wider one only if
      no DATA frame's number is stale by more than seven less the window. */
  lemma {:induction false} ReceiveExact(lim: Limits)
    requires 1 <= lim.window <= 7
    ensures Sound(lim) <==> forall w | Reachable(lim, w) :: InOrder(w)
  {
    if Sound(lim) {
      forall w | Reachable(lim, w) ensures InOrder(w) {
        ReceiveSafe(lim, w);
      }
    } else {
      var w := Unsafe(lim);
    }
  }
}
