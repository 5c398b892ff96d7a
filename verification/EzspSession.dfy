/** The session table of internal/ezsp/conn.go: how replies find their commands, and
    how subscribers' channels live and die. */
module EzspSession {
  import opened Wrappers

  type Byte = n: nat | n < 0x100
  type FrameID = nat

  datatype Message = Message(sequence: Byte, id: FrameID, callback: bool, params: seq<Byte>)

  /** A buffered channel.  Sending to or closing one that is closed would panic. */
  datatype Channel = Channel(buf: seq<Message>, room: nat, open: bool)

  predicate MatchesResponse(m: Message, sequence: Byte, id: FrameID) {
    !m.callback && m.sequence == sequence && m.id == id
  }

  // ----- Replies and what they answer.

  /** m is the coprocessor's reply to command number n of those issued. */
  predicate Answers(issued: seq<FrameID>, m: Message, n: nat) {
    n < |issued| && !m.callback && m.sequence == n % 0x100 && m.id == issued[n]
  }

  /** A reply returned to command `to`, produced for command `from`. */
  datatype Answer = Answer(to: nat, from: nat, reply: Message)

  /** Correlation as far as eight bits allow. */
  predicate Correlated(issued: seq<FrameID>, a: Answer) {
    && a.from <= a.to < |issued| && Answers(issued, a.reply, a.from)
    && issued[a.from] == issued[a.to] && a.from % 0x100 == a.to % 0x100
  }

  lemma {:induction false} MoreIssued(issued: seq<FrameID>, id: FrameID)
    ensures forall a | Correlated(issued, a) :: Correlated(issued + [id], a)
  {
  }

  /** A reply to one command passes for a reply to another exactly when the frame
      identifiers agree and the commands are a whole number of laps apart. */
  lemma PassesForExactly(issued: seq<FrameID>, m: Message, from: nat, to: nat)
    requires Answers(issued, m, from) && to < |issued|
    ensures MatchesResponse(m, to % 0x100, issued[to]) <==>
      issued[from] == issued[to] && from % 0x100 == to % 0x100
  {
  }

  /** So a reply less than a lap late is the command's own, and no other. */
  lemma OwnReply(issued: seq<FrameID>, a: Answer)
    requires Correlated(issued, a)
    ensures a.to - a.from < 0x100 <==> a.from == a.to
  {
  }

  // ----- Offering a message to the subscribers.

  type Subs = map<nat, Message -> bool>

  predicate Wants(subs: Subs, id: nat, m: Message) {
    id in subs && subs[id](m)
  }

  predicate Full(c: Channel) {
    |c.buf| >= c.room
  }

  function Push(c: Channel, m: Message): Channel {
    c.(buf := c.buf + [m])
  }

  /** Each of the given subscribers that wants the message and has room is sent it. */
  function Offered(subs: Subs, chans: map<nat, Channel>, m: Message, among: set<nat>): map<nat, Channel> {
    map id | id in chans ::
      if id in among && Wants(subs, id, m) && !Full(chans[id]) then Push(chans[id], m) else chans[id]
  }

  /** Those of them that want it and have none. */
  function Missed(subs: Subs, chans: map<nat, Channel>, m: Message, among: set<nat>): set<nat> {
    set id | id in among && id in chans && Wants(subs, id, m) && Full(chans[id])
  }

  lemma OneMore(subs: Subs, chans: map<nat, Channel>, m: Message, done: set<nat>, id: nat)
    requires id !in done && id in chans
    ensures Offered(subs, chans, m, done + {id}) ==
      if Wants(subs, id, m) && !Full(chans[id]) then Offered(subs, chans, m, done)[id := Push(chans[id], m)]
      else Offered(subs, chans, m, done)
    ensures |Missed(subs, chans, m, done + {id})| ==
      |Missed(subs, chans, m, done)| + if Wants(subs, id, m) && Full(chans[id]) then 1 else 0
    ensures Offered(subs, chans, m, done)[id] == chans[id]
  {
    var missed := Missed(subs, chans, m, done);
    assert Missed(subs, chans, m, done + {id}) ==
      if Wants(subs, id, m) && Full(chans[id]) then missed + {id} else missed;
  }

  lemma NoneYet(subs: Subs, chans: map<nat, Channel>, m: Message)
    ensures Offered(subs, chans, m, {}) == chans && |Missed(subs, chans, m, {})| == 0
  {
  }

  function Shut(chans: map<nat, Channel>, among: set<nat>): map<nat, Channel> {
    map id | id in chans :: if id in among then chans[id].(open := false) else chans[id]
  }

  /** Everything waiting in a channel satisfies the filter the channel was asked for with. */
  ghost predicate Screened(filters: Subs, chans: map<nat, Channel>) {
    && filters.Keys == chans.Keys
    && forall id, i | id in chans && 0 <= i < |chans[id].buf| :: filters[id](chans[id].buf[i])
  }

  lemma {:induction false} OfferedScreened(filters: Subs, subs: Subs, chans: map<nat, Channel>, m: Message)
    requires Screened(filters, chans) && forall id | id in subs :: id in filters && filters[id] == subs[id]
    ensures Screened(filters, Offered(subs, chans, m, subs.Keys))
    ensures var later := Offered(subs, chans, m, subs.Keys);
      later.Keys == chans.Keys && forall id | id in chans :: later[id].open == chans[id].open
  {
  }

  lemma {:induction false} ShutScreened(filters: Subs, chans: map<nat, Channel>, among: set<nat>)
    requires Screened(filters, chans)
    ensures Screened(filters, Shut(chans, among))
  {
  }

  /** In the subscriber's own terms: it is sent m exactly if it is subscribed, its filter holds
      of m and there is room. */
  ghost predicate Reaches(subs: Subs, before: map<nat, Channel>, m: Message, later: map<nat, Channel>) {
    && later.Keys == before.Keys
    && forall id | id in before ::
         later[id] == if id in subs && subs[id](m) && |before[id].buf| < before[id].room
                      then before[id].(buf := before[id].buf + [m]) else before[id]
  }

  /** Those subscribed whose filter holds of m and whose buffer is full. */
  ghost function Misses(subs: Subs, chans: map<nat, Channel>, m: Message): set<nat> {
    set id | id in subs && id in chans && subs[id](m) && |chans[id].buf| >= chans[id].room
  }

  lemma {:induction false} OfferedReaches(subs: Subs, chans: map<nat, Channel>, m: Message)
    ensures Reaches(subs, chans, m, Offered(subs, chans, m, subs.Keys))
    ensures Missed(subs, chans, m, subs.Keys) == Misses(subs, chans, m)
  {
  }

  lemma ShutOne(chans: map<nat, Channel>, done: set<nat>, id: nat)
    requires id in chans && id !in done
    ensures Shut(chans, done)[id] == chans[id]
    ensures Shut(chans, done + {id}) == Shut(chans, done)[id := chans[id].(open := false)]
  {
  }

  /** How channels may change from one moment to a later one: none disappears, a
      closed one stays closed and receives nothing more. */
  ghost predicate Settled(before: map<nat, Channel>, later: map<nat, Channel>) {
    forall id | id in before ::
      id in later && (!before[id].open ==> !later[id].open && |later[id].buf| <= |before[id].buf|)
  }

  lemma SettledTransitive(a: map<nat, Channel>, b: map<nat, Channel>, c: map<nat, Channel>)
    requires Settled(a, b) && Settled(b, c)
    ensures Settled(a, c)
  {
  }

  /** A channel's filter is the one it was asked for with, for good. */
  ghost predicate Kept(before: Subs, later: Subs) {
    forall id | id in before :: id in later && later[id] == before[id]
  }

  /** What happens while a command waits, in order. */
  datatype Happening =
    | Arrives(m: Message, from: nat)  // the read pump routes a message
    | Ready                           // select takes from the reply channel
    | Subscribes(wants: Message -> bool, buffer: int)
    | Cancels(id: nat)                // a cancel function handed out earlier is called
    | Receives(id: nat)               // a subscriber takes a message
    | Closes
    | SendFails
    | ReaderGone
    | Lapses                          // timeout or cancellation

  datatype CommandError = Closed | Sending | TimedOut

  class Session {
    var sequence: Byte
    var pending: Option<seq<Message>>   // the waiting command's reply channel, of room one
    var subs: Subs
    var chans: map<nat, Channel>        // every channel ever handed out
    var nextSub: nat
    var closed: bool
    var dropped: nat
    ghost var issued: seq<FrameID>
    ghost var slotFrom: nat             // which command the waiting reply answers
    ghost var answers: seq<Answer>      // what commands have been given
    ghost var filters: Subs             // what every channel was asked for with

    /** The subscriber table: a channel is open exactly while its subscription is in
        the table, identifiers are never reused, and no channel ever holds a message that its
        filter rejects. */
    ghost predicate TableValid()
      reads this
    {
      && (forall id: nat :: id in chans <==> id < nextSub)
      && (forall id | id in chans :: chans[id].open <==> id in subs)
      && (forall id | id in subs :: id in chans && id in filters && filters[id] == subs[id])
      && Screened(filters, chans)
    }

    ghost predicate RepliesValid()
      reads this
    {
      && sequence == |issued| % 0x100
      && (pending.Some? ==> |pending.value| <= 1)
      && (pending.Some? && pending.value != [] ==> Answers(issued, pending.value[0], slotFrom))
      && (forall a | a in answers :: Correlated(issued, a))
    }

    ghost predicate Valid()
      reads this
    {
      TableValid() && RepliesValid()
    }

    constructor ()
      ensures Valid() && subs == map[] && chans == map[] && issued == [] && answers == []
      ensures pending.None? && !closed && dropped == 0
    {
      sequence, pending, subs, chans, nextSub, closed, dropped := 0, None, map[], map[], 0, false, 0;
      issued, slotFrom, answers, filters := [], 0, [], map[];
    }

    method Subscribe(wants: Message -> bool, buffer: int) returns (id: nat)
      requires Valid()
      modifies this`subs, this`chans, this`nextSub, this`filters
      ensures Valid() && Settled(old(chans), chans)
      ensures id !in old(chans) && subs == old(subs)[id := wants] && filters == old(filters)[id := wants]
      ensures Kept(old(filters), filters)
      ensures chans == old(chans)[id := Channel([], if buffer <= 0 then 32 else buffer, true)]
    {
      id := nextSub;
      nextSub := nextSub + 1;
      subs, filters := subs[id := wants], filters[id := wants];
      chans := chans[id := Channel([], if buffer <= 0 then 32 else buffer, true)];
    }

    /** Closing a channel, which must not have happened before. */
    method CloseChannel(id: nat)
      requires id in chans && chans[id].open
      modifies this`chans
      ensures chans == old(chans)[id := old(chans)[id].(open := false)]
    {
      chans := chans[id := chans[id].(open := false)];
    }

    /** The function Subscribe returns; it may be called any number of times. */
    method Cancel(id: nat)
      requires Valid() && id < nextSub
      modifies this`subs, this`chans
      ensures Valid() && Settled(old(chans), chans)
      ensures subs == old(subs) - {id}
      ensures chans == old(chans)[id := old(chans)[id].(open := false)]
    {
      if id in subs {
        subs := subs - {id};
        CloseChannel(id);
      }
    }

    /** The loop of Close. */
    method CloseAll()
      requires forall id | id in subs :: id in chans && chans[id].open
      modifies this`subs, this`chans
      ensures subs == map[] && chans == Shut(old(chans), old(subs).Keys)
    {
      ghost var before, done := chans, {};
      while subs != map[]
        invariant done + subs.Keys == old(subs).Keys && done !! subs.Keys && subs.Keys <= before.Keys
        invariant chans == Shut(before, done)
        decreases subs.Keys
      {
        var id :| id in subs.Keys;
        ShutOne(before, done, id);
        subs := subs - {id};
        CloseChannel(id);
        done := done + {id};
      }
      assert done == old(subs).Keys;
    }

    method Close()
      requires Valid()
      modifies this`subs, this`chans, this`closed
      ensures Valid() && Settled(old(chans), chans) && closed
      ensures old(closed) ==> subs == old(subs) && chans == old(chans)
      ensures !old(closed) ==> subs == map[] && chans == Shut(old(chans), old(subs).Keys)
    {
      if closed {
        return;
      }
      closed := true;
      ShutScreened(filters, chans, subs.Keys);
      hide Screened;
      CloseAll();
    }

    /** A subscriber takes the oldest message waiting for it. */
    method Receive(id: nat) returns (m: Message)
      requires Valid() && id in chans && chans[id].buf != []
      modifies this`chans
      ensures Valid() && Settled(old(chans), chans)
      ensures [m] + chans[id].buf == old(chans)[id].buf
      ensures chans == old(chans)[id := chans[id]] && chans[id].open == old(chans)[id].open
    {
      m := chans[id].buf[0];
      chans := chans[id := chans[id].(buf := chans[id].buf[1..])];
    }

    method Send(id: nat, m: Message) returns (ok: bool)
      requires id in chans && chans[id].open
      modifies this`chans
      ensures ok <==> !Full(old(chans)[id])
      ensures chans == if ok then old(chans)[id := Push(old(chans)[id], m)] else old(chans)
    {
      ok := |chans[id].buf| < chans[id].room;
      if ok {
        chans := chans[id := Push(chans[id], m)];
      }
    }

    /** One subscriber's turn. */
    method Offer(id: nat, m: Message, ghost before: map<nat, Channel>, ghost done: set<nat>)
      requires id in subs && id in before && before[id].open && id !in done
      requires chans == Offered(subs, before, m, done)
      modifies this`chans, this`dropped
      ensures chans == Offered(subs, before, m, done + {id})
      ensures dropped + |Missed(subs, before, m, done)| == old(dropped) + |Missed(subs, before, m, done + {id})|
    {
      OneMore(subs, before, m, done, id);
      if subs[id](m) {
        var ok := Send(id, m);
        if !ok {
          dropped := dropped + 1;
        }
      }
    }

    /** The loop of route over the subscribers, in whatever order the map gives. */
    method Broadcast(m: Message)
      requires forall id | id in subs :: id in chans && chans[id].open
      modifies this`chans, this`dropped
      ensures chans == Offered(subs, old(chans), m, subs.Keys)
      ensures dropped == old(dropped) + |Missed(subs, old(chans), m, subs.Keys)|
    {
      var todo := subs.Keys;
      ghost var all, before, count := todo, chans, dropped;
      assert all - todo == {};
      NoneYet(subs, chans, m);
      while todo != {}
        invariant todo <= all
        invariant chans == Offered(subs, before, m, all - todo)
        invariant dropped == count + |Missed(subs, before, m, all - todo)|
        decreases todo
      {
        var id :| id in todo;
        assert (all - todo) + {id} == all - (todo - {id});
        Offer(id, m, before, all - todo);
        todo := todo - {id};
      }
      assert all - todo == all;
    }

    /** What that comes to for each subscriber. */
    method Announce(m: Message)
      requires TableValid()
      modifies this`chans, this`dropped
      ensures TableValid() && Settled(old(chans), chans)
      ensures Reaches(subs, old(chans), m, chans) && dropped == old(dropped) + |Misses(subs, old(chans), m)|
    {
      OfferedReaches(subs, chans, m);
      OfferedScreened(filters, subs, chans, m);
      hide Offered, Missed, Screened, Misses;
      Broadcast(m);
    }

    /** A message goes to the waiting command if it can be its reply and the command
        has room for it; otherwise exactly the subscribers whose filters hold of it have it
        queued, or are counted as having missed it for want of room. */
    method Route(m: Message, ghost from: nat)
      requires Valid() && (m.callback || Answers(issued, m, from))
      modifies this`pending, this`chans, this`dropped, this`slotFrom
      ensures Valid() && Settled(old(chans), chans)
      ensures var direct := !m.callback && old(pending) == Some([]);
        && (direct ==> pending == Some([m]) && slotFrom == from && chans == old(chans) && dropped == old(dropped))
        && (!direct ==>
              && pending == old(pending) && slotFrom == old(slotFrom)
              && Reaches(subs, old(chans), m, chans)
              && dropped == old(dropped) + |Misses(subs, old(chans), m)|)
    {
      hide Screened, Reaches, Misses, Correlated;
      if !m.callback && pending.Some? {
        if |pending.value| < 1 {
          pending := Some([m]);
          slotFrom := from;
          return;
        }
      }
      Announce(m);
    }

    /** The start of a command, under the lock. */
    method Begin(id: FrameID) returns (seqno: Byte)
      requires Valid() && !closed
      modifies this`sequence, this`pending, this`issued
      ensures Valid() && issued == old(issued) + [id] && pending == Some([])
      ensures seqno == |old(issued)| % 0x100
    {
      hide Screened, Correlated, Answers;
      MoreIssued(issued, id);
      seqno := sequence;
      sequence := (sequence + 1) % 0x100;
      pending := Some([]);
      issued := issued + [id];
    }

    /** What a finished command has added to the answers given. */
    ghost predicate Returned(before: seq<Answer>, r: Result<seq<Byte>, CommandError>)
      reads this
    {
      if r.Err? then answers == before
      else
        && issued != [] && |answers| == |before| + 1 && answers[..|before|] == before
        && var a := answers[|before|]; a.to == |issued| - 1 && a.reply.params == r.value
    }

    /** A message taken from the reply channel: the answer, or a stale one to forget. */
    method TakeReply(seqno: Byte, id: FrameID) returns (r: Result<seq<Byte>, CommandError>)
      requires Valid() && pending.Some? && pending.value != [] && issued != []
      requires id == issued[|issued| - 1] && seqno == (|issued| - 1) % 0x100
      modifies this`pending, this`answers
      ensures Valid() && Returned(old(answers), r)
      ensures r.Ok? <==> MatchesResponse(old(pending).value[0], seqno, id)
      ensures pending == if r.Ok? then None else Some([])
    {
      var m := pending.value[0];
      pending := Some([]);
      if MatchesResponse(m, seqno, id) {
        answers := answers + [Answer(|issued| - 1, slotFrom, m)];
        pending := None;
        return Ok(m.params);
      }
      r := Err(TimedOut);
    }

    /** What others do to the table while a command waits. */
    method Meanwhile(h: Happening)
      requires Valid() && (h.Arrives? ==> h.m.callback || Answers(issued, h.m, h.from))
      modifies this`pending, this`slotFrom, this`subs, this`chans, this`nextSub, this`closed, this`dropped, this`filters
      ensures Valid() && Settled(old(chans), chans) && (old(closed) ==> closed) && Kept(old(filters), filters)
      ensures pending.Some? <==> old(pending).Some?
    {
      hide Screened, Correlated, Shut, Reaches;
      match h {
        case Arrives(m, from) => Route(m, from);
        case Subscribes(wants, buffer) => var id := Subscribe(wants, buffer);
        case Cancels(id) =>
          if id < nextSub {
            Cancel(id);
          }
        case Receives(id) =>
          if id in chans && chans[id].buf != [] {
            var m := Receive(id);
          }
        case Closes => Close();
        case _ =>
      }
    }

    /** The waiting loop. */
    method Await(seqno: Byte, id: FrameID, script: seq<Happening>) returns (r: Result<seq<Byte>, CommandError>)
      requires Valid() && pending.Some? && issued != []
      requires id == issued[|issued| - 1] && seqno == (|issued| - 1) % 0x100
      requires forall h | h in script && h.Arrives? :: h.m.callback || Answers(issued, h.m, h.from)
      modifies this`pending, this`answers, this`slotFrom, this`subs, this`chans, this`nextSub, this`closed, this`dropped
      modifies this`filters
      ensures Valid() && Settled(old(chans), chans) && pending.None? && Kept(old(filters), filters)
      ensures Returned(old(answers), r)
    {
      var rest := script;
      while rest != []
        invariant Valid() && Settled(old(chans), chans) && Kept(old(filters), filters)
        invariant answers == old(answers) && pending.Some?
        invariant forall h | h in rest && h.Arrives? :: h.m.callback || Answers(issued, h.m, h.from)
        decreases |rest|
      {
        var h := rest[0];
        rest := rest[1..];
        if h.Arrives? || h.Subscribes? || h.Cancels? || h.Receives? || h.Closes? {
          ghost var before := chans;
          Meanwhile(h);
          SettledTransitive(old(chans), before, chans);
        } else if h.Ready? && pending.value != [] {
          r := TakeReply(seqno, id);
          if r.Ok? {
            return;
          }
        } else if h.SendFails? || h.ReaderGone? || h.Lapses? {
          pending := None;
          return Err(if h.SendFails? then Sending else if h.ReaderGone? then Closed else TimedOut);
        }
      }
      pending := None;
      r := Err(TimedOut);
    }

    /** One command from start to finish.  A reply it returns answers a command with
        the same frame identifier, a whole number of laps back, and is no callback. */
    method Command(id: FrameID, script: seq<Happening>) returns (r: Result<seq<Byte>, CommandError>)
      requires Valid()
      requires forall h | h in script && h.Arrives? :: h.m.callback || Answers(issued + [id], h.m, h.from)
      modifies this`sequence, this`pending, this`issued, this`answers, this`slotFrom
      modifies this`subs, this`chans, this`nextSub, this`closed, this`dropped, this`filters
      ensures Valid() && Settled(old(chans), chans) && Kept(old(filters), filters)
      ensures old(closed) ==> r == Err(Closed) && issued == old(issued) && answers == old(answers)
      ensures !old(closed) ==> issued == old(issued) + [id] && pending.None?
      ensures Returned(old(answers), r)
    {
      if closed {
        return Err(Closed);
      }
      var seqno := Begin(id);
      r := Await(seqno, id, script);
    }
  }
}
