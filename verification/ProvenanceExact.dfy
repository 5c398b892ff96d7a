/** Exactly when provenance stays one deep, and the histories in which it does not. */
module ProvenanceExact {
  import opened Text
  import opened Registry
  import opened Provenance
  import opened Wrappers

  // ----- At once.

  /** A removal leaves nothing pointing nowhere at once exactly when no other record was
      copied from the one removed. */
  lemma RemovalBreaks(reg: Reg, k: string)
    requires OneDeep(reg)
    ensures OneDeep(reg - {k}) <==> k == "" || forall j | j in reg && j != k :: reg[j].inheritedFrom != k
  {
    var reg' := reg - {k};
    if k == "" || forall j | j in reg && j != k :: reg[j].inheritedFrom != k {
      forall j | j in reg' && reg'[j].inheritedFrom != "" ensures Lends(reg', reg'[j].inheritedFrom, j) {
        assert Lends(reg, reg[j].inheritedFrom, j);
      }
    } else {
      var j :| j in reg && j != k && reg[j].inheritedFrom == k;
      assert !Lends(reg', reg'[j].inheritedFrom, j);
    }
  }

  lemma {:induction false} RecordedFrom(b: Book, id: nat, k: string)
    requires Inv(b) && id in b.flight && b.flight[id].desc.inheritedFrom != "" && k in b.reg
    ensures Recorded(b.reg[k], b.flight[id].desc).inheritedFrom == b.flight[id].desc.inheritedFrom
    ensures !FirstHand(Recorded(b.reg[k], b.flight[id].desc))
  {
    assert Pending(b, id);
  }

  /** A sibling's answers, recorded on whatever record, leave provenance one deep at once
      exactly when that is neither the sibling nor any other's source.  Either way the record
      no longer counts as having answered for itself. */
  lemma {:induction false} MisplacedBreaks(b: Book, id: nat, j: string)
    requires Inv(b) && id in b.flight && b.flight[id].desc.inheritedFrom != "" && j in b.reg
    ensures var p, r := b.flight[id].desc.inheritedFrom, Recorded(b.reg[j], b.flight[id].desc);
      && !FirstHand(r)
      && (OneDeep(b.reg[j := r]) <==> p != j && forall i | i in b.reg :: b.reg[i].inheritedFrom != j)
  {
    var desc := b.flight[id].desc;
    var r := Recorded(b.reg[j], desc);
    var none := Book(b.reg, map[]);
    RecordedFrom(b, id, j);
    KeysNotEmpty(b.reg, j);
    HarmlessKeeps(none, j, r);
    assert FlightSound(none.(reg := b.reg[j := r]));
  }

  // ----- Later.

  /** Whatever is copied, or about to be, was copied from a record with an address. */
  ghost predicate SourcesNamed(b: Book) {
    forall p | p != "" && IsSource(b, p) :: Identified(p)
  }

  /** An interview that copied a record now gone, or no longer fit to be copied. */
  ghost predicate Dangling(b: Book, id: nat) {
    && id in b.flight && b.flight[id].desc.inheritedFrom != "" && b.flight[id].desc.endpoints != []
    && !Lendable(b.reg, b.flight[id].desc.inheritedFrom)
  }

  const OWN := Description("", "", None, None, [], 1, "", "")

  /** It may be recorded on any record that has the address and is no source. */
  lemma {:induction false} LandsOn(start: Book, ops: seq<Op>, b: Book, id: nat, j: string) returns (b': Book)
    requires History(start, ops, b, true) && Dangling(b, id)
    requires j in b.reg && b.reg[j].nodeID == b.flight[id].node && !IsSource(b, j)
    ensures History(start, ops + [Finish(id, OWN, Some(j))], b', true) && !OneDeep(b'.reg)
  {
    var op, p := Finish(id, OWN, Some(j)), b.flight[id].desc.inheritedFrom;
    b' := After(b, op);
    HistoryOn(start, ops, b, op, true);
    assert IsSource(b, p) && p != j;
    assert b'.reg[j].inheritedFrom == p && !Lends(b'.reg, p, j);
  }

  function Elsewhere(node: NodeID): NodeID {
    (node + 1) % 0x1_0000
  }

  function At(reg: Reg, node: NodeID): set<string> {
    set k | k in reg && reg[k].nodeID == node
  }

  /** A device seen at another address leaves sources and interviews as they were. */
  lemma {:induction false} MovesAway(b: Book, id: nat, j: string)
    requires Keyed(b.reg) && SourcesNamed(b) && Dangling(b, id)
    requires j in b.reg && Canonical(j) && b.reg[j].nodeID == b.flight[id].node
    ensures var node := b.flight[id].node; var b' := After(b, SeeDevice(j, Elsewhere(node), 1));
      && Keyed(b'.reg) && SourcesNamed(b') && Dangling(b', id) && b'.flight == b.flight
      && At(b'.reg, node) == At(b.reg, node) - {j} && j in At(b.reg, node)
  {
    var node := b.flight[id].node;
    var b' := After(b, SeeDevice(j, Elsewhere(node), 1));
    assert b'.reg == b.reg[j := b.reg[j].(nodeID := Elsewhere(node), lastSeen := 1)];
    forall p | p != "" && IsSource(b', p) ensures Identified(p) {
      assert IsSource(b, p);
    }
  }

  /** A new record at an address that had none is no source. */
  lemma {:induction false} Appears(b: Book, id: nat)
    requires Keyed(b.reg) && SourcesNamed(b) && Dangling(b, id) && FoundBy(b.reg, b.flight[id].node, None)
    ensures var node := b.flight[id].node; var b' := After(b, SeeNode(node, 1, None));
      && Dangling(b', id) && b'.flight == b.flight && Placeholder(node) in b'.reg
      && b'.reg[Placeholder(node)].nodeID == node && !IsSource(b', Placeholder(node))
  {
    var node := b.flight[id].node;
    var b' := After(b, SeeNode(node, 1, None));
    NewPlaceholder(b.reg, node);
    NotCanonical(node);
    assert !IsSource(b, Placeholder(node));
    assert forall i | i in b.reg :: b'.reg[i].inheritedFrom == b.reg[i].inheritedFrom;
  }

  /** Such an interview breaks provenance after some careful history: devices that are sources
      and have its address move away, until it is recorded on one that is none. */
  lemma {:induction false} Lands(start: Book, ops: seq<Op>, b: Book, id: nat) returns (ops': seq<Op>, b': Book)
    requires History(start, ops, b, true) && Keyed(b.reg) && SourcesNamed(b) && Dangling(b, id)
    ensures History(start, ops', b', true) && !OneDeep(b'.reg)
    decreases |At(b.reg, b.flight[id].node)|
  {
    var node := b.flight[id].node;
    if j :| j in b.reg && b.reg[j].nodeID == node && !IsSource(b, j) {
      b' := LandsOn(start, ops, b, id, j);
      ops' := ops + [Finish(id, OWN, Some(j))];
    } else if j :| j in b.reg && b.reg[j].nodeID == node {
      KeysNotEmpty(b.reg, j);
      NotCanonical(node);
      var op := SeeDevice(j, Elsewhere(node), 1);
      MovesAway(b, id, j);
      HistoryOn(start, ops, b, op, true);
      ops', b' := Lands(start, ops + [op], After(b, op), id);
    } else {
      var op, j := SeeNode(node, 1, None), Placeholder(node);
      Appears(b, id);
      HistoryOn(start, ops, b, op, true);
      b' := LandsOn(start, ops + [op], After(b, op), id, j);
      ops' := ops + [op] + [Finish(id, OWN, Some(j))];
    }
  }

  lemma {:induction false} StillNamed(b: Book, op: Op, k: string)
    requires Inv(b) && Possible(b, op) && Unseated(b, op) == Some(k) && k in b.reg
    ensures SourcesNamed(After(b, op))
  {
    hide Recorded;
    var a := After(b, op);
    if op.Finish? {
      RecordedFrom(b, op.id, k);
    }
    forall p | p != "" && IsSource(a, p) ensures Identified(p) {
      assert IsSource(b, p);
      SourcesLend(b, p);
    }
  }

  lemma {:induction false} NowDangling(b: Book, op: Op, k: string, id: nat)
    requires Inv(b) && Possible(b, op) && Unseated(b, op) == Some(k) && k in b.reg && k != ""
    requires id in After(b, op).flight && b.flight[id].desc.inheritedFrom == k
    ensures Dangling(After(b, op), id)
  {
    hide Recorded;
    assert Pending(b, id);
    if op.Finish? {
      RecordedFrom(b, op.id, k);
    }
  }

  /** An interview that copied a record since unseated breaks provenance in the end. */
  lemma {:induction false} LateCopyBreaks(b: Book, op: Op, k: string, id: nat) returns (ops: seq<Op>, b': Book)
    requires Inv(b) && Possible(b, op) && Unseated(b, op) == Some(k) && k in b.reg
    requires id in After(b, op).flight && b.flight[id].desc.inheritedFrom == k
    ensures History(After(b, op), ops, b', true) && !OneDeep(b'.reg)
  {
    KeysNotEmpty(b.reg, k);
    NamesKept(b, op);
    StillNamed(b, op, k);
    NowDangling(b, op, k, id);
    assert History(After(b, op), [], After(b, op), true);
    hide Possible, SourcesNamed, Dangling, OneDeep;
    ops, b' := Lands(After(b, op), [], After(b, op), id);
  }

  lemma {:induction false} UnseatsAtOnce(b: Book, op: Op, k: string)
    requires Inv(b) && Possible(b, op) && Unseated(b, op) == Some(k) && k in b.reg
    requires exists j | j in b.reg :: b.reg[j].inheritedFrom == k
    ensures !OneDeep(After(b, op).reg)
  {
    var j :| j in b.reg && b.reg[j].inheritedFrom == k;
    KeysNotEmpty(b.reg, k);
    assert Lends(b.reg, k, j);
    if op.Forget? {
      RemovalBreaks(b.reg, k);
    } else {
      MisplacedBreaks(b, op.id, k);
    }
  }

  lemma {:induction false} RecordedOnSource(b: Book, op: Op, k: string)
    requires Inv(b) && Possible(b, op) && op.Finish? && op.found == Some(k)
    requires b.flight[op.id].desc.inheritedFrom == k
    ensures !OneDeep(After(b, op).reg)
  {
    KeysNotEmpty(b.reg, k);
    MisplacedBreaks(b, op.id, k);
  }

  lemma {:induction false} UnseatingHarms(b: Book, op: Op, k: string) returns (ops: seq<Op>, b': Book)
    requires Inv(b) && Possible(b, op) && Unseated(b, op) == Some(k) && k in b.reg && IsSource(b, k)
    ensures History(After(b, op), ops, b', true) && !OneDeep(b'.reg)
  {
    hide Inv, Possible, OneDeep;
    if exists j | j in b.reg :: b.reg[j].inheritedFrom == k {
      UnseatsAtOnce(b, op, k);
      ops, b' := [], After(b, op);
    } else {
      var id :| id in b.flight && b.flight[id].desc.inheritedFrom == k;
      if op.Finish? && op.id == id {
        RecordedOnSource(b, op, k);
        ops, b' := [], After(b, op);
      } else {
        ops, b' := LateCopyBreaks(b, op, k, id);
      }
    }
  }

  /** Taking a record away, or giving it a sibling's answers, is harmless to every careful
      history that may follow exactly when no other record was copied from it and no interview
      under way has copied it. */
  lemma {:induction false} UnseatingExact(b: Book, op: Op, k: string)
    requires Inv(b) && Possible(b, op) && Unseated(b, op) == Some(k) && k in b.reg
    ensures !IsSource(b, k) <==>
      forall ops, b' | History(After(b, op), ops, b', true) :: OneDeep(b'.reg)
  {
    hide Possible, OneDeep;
    if IsSource(b, k) {
      var ops, b' := UnseatingHarms(b, op, k);
    } else {
      StepKeeps(b, op);
      forall ops, b' | History(After(b, op), ops, b', true) ensures OneDeep(b'.reg) {
        CarefulKeeps(After(b, op), ops, b');
      }
    }
  }

  /** For one, a removal. */
  lemma RemovalExact(b: Book, k: string)
    requires Inv(b) && k in b.reg
    ensures !IsSource(b, k) <==>
      forall ops, b' | History(After(b, Forget(k)), ops, b', true) :: OneDeep(b'.reg)
  {
    UnseatingExact(b, Forget(k), k);
  }

  // ----- Two records, one address.

  /** What a device that answers for itself says first, and in the end. */
  const ASKED := Description("Acme", "lamp", None, None, [], 1, "", "")
  const TOLD := ASKED.(endpoints := [Endpoint(1, 260, 256, [0, 6], [])])

  /** Two devices seen at address 1, of which b has answered for itself. */
  function Neighbours(a: string, b: string): Reg {
    map[a := Blank(a, 1, 1), b := Recorded(Blank(b, 1, 1), TOLD)]
  }

  lemma {:induction false} BothSeen(a: string, b: string) returns (ops: seq<Op>, book: Book)
    requires Canonical(a) && Canonical(b) && a != b
    ensures History(EMPTY, ops, book, true)
    ensures book == Book(map[a := Blank(a, 1, 1), b := Blank(b, 1, 1)], map[])
  {
    hide Canonical;
    NotCanonical(1);
    assert History(EMPTY, [], EMPTY, true);
    var op0, op1 := SeeDevice(a, 1, 1), SeeDevice(b, 1, 1);
    HistoryOn(EMPTY, [], EMPTY, op0, true);
    var b0 := Book(map[a := Blank(a, 1, 1)], map[]);
    assert After(EMPTY, op0) == b0;
    HistoryOn(EMPTY, [] + [op0], b0, op1, true);
    ops, book := [] + [op0] + [op1], After(b0, op1);
  }

  lemma {:induction false} OneAnswers(a: string, b: string) returns (ops: seq<Op>, book: Book)
    requires Canonical(a) && Canonical(b) && a != b
    ensures History(EMPTY, ops, book, true) && book == Book(Neighbours(a, b), map[])
  {
    var b1;
    ops, b1 := BothSeen(a, b);
    hide Canonical, History;
    var op0, op1 := Start(0, 1, ASKED, true, None, None), Finish(0, TOLD, Some(b));
    HistoryOn(EMPTY, ops, b1, op0, true);
    var b2 := Book(b1.reg, map[0 := Flight(1, ASKED)]);
    assert After(b1, op0) == b2;
    HistoryOn(EMPTY, ops + [op0], b2, op1, true);
    assert b2.flight - {0} == map[];
    ops, book := ops + [op0] + [op1], After(b2, op1);
  }

  lemma {:induction false} OnlyPeer(a: string, b: string)
    requires Canonical(a) && Canonical(b) && a != b
    ensures IsPeer(Neighbours(a, b), "Acme", "lamp", a, Some(b))
  {
    var reg := Neighbours(a, b);
    assert forall k | k in reg && Candidate(reg[k], "Acme", "lamp", a) :: k == b;
    CapitalsOnly(b);
    LessTotal(b, b);
  }

  /** Two records may have one network address, and the lookups of one interview may find
      first one and then the other.  Here an interview begins on a record that may inherit,
      copies the other, and is recorded on that: a device that answered for itself is said to
      be copied from itself.  Nothing happens between the two halves. */
  lemma {:induction false} SharedAddress(a: string, b: string)
      returns (ops: seq<Op>, book: Book, start: Op, finish: Op)
    requires Canonical(a) && Canonical(b) && a != b
    ensures History(EMPTY, ops, book, true) && start.Start? && finish.Finish? && finish.id == start.id
    ensures Possible(book, start) && Possible(After(book, start), finish)
    ensures start.found == Some(a) && finish.found == Some(b) && b in book.reg && FirstHand(book.reg[b])
    ensures var reg := After(After(book, start), finish).reg;
      b in reg && reg[b].inheritedFrom == b && !OneDeep(reg)
  {
    OnlyPeer(a, b);
    ops, book := OneAnswers(a, b);
    hide Canonical, History, IsPeer;
    start, finish := Start(0, 1, ASKED, false, Some(a), Some(b)), Finish(0, TOLD, Some(b));
    var flown := Book(book.reg, map[0 := Flight(1, Inherit(ASKED, book.reg[b]))]);
    assert After(book, start) == flown;
    var reg := After(flown, finish).reg;
    assert reg[b].inheritedFrom == b && !Lends(reg, b, b);
  }
}
