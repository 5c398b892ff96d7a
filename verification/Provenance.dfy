/** Interviews and inheritance, from zigbee/interview.go, over every history of the
    registry: sightings, namings, removals and any number of interviews under way at
    once, on the same record or on different ones. */
module Provenance {
  import opened Text
  import opened Registry
  import opened Wrappers

  datatype NodeDescriptor = NodeDescriptor(logicalType: string, capability: nat)

  /** What an interview has found so far. */
  datatype Description = Description(
    manufacturer: string, model: string, node: Option<NodeDescriptor>, power: Option<string>,
    endpoints: seq<Endpoint>, at: Time, inheritedFrom: string, inheritedFromName: string)

  function Describe(r: Rec): string {
    if r.name != "" then r.name
    else if r.manufacturer != "" && r.model != "" then r.manufacturer + " " + r.model
    else if r.model != "" then r.model
    else r.ieee
  }

  function InheritedNode(peer: Rec): Option<NodeDescriptor> {
    if peer.nodeType == "" && peer.capability.None? then None
    else Some(NodeDescriptor(peer.nodeType, if peer.capability.Some? then peer.capability.value else 0))
  }

  /** Copy an identical device's structure onto a description. */
  function Inherit(desc: Description, peer: Rec): Description {
    desc.(inheritedFrom := peer.ieee, inheritedFromName := Describe(peer), node := InheritedNode(peer),
          power := if peer.powerSource == "" then None else Some(peer.powerSource),
          endpoints := peer.endpoints)
  }

  predicate LearnedSomething(d: Description) {
    d.node.Some? || d.power.Some? || d.endpoints != [] || d.manufacturer != "" || d.model != ""
  }

  /** A record with what an interview found out about the device as a whole. */
  function Informed(r: Rec, d: Description): Rec {
    r.(lastSeen := d.at,
       manufacturer := if d.manufacturer != "" then d.manufacturer else r.manufacturer,
       model := if d.model != "" then d.model else r.model,
       nodeType := if d.node.Some? then d.node.value.logicalType else r.nodeType,
       capability := if d.node.Some? then Some(d.node.value.capability) else r.capability,
       powerSource := if d.power.Some? then d.power.value else r.powerSource)
  }

  /** And with its structure, whose provenance travels with it. */
  function Structured(r: Rec, d: Description): Rec {
    if d.endpoints == [] then r
    else r.(endpoints := d.endpoints, interviewed := d.at, inheritedFrom := d.inheritedFrom)
  }

  /** Merge an interview's findings into a record. */
  function Applied(r: Rec, d: Description): Rec {
    Structured(Informed(r, d), d)
  }

  function Recorded(r: Rec, d: Description): Rec {
    if LearnedSomething(d) then Applied(r, d) else r
  }

  /** It answered for itself. */
  predicate FirstHand(r: Rec) {
    r.interviewed != 0 && r.inheritedFrom == ""
  }

  /** Whether an interview of this record may take a sibling's answers. */
  predicate MayInherit(r: Rec) {
    !FirstHand(r)
  }

  /** A record that inherits ends up built exactly as its peer, except that a peer with
      a node type but no capability lends one of zero, and what the peer does not have
      is left as it was. */
  lemma InheritanceCopies(r: Rec, desc: Description, peer: Rec)
    requires Candidate(peer, desc.manufacturer, desc.model, r.ieee) && desc.model != ""
    ensures var r' := Recorded(r, Inherit(desc, peer));
      && r'.endpoints == peer.endpoints && r'.interviewed == desc.at && r'.inheritedFrom == peer.ieee
      && r'.manufacturer == (if desc.manufacturer != "" then peer.manufacturer else r.manufacturer)
      && r'.model == peer.model && r'.ieee == r.ieee && r'.name == r.name
      && r'.powerSource == (if peer.powerSource != "" then peer.powerSource else r.powerSource)
      && (peer.capability.Some? ==> r'.nodeType == peer.nodeType && r'.capability == peer.capability)
      && (peer.capability.None? && peer.nodeType != "" ==> r'.capability == Some(0))
      && (peer.capability.None? && peer.nodeType == "" ==> r'.nodeType == r.nodeType && r'.capability == r.capability)
  {
  }

  /** The capability recorded is the peer's, or the record's own, unless the peer's is unknown
      though its type is not: then it is zero, whoever may have had that. */
  lemma {:induction false} CapabilityInvented(r: Rec, desc: Description, peer: Rec)
    requires Candidate(peer, desc.manufacturer, desc.model, r.ieee) && desc.model != ""
    ensures var c := Recorded(r, Inherit(desc, peer)).capability;
      && (c == peer.capability || c == r.capability <==>
            !(peer.capability.None? && peer.nodeType != "") || r.capability == Some(0))
      && (peer.capability.None? && peer.nodeType != "" ==> c == Some(0))
  {
  }

  /** For one, a peer that said what it is on joining and never answered about itself lends a
      newcomer a capability that neither had. */
  lemma {:induction false} CapabilityFromNowhere() returns (r: Rec, desc: Description, peer: Rec)
    ensures Candidate(peer, desc.manufacturer, desc.model, r.ieee) && desc.model != ""
    ensures peer.capability.None? && r.capability.None?
    ensures Recorded(r, Inherit(desc, peer)).capability == Some(0)
  {
    r := Blank("00:00:00:00:00:00:00:01", 1, 1);
    peer := Blank("00:00:00:00:00:00:00:02", 2, 1).(
      nodeType := "router", manufacturer := "Acme", model := "lamp",
      endpoints := [Endpoint(1, 260, 256, [0, 6], [])], interviewed := 1);
    desc := Description("Acme", "lamp", None, None, [], 2, "", "");
    assert peer.ieee[0] == '0' && UNKNOWN_PREFIX[0] == 'u';
    assert peer.ieee[22] != r.ieee[22];
  }

  // ----- Histories.

  /** An interview under way.  All it knows of its device is a network address. */
  datatype Flight = Flight(node: NodeID, desc: Description)

  /** The registry, and the interviews under way by the order they came in. */
  datatype Book = Book(reg: Reg, flight: map<nat, Flight>)

  /** An interview looks its record up twice, and the two lookups need not agree. */
  datatype Op =
    | SeeDevice(ieee: string, nodeID: NodeID, now: Time)
    | SeeNode(nodeID: NodeID, now: Time, found: Option<string>)
    | GiveName(ieee: string, name: string, holder: Option<string>)
    | DropName(ieee: string)
    | Learn(k: string, r: Rec)               // joins, reports and reads fill in other fields
    | Forget(k: string)
    | Start(id: nat, node: NodeID, desc: Description, full: bool, found: Option<string>, peer: Option<string>)
    | Finish(id: nat, own: Description, found: Option<string>)

  function Refused(op: Op, reg: Reg): Option<NameError>
    requires op.GiveName?
  {
    NameRefused(reg, op.ieee, op.name, op.holder)
  }

  /** The lookup of an interview that asked, and need not be full, has something to inherit. */
  predicate Inherits(reg: Reg, op: Op)
    requires op.Start?
  {
    !op.full && op.found.Some? && op.found.value in reg && MayInherit(reg[op.found.value])
  }

  /** Whose answers an interview takes, if it need not ask. */
  function Lender(reg: Reg, op: Op): (p: Option<string>)
    requires op.Start?
  {
    if Inherits(reg, op) then op.peer else None
  }

  /** What an interview has to record: a sibling's answers, or the device's own. */
  function Answer(desc: Description, own: Description): Description {
    if desc.inheritedFrom != "" then desc else own
  }

  /** Which records are another's source, or about to be. */
  predicate IsSource(b: Book, k: string) {
    || (exists j | j in b.reg :: b.reg[j].inheritedFrom == k)
    || (exists id | id in b.flight :: b.flight[id].desc.inheritedFrom == k)
  }

  /** The record that a step takes away, or gives a sibling's answers. */
  function Unseated(b: Book, op: Op): Option<string> {
    match op
    case Forget(k) => Some(k)
    case Finish(id, _, found) => if id in b.flight && b.flight[id].desc.inheritedFrom != "" then found else None
    case _ => None
  }

  /** The guard that one-deep provenance needs, and the code does not check: no record that
      was copied, or is about to be, is taken away or given a sibling's answers. */
  predicate Careful(b: Book, op: Op) {
    Unseated(b, op).Some? ==> !IsSource(b, Unseated(b, op).value)
  }

  ghost predicate Possible(b: Book, op: Op) {
    match op
    case SeeDevice(ieee, _, _) => Canonical(ieee)
    case SeeNode(nodeID, _, found) => FoundBy(b.reg, nodeID, found)
    case GiveName(_, name, holder) => HeldBy(b.reg, NormalizeName(name), holder)
    case DropName(_) => true
    case Learn(k, r) =>
      && k in b.reg && r.ieee == b.reg[k].ieee && r.name == b.reg[k].name && r.nodeID == b.reg[k].nodeID
      && r.endpoints == b.reg[k].endpoints && r.interviewed == b.reg[k].interviewed
      && r.inheritedFrom == b.reg[k].inheritedFrom
    case Forget(_) => true
    case Start(id, node, desc, full, found, peer) =>
      && id !in b.flight && desc.at != 0 && desc.inheritedFrom == "" && desc.endpoints == []
      && (!full ==> FoundBy(b.reg, node, found))
      && (Inherits(b.reg, op) ==> IsPeer(b.reg, desc.manufacturer, desc.model, b.reg[found.value].ieee, peer))
    case Finish(id, own, found) =>
      id in b.flight && own.at != 0 && own.inheritedFrom == "" && FoundBy(b.reg, b.flight[id].node, found)
  }

  ghost function After(b: Book, op: Op): Book
    requires Possible(b, op)
  {
    match op
    case SeeDevice(ieee, nodeID, now) => b.(reg := Observed(b.reg, ieee, nodeID, now))
    case SeeNode(nodeID, now, found) => b.(reg := NodeObserved(b.reg, nodeID, now, found))
    case GiveName(ieee, name, holder) =>
      if Refused(op, b.reg).None? then b.(reg := Named(b.reg, Upper(ieee), NormalizeName(name))) else b
    case DropName(ieee) => if Upper(ieee) in b.reg then b.(reg := Named(b.reg, Upper(ieee), "")) else b
    case Learn(k, r) => b.(reg := b.reg[k := r])
    case Forget(k) => b.(reg := b.reg - {k})
    case Start(id, node, desc, full, found, peer) =>
      var p := Lender(b.reg, op);
      b.(flight := b.flight[id := Flight(node, if p.Some? then Inherit(desc, b.reg[p.value]) else desc)])
    case Finish(id, own, found) =>
      var d := Answer(b.flight[id].desc, own);
      Book(if found.Some? then b.reg[found.value := Recorded(b.reg[found.value], d)] else b.reg, b.flight - {id})
  }

  // ----- What they keep.

  /** A record others may copy: it has an address and answered for itself. */
  predicate Lendable(reg: Reg, p: string) {
    p in reg && Identified(p) && FirstHand(reg[p])
  }

  predicate Lends(reg: Reg, p: string, k: string) {
    p != k && Lendable(reg, p)
  }

  /** The property itself: provenance is one deep and always points somewhere. */
  ghost predicate OneDeep(reg: Reg) {
    forall k | k in reg && reg[k].inheritedFrom != "" :: Lends(reg, reg[k].inheritedFrom, k)
  }

  /** What an interview has copied is still there to be pointed to. */
  ghost predicate Pending(b: Book, id: nat) {
    && id in b.flight && b.flight[id].desc.at != 0
    && (b.flight[id].desc.inheritedFrom != "" ==>
          Lendable(b.reg, b.flight[id].desc.inheritedFrom) && b.flight[id].desc.endpoints != [])
  }

  ghost predicate FlightSound(b: Book) {
    forall id | id in b.flight :: Pending(b, id)
  }

  ghost predicate Inv(b: Book) {
    Sound(b.reg) && OneDeep(b.reg) && FlightSound(b)
  }

  lemma PutSame(reg: Reg, k: string, r: Rec)
    requires Sound(reg) && k in reg && r.ieee == reg[k].ieee && r.name == reg[k].name && r.nodeID == reg[k].nodeID
    ensures Sound(reg[k := r])
  {
  }

  /** What a record may become without upsetting anyone's provenance. */
  ghost predicate Harmless(b: Book, k: string, r: Rec) {
    && (IsSource(b, k) ==> FirstHand(r))
    && (r.inheritedFrom != "" ==> Lends(b.reg, r.inheritedFrom, k))
  }

  lemma {:induction false} HarmlessNeeded(b: Book, k: string, r: Rec)
    requires OneDeep(b.reg) && FlightSound(b) && k != ""
    requires OneDeep(b.reg[k := r]) && FlightSound(b.(reg := b.reg[k := r]))
    ensures Harmless(b, k, r)
  {
    var b' := b.(reg := b.reg[k := r]);
    assert k in b'.reg && (r.inheritedFrom != "" ==> Lends(b'.reg, r.inheritedFrom, k));
    if j :| j in b.reg && b.reg[j].inheritedFrom == k {
      assert Lends(b.reg, k, j) && Lends(b'.reg, b'.reg[j].inheritedFrom, j);
    } else if id :| id in b.flight && b.flight[id].desc.inheritedFrom == k {
      assert Pending(b', id);
    }
  }

  lemma {:induction false} HarmlessEnough(b: Book, k: string, r: Rec)
    requires OneDeep(b.reg) && FlightSound(b) && k != "" && Harmless(b, k, r)
    ensures OneDeep(b.reg[k := r]) && FlightSound(b.(reg := b.reg[k := r]))
  {
    var b' := b.(reg := b.reg[k := r]);
    forall j | j in b'.reg && b'.reg[j].inheritedFrom != "" ensures Lends(b'.reg, b'.reg[j].inheritedFrom, j) {
      if j != k {
        assert Lends(b.reg, b.reg[j].inheritedFrom, j);
      }
    }
    forall id | id in b'.flight ensures Pending(b', id) {
      assert Pending(b, id);
    }
  }

  lemma {:induction false} HarmlessKeeps(b: Book, k: string, r: Rec)
    requires OneDeep(b.reg) && FlightSound(b) && k != ""
    ensures OneDeep(b.reg[k := r]) && FlightSound(b.(reg := b.reg[k := r])) <==> Harmless(b, k, r)
  {
    hide OneDeep, FlightSound, Harmless;
    if Harmless(b, k, r) {
      HarmlessEnough(b, k, r);
    } else if OneDeep(b.reg[k := r]) && FlightSound(b.(reg := b.reg[k := r])) {
      HarmlessNeeded(b, k, r);
    }
  }

  /** Sources have addresses and answered for themselves; interviews copy only such. */
  lemma {:induction false} SourcesLend(b: Book, k: string)
    requires OneDeep(b.reg) && FlightSound(b) && IsSource(b, k) && k != ""
    ensures Lendable(b.reg, k)
  {
    if j :| j in b.reg && b.reg[j].inheritedFrom == k {
      assert Lends(b.reg, k, j);
    } else {
      var id :| id in b.flight && b.flight[id].desc.inheritedFrom == k;
      assert Pending(b, id);
    }
  }

  /** Sightings, names and reports leave a record's provenance and standing alone. */
  lemma {:induction false} QuietKeeps(b: Book, k: string, r: Rec)
    requires OneDeep(b.reg) && FlightSound(b) && k != ""
    requires k in b.reg && r.inheritedFrom == b.reg[k].inheritedFrom && r.interviewed == b.reg[k].interviewed
    ensures OneDeep(b.reg[k := r]) && FlightSound(b.(reg := b.reg[k := r]))
  {
    if IsSource(b, k) {
      SourcesLend(b, k);
    }
    assert r.inheritedFrom != "" ==> Lends(b.reg, r.inheritedFrom, k);
    HarmlessKeeps(b, k, r);
  }

  /** Nor does a record that starts afresh under a key not in use upset any. */
  lemma {:induction false} BlankKeeps(b: Book, k: string, r: Rec)
    requires OneDeep(b.reg) && FlightSound(b) && k != "" && r.inheritedFrom == "" && r.interviewed == 0
    requires k !in b.reg
    ensures OneDeep(b.reg[k := r]) && FlightSound(b.(reg := b.reg[k := r]))
  {
    if IsSource(b, k) {
      SourcesLend(b, k);
    }
    HarmlessKeeps(b, k, r);
  }

  /** Taking out a record nobody copies. */
  lemma {:induction false} ForgetKeeps(b: Book, k: string)
    requires OneDeep(b.reg) && FlightSound(b) && !IsSource(b, k)
    ensures OneDeep(b.reg - {k}) && FlightSound(b.(reg := b.reg - {k}))
  {
    var b' := b.(reg := b.reg - {k});
    forall j | j in b'.reg && b'.reg[j].inheritedFrom != "" ensures Lends(b'.reg, b'.reg[j].inheritedFrom, j) {
      assert Lends(b.reg, b.reg[j].inheritedFrom, j);
    }
    forall id | id in b'.flight ensures Pending(b', id) {
      assert Pending(b, id);
    }
  }

  /** A placeholder's record moves to the address now known. */
  lemma {:induction false} PromotionKeeps(b: Book, p: string, ieee: string, r: Rec)
    requires OneDeep(b.reg) && FlightSound(b) && p in b.reg && !Identified(p) && p != ""
    requires ieee !in b.reg && ieee != ""
    requires r.inheritedFrom == b.reg[p].inheritedFrom && r.interviewed == b.reg[p].interviewed
    ensures OneDeep((b.reg - {p})[ieee := r]) && FlightSound(b.(reg := (b.reg - {p})[ieee := r]))
  {
    var b1 := b.(reg := b.reg - {p});
    if IsSource(b, p) {
      SourcesLend(b, p);
    }
    ForgetKeeps(b, p);
    if IsSource(b1, ieee) {
      SourcesLend(b1, ieee);
    }
    if r.inheritedFrom != "" {
      assert Lends(b.reg, r.inheritedFrom, p);
    }
    HarmlessKeeps(b1, ieee, r);
  }

  lemma {:induction false} SeeDeviceKeeps(b: Book, ieee: string, nodeID: NodeID, now: Time)
    requires Inv(b) && Canonical(ieee)
    ensures Inv(After(b, SeeDevice(ieee, nodeID, now)))
  {
    ObservedKeeps(b.reg, ieee, nodeID, now);
    var p := Placeholder(nodeID);
    var r := Observed(b.reg, ieee, nodeID, now)[ieee];
    if ieee in b.reg {
      QuietKeeps(b, ieee, r);
    } else if p in b.reg {
      PromotionKeeps(b, p, ieee, r);
    } else {
      BlankKeeps(b, ieee, r);
    }
  }

  lemma {:induction false} SeeNodeKeeps(b: Book, nodeID: NodeID, now: Time, found: Option<string>)
    requires Inv(b) && FoundBy(b.reg, nodeID, found)
    ensures Inv(After(b, SeeNode(nodeID, now, found)))
  {
    NodeObservedKeeps(b.reg, nodeID, now, found);
    if found.Some? {
      KeysNotEmpty(b.reg, found.value);
      QuietKeeps(b, found.value, b.reg[found.value].(lastSeen := now));
    } else {
      NewPlaceholder(b.reg, nodeID);
      BlankKeeps(b, Placeholder(nodeID), Blank(Placeholder(nodeID), nodeID, now));
    }
  }

  lemma {:induction false} NameKeeps(b: Book, op: Op)
    requires Inv(b) && Possible(b, op) && (op.GiveName? || op.DropName?)
    ensures Inv(After(b, op))
  {
    var k := Upper(op.ieee);
    if k in b.reg {
      KeysNotEmpty(b.reg, k);
      if op.GiveName? && Refused(op, b.reg).None? {
        NamedKeeps(b.reg, op.ieee, op.name, op.holder);
        QuietKeeps(b, k, b.reg[k].(name := NormalizeName(op.name)));
      } else if op.DropName? {
        PutKeeps(b.reg, k, b.reg[k].(name := ""));
        QuietKeeps(b, k, b.reg[k].(name := ""));
      }
    }
  }

  lemma {:induction false} StartKeeps(b: Book, op: Op)
    requires Inv(b) && Possible(b, op) && op.Start?
    ensures Inv(After(b, op))
  {
    var p, b' := Lender(b.reg, op), After(b, op);
    if p.Some? {
      KeysNotEmpty(b.reg, p.value);
    }
    forall id | id in b'.flight ensures Pending(b', id) {
      assert id != op.id ==> Pending(b, id);
    }
  }

  lemma {:induction false} LandedKeeps(b: Book, id: nat)
    requires FlightSound(b)
    ensures FlightSound(b.(flight := b.flight - {id}))
  {
    forall i | i in b.flight - {id} ensures Pending(b.(flight := b.flight - {id}), i) {
      assert Pending(b, i);
    }
  }

  lemma {:induction false} RecordedIsHarmless(b: Book, op: Op, k: string, d: Description)
    requires OneDeep(b.reg) && FlightSound(b) && Possible(b, op) && op.Finish? && Careful(b, op)
    requires op.found == Some(k) && k != "" && d == Answer(b.flight[op.id].desc, op.own)
    ensures Harmless(b.(flight := b.flight - {op.id}), k, Recorded(b.reg[k], d))
  {
    assert Pending(b, op.id);
    if IsSource(b.(flight := b.flight - {op.id}), k) {
      assert IsSource(b, k);
      SourcesLend(b, k);
    }
    assert b.reg[k].inheritedFrom != "" ==> Lends(b.reg, b.reg[k].inheritedFrom, k);
    assert d.inheritedFrom != "" ==> IsSource(b, d.inheritedFrom);
  }

  /** Recording an interview, wherever it is recorded, so long as that is no source. */
  lemma {:induction false} FinishKeeps(b: Book, op: Op)
    requires Inv(b) && Possible(b, op) && op.Finish? && Careful(b, op)
    ensures Inv(After(b, op))
  {
    var b1 := b.(flight := b.flight - {op.id});
    LandedKeeps(b, op.id);
    assert Pending(b, op.id);
    if op.found.Some? {
      var k, d := op.found.value, Answer(b.flight[op.id].desc, op.own);
      KeysNotEmpty(b.reg, k);
      PutSame(b.reg, k, Recorded(b.reg[k], d));
      RecordedIsHarmless(b, op, k, d);
      HarmlessKeeps(b1, k, Recorded(b.reg[k], d));
    }
  }

  lemma {:induction false} StepKeeps(b: Book, op: Op)
    requires Inv(b) && Possible(b, op) && Careful(b, op)
    ensures Inv(After(b, op))
  {
    match op {
      case SeeDevice(ieee, nodeID, now) => SeeDeviceKeeps(b, ieee, nodeID, now);
      case SeeNode(nodeID, now, found) => SeeNodeKeeps(b, nodeID, now, found);
      case GiveName(_, _, _) => NameKeeps(b, op);
      case DropName(_) => NameKeeps(b, op);
      case Learn(k, r) =>
        KeysNotEmpty(b.reg, k);
        PutSame(b.reg, k, r);
        QuietKeeps(b, k, r);
      case Forget(k) =>
        DropKeeps(b.reg, k);
        ForgetKeeps(b, k);
      case Start(_, _, _, _, _, _) => StartKeeps(b, op);
      case Finish(_, _, _) => FinishKeeps(b, op);
    }
  }

  // ----- Whole histories.

  const EMPTY := Book(map[], map[])

  /** A history of the registry, of careful steps only or of any. */
  ghost predicate History(start: Book, ops: seq<Op>, b: Book, careful: bool)
    decreases |ops|
  {
    if ops == [] then b == start else exists a :: Reaches(start, ops, a, b, careful)
  }

  ghost predicate Reaches(start: Book, ops: seq<Op>, a: Book, b: Book, careful: bool)
    requires ops != []
    decreases |ops|, 0
  {
    var last := ops[|ops| - 1];
    && History(start, ops[..|ops| - 1], a, careful)
    && Possible(a, last) && (careful ==> Careful(a, last))
    && b == After(a, last)
  }

  lemma {:induction false} HistoryOn(start: Book, ops: seq<Op>, a: Book, op: Op, careful: bool)
    requires History(start, ops, a, careful) && Possible(a, op) && (careful ==> Careful(a, op))
    ensures History(start, ops + [op], After(a, op), careful)
  {
    assert (ops + [op])[..|ops|] == ops;
    assert Reaches(start, ops + [op], a, After(a, op), careful);
  }

  lemma {:induction false} NamesKept(b: Book, op: Op)
    requires Sound(b.reg) && Possible(b, op)
    ensures Sound(After(b, op).reg)
  {
    match op {
      case SeeDevice(ieee, nodeID, now) => ObservedKeeps(b.reg, ieee, nodeID, now);
      case SeeNode(nodeID, now, found) => NodeObservedKeeps(b.reg, nodeID, now, found);
      case GiveName(ieee, name, holder) =>
        if Refused(op, b.reg).None? { NamedKeeps(b.reg, ieee, name, holder); }
      case DropName(ieee) =>
        if Upper(ieee) in b.reg { PutKeeps(b.reg, Upper(ieee), b.reg[Upper(ieee)].(name := "")); }
      case Learn(k, r) => PutSame(b.reg, k, r);
      case Forget(k) => DropKeeps(b.reg, k);
      case Start(_, _, _, _, _, _) =>
      case Finish(_, _, found) => if found.Some? { PutSame(b.reg, found.value, After(b, op).reg[found.value]); }
    }
  }

  /** Over every history, removals included: keys are addresses, and names are valid,
      distinct and unlike any address. */
  lemma {:induction false} NamesStayAddresses(ops: seq<Op>, b: Book)
    requires History(EMPTY, ops, b, false)
    ensures Sound(b.reg)
    decreases |ops|
  {
    if ops != [] {
      var a :| Reaches(EMPTY, ops, a, b, false);
      NamesStayAddresses(ops[..|ops| - 1], a);
      NamesKept(a, ops[|ops| - 1]);
    }
  }

  lemma {:induction false} CarefulKeeps(start: Book, ops: seq<Op>, b: Book)
    requires Inv(start) && History(start, ops, b, true)
    ensures Inv(b)
    decreases |ops|
  {
    if ops != [] {
      var a :| Reaches(start, ops, a, b, true);
      CarefulKeeps(start, ops[..|ops| - 1], a);
      StepKeeps(a, ops[|ops| - 1]);
    }
  }

  /** Over every careful history, provenance stays one deep too. */
  lemma {:induction false} HistoryKeeps(ops: seq<Op>, b: Book)
    requires History(EMPTY, ops, b, true)
    ensures Inv(b)
  {
    CarefulKeeps(EMPTY, ops, b);
  }

  // ----- First-hand records.

  /** Where a record's contents are after a step. */
  function Whither(reg: Reg, op: Op, k: string): string {
    if op.SeeDevice? && op.ieee !in reg && k == Placeholder(op.nodeID) then op.ieee else k
  }

  /** Only its removal and an interview recorded on it change a record's standing. */
  lemma {:induction false} StandingLasts(b: Book, op: Op, k: string)
    requires Inv(b) && Possible(b, op) && k in b.reg
    requires op != Forget(k) && !(op.Finish? && op.found == Some(k))
    ensures var k' := Whither(b.reg, op, k);
      k' in After(b, op).reg && FirstHand(After(b, op).reg[k']) == FirstHand(b.reg[k])
  {
    hide Canonical, IsPeer, HeldBy, NameRefused, NormalizeName, Upper;
    hide Recorded, Inherit, Answer, Placeholder, OneDeep, FlightSound;
    if op.SeeNode? && op.found.None? {
      NewPlaceholder(b.reg, op.nodeID);
    }
  }

  /** A record that answered for itself is lost, or turned into an inherited one, exactly by
      its own removal and by an interview recorded on it that copied a sibling. */
  lemma {:induction false} FirstHandLasts(b: Book, op: Op, k: string)
    requires Inv(b) && Possible(b, op) && k in b.reg && FirstHand(b.reg[k])
    ensures var k' := Whither(b.reg, op, k);
      k' in After(b, op).reg && FirstHand(After(b, op).reg[k']) <==> Unseated(b, op) != Some(k)
  {
    if op.Finish? && op.found == Some(k) {
      assert Pending(b, op.id);
    } else if op != Forget(k) {
      StandingLasts(b, op, k);
    }
  }

  /** An interview recorded on a record that may still inherit is always careful. */
  lemma {:induction false} MayStillInherit(b: Book, op: Op, k: string)
    requires Inv(b) && Possible(b, op) && op.Finish? && op.found == Some(k) && MayInherit(b.reg[k])
    ensures Careful(b, op)
  {
    KeysNotEmpty(b.reg, k);
    if IsSource(b, k) {
      SourcesLend(b, k);
    }
  }

  /** A careful history that neither forgets the record k nor records an interview on it, and
      at whose end its contents are at k'. */
  ghost predicate Undisturbed(start: Book, ops: seq<Op>, b: Book, k: string, k': string)
    decreases |ops|
  {
    if ops == [] then b == start && k' == k
    else exists a, j :: PassesBy(start, ops, a, b, k, j, k')
  }

  ghost predicate PassesBy(start: Book, ops: seq<Op>, a: Book, b: Book, k: string, j: string, k': string)
    requires ops != []
    decreases |ops|, 0
  {
    var last := ops[|ops| - 1];
    && Undisturbed(start, ops[..|ops| - 1], a, k, j)
    && Possible(a, last) && Careful(a, last) && last != Forget(j) && !(last.Finish? && last.found == Some(j))
    && b == After(a, last) && k' == Whither(a.reg, last, j)
  }

  lemma {:induction false} UndisturbedStands(start: Book, ops: seq<Op>, b: Book, k: string, k': string)
    requires Inv(start) && k in start.reg && Undisturbed(start, ops, b, k, k')
    ensures Inv(b) && k' in b.reg && FirstHand(b.reg[k']) == FirstHand(start.reg[k])
    decreases |ops|
  {
    if ops != [] {
      var a, j :| PassesBy(start, ops, a, b, k, j, k');
      UndisturbedStands(start, ops[..|ops| - 1], a, k, j);
      StandingLasts(a, ops[|ops| - 1], j);
      StepKeeps(a, ops[|ops| - 1]);
    }
  }

  /** So an interview is careful that is recorded on the record it began on, if no other was
      recorded on it in between. */
  lemma {:induction false} RecordedWhereItBegan(start: Book, ops: seq<Op>, b: Book, k: string, k': string, op: Op)
    requires Inv(start) && k in start.reg && MayInherit(start.reg[k]) && Undisturbed(start, ops, b, k, k')
    requires Possible(b, op) && op.Finish? && op.found == Some(k')
    ensures Careful(b, op) && Inv(After(b, op))
  {
    UndisturbedStands(start, ops, b, k, k');
    MayStillInherit(b, op, k');
    StepKeeps(b, op);
  }
}
