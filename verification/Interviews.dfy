/** The interview code of zigbee/interview.go over the registry as it is kept: which
    records it reads, in what order, and what it writes in place. */
module Interviews {
  import opened Text
  import opened Registry
  import opened RegistryStore
  import opened Provenance
  import opened Wrappers

  const CLUSTER_BASIC := 0

  /** What a device said to each question; None where it did not answer. */
  datatype Answers = Answers(
    basic: Option<(string, string)>, node: Option<NodeDescriptor>, power: Option<string>,
    endpoints: seq<Endpoint>, basicAgain: Option<(string, string)>)

  /** Before anything but the first question. */
  function Opening(answers: Answers, at: Time): Description {
    var (manufacturer, model) := if answers.basic.Some? then answers.basic.value else ("", "");
    Description(manufacturer, model, None, None, [], at, "", "")
  }

  predicate HasBasic(endpoints: seq<Endpoint>) {
    exists i | 0 <= i < |endpoints| :: CLUSTER_BASIC in endpoints[i].input
  }

  /** The device's own account of itself. */
  function OwnAccount(answers: Answers, at: Time): Description {
    var again := answers.basic.None? && answers.basicAgain.Some? && HasBasic(answers.endpoints);
    var (manufacturer, model) :=
      if answers.basic.Some? then answers.basic.value else if again then answers.basicAgain.value else ("", "");
    Description(manufacturer, model, answers.node, answers.power, answers.endpoints, at, "", "")
  }

  /** What the description says of the device's identity afterwards. */
  function Identity(r: Rec): (string, string) {
    if Identified(r.ieee) then (r.ieee, Describe(r))
    else ("", if Describe(r) != r.ieee then Describe(r) else "")
  }

  /** Some question was answered with something. */
  predicate Heard(answers: Answers) {
    || (answers.basic.Some? && answers.basic.value != ("", ""))
    || answers.node.Some? || answers.power.Some? || answers.endpoints != []
  }

  /** The manufacturer and the model of after are those of basic, or those of before where basic
      leaves them empty. */
  predicate BasicTaken(before: Rec, after: Rec, basic: (string, string)) {
    && (if basic.0 == "" then after.manufacturer == before.manufacturer else after.manufacturer == basic.0)
    && (if basic.1 == "" then after.model == before.model else after.model == basic.1)
  }

  /** What a record holds once a device has given its own account.  The basic question counts as
      asked again only if the first try went unanswered and an endpoint turned out to hold the
      cluster; an empty or missing answer leaves what was known.  Only endpoints make it an
      interview at first hand, and an interview without any answer leaves no trace. */
  lemma {:induction false} FullInterviewRecords(r: Rec, answers: Answers, at: Time, i: nat)
    requires i < |answers.endpoints|
    ensures var after := Recorded(r, OwnAccount(answers, at));
      && after.ieee == r.ieee && after.nodeID == r.nodeID && after.name == r.name && after.firstSeen == r.firstSeen
      && after.endpoints == answers.endpoints && after.interviewed == after.lastSeen == at && after.inheritedFrom == ""
      && (answers.node.Some? ==>
            after.nodeType == answers.node.value.logicalType && after.capability == Some(answers.node.value.capability))
      && (answers.node.None? ==> after.nodeType == r.nodeType && after.capability == r.capability)
      && after.powerSource == (if answers.power.Some? then answers.power.value else r.powerSource)
      && (answers.basic.Some? ==> BasicTaken(r, after, answers.basic.value))
      && (answers.basic.None? && answers.basicAgain.Some? && CLUSTER_BASIC in answers.endpoints[i].input ==>
            BasicTaken(r, after, answers.basicAgain.value))
      && (answers.basic.None? && (answers.basicAgain.None? || !HasBasic(answers.endpoints)) ==>
            BasicTaken(r, after, ("", "")))
  {
    assert CLUSTER_BASIC in answers.endpoints[i].input ==> HasBasic(answers.endpoints);
  }

  /** The same for a device that described no endpoint. */
  lemma {:induction false} PartialInterviewRecords(r: Rec, answers: Answers, at: Time)
    requires answers.endpoints == []
    ensures var after := Recorded(r, OwnAccount(answers, at));
      && (!Heard(answers) ==> after == r)
      && (Heard(answers) ==> after.lastSeen == at)
      && after.ieee == r.ieee && after.nodeID == r.nodeID && after.name == r.name && after.firstSeen == r.firstSeen
      && after.endpoints == r.endpoints && after.interviewed == r.interviewed && after.inheritedFrom == r.inheritedFrom
      && (answers.node.Some? ==>
            after.nodeType == answers.node.value.logicalType && after.capability == Some(answers.node.value.capability))
      && (answers.node.None? ==> after.nodeType == r.nodeType && after.capability == r.capability)
      && after.powerSource == (if answers.power.Some? then answers.power.value else r.powerSource)
      && BasicTaken(r, after, if answers.basic.Some? then answers.basic.value else ("", ""))
  {
    assert answers.basic.Some? ==> answers.basic.value == (answers.basic.value.0, answers.basic.value.1);
    assert !HasBasic(answers.endpoints);
  }

  /** The same for one that copies a sibling: the record is of the make and model just answered,
      which are the sibling's too. */
  lemma {:induction false} InheritedInterviewRecords(r: Rec, answers: Answers, at: Time, peer: Rec)
    requires answers.basic.Some? && answers.basic.value.1 != ""
    requires var d := Opening(answers, at); Candidate(peer, d.manufacturer, d.model, r.ieee)
    ensures var after := Recorded(r, Inherit(Opening(answers, at), peer));
      && peer.manufacturer == answers.basic.value.0 && peer.model == answers.basic.value.1
      && BasicTaken(r, after, answers.basic.value)
      && after.endpoints == peer.endpoints && after.interviewed == after.lastSeen == at
      && after.inheritedFrom == peer.ieee
  {
    InheritanceCopies(r, Opening(answers, at), peer);
  }

  /** Without a name of its own a device is called by its manufacturer and model, in that order,
      or by its model, or by its address. */
  lemma {:induction false} Nameless(r: Rec)
    requires r.name == ""
    ensures r.model == "" ==> Describe(r) == r.ieee
    ensures r.model != "" ==> var n := |Describe(r)| - |r.model|;
      && n >= 0 && Describe(r)[n..] == r.model
      && Describe(r)[..n] == if r.manufacturer == "" then "" else r.manufacturer + " "
  {
  }

  method Inform(device: Device, desc: Description)
    modifies device
    ensures device.Rec() == Informed(old(device.Rec()), desc)
  {
    device.lastSeen := desc.at;
    if desc.manufacturer != "" {
      device.manufacturer := desc.manufacturer;
    }
    if desc.model != "" {
      device.model := desc.model;
    }
    if desc.node.Some? {
      device.nodeType := desc.node.value.logicalType;
      device.capability := Some(desc.node.value.capability);
    }
    if desc.power.Some? {
      device.powerSource := desc.power.value;
    }
  }

  /** Merge an interview's findings into a record. */
  method Apply(device: Device, desc: Description)
    modifies device
    ensures device.Rec() == Applied(old(device.Rec()), desc)
  {
    Inform(device, desc);
    if |desc.endpoints| > 0 {
      device.endpoints := desc.endpoints;
      device.interviewed := desc.at;
      device.inheritedFrom := desc.inheritedFrom;
    }
  }

  /** What to call a device. */
  method DescribeDevice(device: Device) returns (s: string)
    ensures s == Describe(device.Rec())
  {
    if device.name != "" {
      s := device.name;
    } else if device.manufacturer != "" && device.model != "" {
      s := device.manufacturer + " " + device.model;
    } else if device.model != "" {
      s := device.model;
    } else {
      s := device.ieee;
    }
  }

  /** The identity a description is given. */
  method IdentifyDevice(device: Device) returns (identity: (string, string))
    ensures identity == Identity(device.Rec())
  {
    var described := DescribeDevice(device);
    if Identified(device.ieee) {
      identity := (device.ieee, described);
    } else if described != device.ieee {
      identity := ("", described);
    } else {
      identity := ("", "");
    }
  }

  /** What an interview reports of a device can be typed back: its address finds it, and so
      does its name, and nothing else is found by them.  A placeholder is never reported. */
  lemma {:induction false} IdentityFindsDevice(reg: Reg, k: string, r: Resolution)
    requires Sound(reg) && k in reg
    ensures var (address, name) := Identity(reg[k]);
      && (address != "" ==> (Resolves(reg, address, r) <==> r == Found(k)))
      && (name != "" && reg[k].name != "" ==> (Resolves(reg, name, r) <==> r == Found(k)))
      && (if Identified(k) then address == k && name != "" else address == "" && name != k)
  {
    KeysNotEmpty(reg, k);
    if Identified(k) {
      AddressFindsItsDevice(reg, k, r);
    }
    if reg[k].name != "" {
      NameFindsItsDevice(reg, k, r);
    }
  }

  /** Beside any other interviews, the start leaves the registry alone and puts desc in flight. */
  ghost predicate IsStart(reg: Reg, op: Op, desc: Description) {
    op.Start? && forall flight: map<nat, Flight> {:trigger Book(reg, flight)} | op.id !in flight ::
      && Possible(Book(reg, flight), op)
      && After(Book(reg, flight), op) == Book(reg, flight[op.id := Flight(op.node, desc)])
  }

  /** Beside any other interviews, the finish of the one that asks node and has found desc makes
      the registry what it is afterwards. */
  ghost predicate IsFinish(before: Reg, op: Op, node: NodeID, desc: Description, after: Reg) {
    op.Finish? && forall flight: map<nat, Flight> {:trigger Book(before, flight)}
      | op.id in flight && flight[op.id] == Flight(node, desc) ::
      Possible(Book(before, flight), op) && After(Book(before, flight), op) == Book(after, flight - {op.id})
  }

  lemma {:induction false} FinishIs(reg: Reg, node: NodeID, op: Op, desc: Description)
    requires op.Finish? && op.own.at != 0 && op.own.inheritedFrom == "" && FoundBy(reg, node, op.found)
    ensures IsFinish(reg, op, node, desc,
                     if op.found.None? then reg
                     else reg[op.found.value := Recorded(reg[op.found.value], Answer(desc, op.own))])
  {
  }

  lemma {:induction false} StartIs(reg: Reg, op: Op)
    requires op.Start? && op.desc.at != 0 && op.desc.inheritedFrom == "" && op.desc.endpoints == []
    requires !op.full ==> FoundBy(reg, op.node, op.found)
    requires Inherits(reg, op) ==>
      IsPeer(reg, op.desc.manufacturer, op.desc.model, reg[op.found.value].ieee, op.peer)
    ensures IsStart(reg, op, if Lender(reg, op).Some? then Inherit(op.desc, reg[op.peer.value]) else op.desc)
  {
  }

  /** An interview saves its questions exactly if it need not be full, the lookup found a record
      that never answered for itself, and another device of the model has. */
  lemma {:induction false} InheritsExactly(reg: Reg, op: Op)
    requires op.Start? && Possible(Book(reg, map[]), op)
    ensures Lender(reg, op).Some? <==>
      && !op.full && op.found.Some? && op.desc.model != ""
      && var r := reg[op.found.value];
      && (r.interviewed == 0 || r.inheritedFrom != "")
      && exists k | k in reg :: Candidate(reg[k], op.desc.manufacturer, op.desc.model, r.ieee)
  {
  }

  lemma {:induction false} StartThenFinish(reg: Reg, start: Op, desc: Description, finish: Op, after: Reg)
    requires IsStart(reg, start, desc) && IsFinish(reg, finish, start.node, desc, after) && finish.id == start.id
    ensures var b := Book(reg, map[]);
      Possible(b, start) && Possible(After(b, start), finish) && After(After(b, start), finish).reg == after
  {
    var flight: map<nat, Flight> := map[];
    assert start.id !in flight;
    var b1 := Book(reg, flight[start.id := Flight(start.node, desc)]);
    assert After(Book(reg, flight), start) == b1;
    assert finish.id in b1.flight && b1.flight[finish.id] == Flight(start.node, desc);
  }

  class Coordinator {
    const db: Store

    constructor (db: Store)
      ensures this.db == db
    {
      this.db := db;
    }

    /** Copy an interviewed identical device's answers, unless this one has given its own.
        Also tells which records were looked up. */
    method InheritFromPeer(node: NodeID, desc: Description)
      returns (inherited: bool, desc': Description, found: Option<string>, peer: Option<string>)
      requires db.Valid()
      ensures FoundBy(db.View(), node, found)
      ensures found.Some? ==>
        var r := db.View()[found.value];
        && (MayInherit(r) ==> IsPeer(db.View(), desc.manufacturer, desc.model, r.ieee, peer))
        && (inherited <==> MayInherit(r) && peer.Some?)
      ensures found.None? ==> !inherited
      ensures desc' == if inherited then Inherit(desc, db.View()[peer.value]) else desc
    {
      inherited, desc', peer := false, desc, None;
      found := db.ByNodeID(node);
      if found.None? {
        return;
      }
      var device := db.devices[found.value];
      if device.interviewed != 0 && device.inheritedFrom == "" {
        return;
      }
      peer := db.PeerOfModel(desc.manufacturer, desc.model, device.ieee);
      if peer.None? {
        return;
      }
      var p := db.devices[peer.value];
      var described := DescribeDevice(p);
      inherited := true;
      desc' := desc.(inheritedFrom := p.ieee, inheritedFromName := described,
                     node := if p.nodeType == "" && p.capability.None? then None
                             else Some(NodeDescriptor(p.nodeType,
                                                      if p.capability.Some? then p.capability.value else 0)),
                     power := if p.powerSource == "" then None else Some(p.powerSource),
                     endpoints := p.endpoints);
    }

    method Merge(k: string, desc: Description)
      requires db.Valid() && k in db.devices
      modifies db.devices[k]
      ensures db.View() == old(db.View())[k := Recorded(old(db.View())[k], desc)]
    {
      if LearnedSomething(desc) {
        Apply(db.devices[k], desc);
        db.OneChanged(k);
      }
    }

    /** Write what an interview learned to the registry, if the registry knows the device. */
    method RecordInterview(node: NodeID, desc: Description)
      returns (identity: (string, string), ghost found: Option<string>)
      requires db.Valid()
      modifies db.devices.Values
      ensures db.Valid() && db.devices == old(db.devices)
      ensures FoundBy(old(db.View()), node, found)
      ensures found.None? ==> db.View() == old(db.View()) && identity == ("", "")
      ensures found.Some? ==>
        var r := Recorded(old(db.View())[found.value], desc);
        db.View() == old(db.View())[found.value := r] && identity == Identity(r)
    {
      var hit := db.ByNodeID(node);
      found := hit;
      if hit.None? {
        return ("", ""), found;
      }
      Merge(hit.value, desc);
      identity := IdentifyDevice(db.devices[hit.value]);
    }

    /** The first half of an interview.  Whatever other interviews are under way, deciding to
        inherit or to ask on is the start of one in a history. */
    method BeginInterview(ghost id: nat, node: NodeID, answers: Answers, at: Time, full: bool)
      returns (inherited: bool, desc: Description, ghost found: Option<string>, ghost peer: Option<string>)
      requires db.Valid() && at != 0
      ensures !inherited ==> desc == Opening(answers, at)
      ensures inherited ==> answers.basic.Some? && !full && found.Some?
      ensures IsStart(db.View(), Start(id, node, Opening(answers, at), full || answers.basic.None?, found, peer), desc)
      ensures Keyed(db.View()) ==> (inherited <==> desc.inheritedFrom != "")
    {
      inherited, desc, found, peer := false, Opening(answers, at), None, None;
      if answers.basic.Some? && !full {
        inherited, desc, found, peer := InheritFromPeer(node, desc);
        if inherited && Keyed(db.View()) {
          KeysNotEmpty(db.View(), peer.value);
        }
      }
      StartIs(db.View(), Start(id, node, Opening(answers, at), full || answers.basic.None?, found, peer));
    }

    /** The second half, after any number of other operations.  It is the finish of the same
        interview in a history, on whichever record the address finds now. */
    method EndInterview(ghost id: nat, node: NodeID, answers: Answers, at: Time, inherited: bool, desc: Description)
      returns (identity: (string, string), ghost found: Option<string>)
      requires db.Valid() && at != 0
      requires inherited <==> desc.inheritedFrom != ""
      modifies db.devices.Values
      ensures db.Valid() && db.devices == old(db.devices)
      ensures IsFinish(old(db.View()), Finish(id, OwnAccount(answers, at), found), node, desc, db.View())
      ensures FoundBy(old(db.View()), node, found)
      ensures identity == if found.Some? then Identity(db.View()[found.value]) else ("", "")
    {
      ghost var reg := db.View();
      identity, found := RecordInterview(node, if inherited then desc else OwnAccount(answers, at));
      FinishIs(reg, node, Finish(id, OwnAccount(answers, at), found), desc);
    }

    /** With nothing else going on the two halves make one start and one finish, of which each
        may find another record. */
    method Interview(node: NodeID, answers: Answers, at: Time, full: bool)
      returns (identity: (string, string), ghost start: Op, ghost finish: Op)
      requires db.Valid() && at != 0 && Keyed(db.View())
      modifies db.devices.Values
      ensures db.Valid() && db.devices == old(db.devices)
      ensures var b := Book(old(db.View()), map[]);
        && start.Start? && finish.Finish? && start.node == node && start.id == finish.id
        && Possible(b, start) && Possible(After(b, start), finish)
        && db.View() == After(After(b, start), finish).reg
    {
      ghost var reg := db.View();
      var inherited, desc;
      ghost var before, after, peer;
      inherited, desc, before, peer := BeginInterview(0, node, answers, at, full);
      identity, after := EndInterview(0, node, answers, at, inherited, desc);
      start := Start(0, node, Opening(answers, at), full || answers.basic.None?, before, peer);
      finish := Finish(0, OwnAccount(answers, at), after);
      StartThenFinish(reg, start, desc, finish, db.View());
    }
  }
}
