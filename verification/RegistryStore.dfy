/** The registry of internal/store as the code keeps it: a map from addresses to
    device records that are changed in place.  Each method is tied to what it makes
    of the registry's value, defined in Registry. */
module RegistryStore {
  import opened Text
  import opened Registry
  import opened Wrappers

  class Device {
    var ieee: string
    var nodeID: NodeID
    var firstSeen: Time
    var lastSeen: Time
    var name: string
    var nodeType: string
    var capability: Option<nat>
    var manufacturer: string
    var model: string
    var powerSource: string
    var endpoints: seq<Endpoint>
    var interviewed: Time
    var inheritedFrom: string

    constructor (ieee: string, nodeID: NodeID, now: Time)
      ensures Rec() == Blank(ieee, nodeID, now)
    {
      this.ieee, this.nodeID, firstSeen, lastSeen := ieee, nodeID, now, now;
      name, nodeType, capability, manufacturer, model := "", "", None, "", "";
      powerSource, endpoints, interviewed, inheritedFrom := "", [], 0, "";
    }

    ghost function Rec(): Rec
      reads this
    {
      Registry.Rec(ieee, nodeID, firstSeen, lastSeen, name, nodeType, capability, manufacturer, model,
                   powerSource, endpoints, interviewed, inheritedFrom)
    }
  }

  /** The registry once there is a record for a device just seen. */
  function Placed(reg: Reg, ieee: string, nodeID: NodeID, now: Time): Reg {
    var p := Placeholder(nodeID);
    if ieee in reg then reg
    else if p in reg then (reg - {p})[ieee := reg[p].(ieee := ieee)]
    else reg[ieee := Blank(ieee, nodeID, now)]
  }

  lemma PlacedThenTouched(reg: Reg, ieee: string, nodeID: NodeID, now: Time)
    ensures var placed := Placed(reg, ieee, nodeID, now);
      ieee in placed && Observed(reg, ieee, nodeID, now) ==
        placed[ieee := placed[ieee].(nodeID := nodeID, lastSeen := now)]
  {
  }

  /** The loop of Resolve under way: no exact match among the records seen, and the looser
      matches among them set aside. */
  ghost predicate Sifted(reg: Reg, fold: string, seen: set<string>, prefix: set<string>, substring: set<string>) {
    && TierOf(reg, fold, Exact) * seen == {}
    && prefix == TierOf(reg, fold, Prefix) * seen
    && substring == TierOf(reg, fold, Substring) * seen
  }

  lemma SiftedNone(reg: Reg, fold: string)
    ensures Sifted(reg, fold, {}, {}, {})
  {
  }

  lemma {:induction false} SiftedMore(reg: Reg, fold: string, seen: set<string>, prefix: set<string>,
                                      substring: set<string>, k: string, tier: Option<Tier>)
    requires Sifted(reg, fold, seen, prefix, substring) && tier != Some(Exact)
    requires forall t :: tier == Some(t) <==> k in TierOf(reg, fold, t)
    ensures Sifted(reg, fold, seen + {k}, if tier == Some(Prefix) then prefix + {k} else prefix,
                   if tier == Some(Substring) then substring + {k} else substring)
  {
    assert k !in TierOf(reg, fold, Exact);
    assert tier == Some(Prefix) <==> k in TierOf(reg, fold, Prefix);
    assert tier == Some(Substring) <==> k in TierOf(reg, fold, Substring);
  }

  lemma {:induction false} SiftedAll(reg: Reg, fold: string, seen: set<string>, prefix: set<string>,
                                     substring: set<string>)
    requires Sifted(reg, fold, seen, prefix, substring) && forall k | k in reg :: k in seen
    ensures TierOf(reg, fold, Exact) == {}
    ensures prefix == TierOf(reg, fold, Prefix) && substring == TierOf(reg, fold, Substring)
  {
    assert TierOf(reg, fold, Exact) * seen == TierOf(reg, fold, Exact);
    assert TierOf(reg, fold, Prefix) * seen == TierOf(reg, fold, Prefix);
    assert TierOf(reg, fold, Substring) * seen == TierOf(reg, fold, Substring);
  }

  /** A listing under way: what is listed is in order and comes before what is not. */
  ghost predicate Listed(reg: Reg, keys: seq<string>, todo: set<string>) {
    && (forall k | k in reg :: k in keys <==> k !in todo)
    && (forall k | k in keys :: k in reg)
    && (forall i, j | 0 <= i < j < |keys| :: keys[i] != keys[j] && Before(reg[keys[i]], reg[keys[j]]))
    && (forall i, k | 0 <= i < |keys| && k in todo && k in reg :: Before(reg[keys[i]], reg[k]))
  }

  lemma ListedNone(reg: Reg)
    ensures Listed(reg, [], reg.Keys)
  {
  }

  lemma ListedAll(reg: Reg, keys: seq<string>)
    requires Listed(reg, keys, {})
    ensures Listing(reg, keys)
  {
  }

  lemma ListedNext(reg: Reg, keys: seq<string>, todo: set<string>, k: string)
    requires Listed(reg, keys, todo) && k in todo && k in reg
    requires forall j | j in todo && j != k && j in reg :: Before(reg[k], reg[j])
    ensures Listed(reg, keys + [k], todo - {k})
  {
  }

  lemma BeforeAll(a: Rec, b: Rec)
    ensures a.ieee != b.ieee ==> Before(a, b) != Before(b, a)
    ensures Before(a, b) ==> forall c | Before(b, c) :: Before(a, c)
  {
    BeforeOrders(a, b, b);
    forall c | Before(a, b) && Before(b, c) ensures Before(a, c) {
      BeforeOrders(a, b, c);
    }
  }

  /** Replacing the best so far by a better one leaves nothing better behind. */
  lemma BetterOrders(a: Rec, b: Rec)
    ensures !Better(a, a)
    ensures Better(a, b) ==> forall c | Better(c, a) :: Better(c, b)
  {
    LessTotal(a.ieee, a.ieee);
    forall c | Better(a, b) && Better(c, a) ensures Better(c, b) {
      if Less(c.ieee, a.ieee) && Less(a.ieee, b.ieee) {
        LessTransitive(c.ieee, a.ieee, b.ieee);
      }
    }
  }

  class Store {
    var devices: map<string, Device>

    /** No two keys share a record. */
    ghost predicate Valid()
      reads this
    {
      forall j, k | j in devices && k in devices && j != k :: devices[j] != devices[k]
    }

    ghost function View(): Reg
      reads this, devices.Values
    {
      map k | k in devices :: devices[k].Rec()
    }

    constructor ()
      ensures Valid() && View() == map[]
    {
      devices := map[];
    }

    /** When one record alone has been written to, the registry differs in that record alone. */
    twostate lemma OneChanged(k: string)
      requires old(Valid()) && devices == old(devices) && k in devices
      requires forall j | j in devices && j != k :: unchanged(devices[j])
      ensures View() == old(View())[k := devices[k].Rec()]
    {
      assert forall j | j in devices && j != k :: devices[j].Rec() == old(devices[j].Rec());
    }

    /** A new record under a key not yet in use, or in place of the one there. */
    method Insert(ieee: string, nodeID: NodeID, now: Time) returns (d: Device)
      requires Valid()
      modifies this
      ensures Valid() && View() == old(View())[ieee := Blank(ieee, nodeID, now)]
      ensures fresh(d) && devices == old(devices)[ieee := d]
    {
      d := new Device(ieee, nodeID, now);
      devices := devices[ieee := d];
    }

    /** A placeholder's record becomes the record of the address now known. */
    method Promote(placeholder: string, ieee: string) returns (d: Device)
      requires Valid() && placeholder in devices && ieee !in devices
      modifies this, devices.Values
      ensures Valid() && d == old(devices)[placeholder]
      ensures devices == (old(devices) - {placeholder})[ieee := d]
      ensures View() == (old(View()) - {placeholder})[ieee := old(View())[placeholder].(ieee := ieee)]
    {
      d := devices[placeholder];
      devices := devices - {placeholder};
      d.ieee := ieee;
      devices := devices[ieee := d];
    }

    method Touch(k: string, nodeID: NodeID, now: Time)
      requires Valid() && k in devices
      modifies devices[k]
      ensures View() == old(View())[k := old(View())[k].(nodeID := nodeID, lastSeen := now)]
    {
      devices[k].nodeID := nodeID;
      devices[k].lastSeen := now;
      OneChanged(k);
    }

    method Refresh(k: string, now: Time)
      requires Valid() && k in devices
      modifies devices[k]
      ensures View() == old(View())[k := old(View())[k].(lastSeen := now)]
    {
      devices[k].lastSeen := now;
      OneChanged(k);
    }

    method Rename(k: string, name: string)
      requires Valid() && k in devices
      modifies devices[k]
      ensures View() == Named(old(View()), k, name)
    {
      devices[k].name := name;
      OneChanged(k);
    }

    /** The record a sighting is for: the one there, a placeholder's, or a new one. */
    method Place(ieee: string, nodeID: NodeID, now: Time) returns (d: Device, first: bool)
      requires Valid()
      modifies this, devices.Values
      ensures Valid() && ieee in devices && devices[ieee] == d
      ensures View() == Placed(old(View()), ieee, nodeID, now)
      ensures first <==> ieee !in old(devices) && Placeholder(nodeID) !in old(devices)
      ensures if first then fresh(d) else d in old(devices.Values)
    {
      hide Placeholder, Blank;
      first := false;
      if ieee in devices {
        d := devices[ieee];
      } else {
        var placeholder := Placeholder(nodeID);
        if placeholder in devices {
          d := Promote(placeholder, ieee);
        } else {
          d := Insert(ieee, nodeID, now);
          first := true;
        }
      }
    }

    /** A sighting of a device by its address. */
    method Observe(ieee: string, nodeID: NodeID, now: Time) returns (d: Device, first: bool)
      requires Valid()
      modifies this, devices.Values
      ensures Valid() && View() == Observed(old(View()), ieee, nodeID, now)
      ensures ieee in devices && devices[ieee] == d
      ensures first <==> ieee !in old(devices) && Placeholder(nodeID) !in old(devices)
      ensures if first then fresh(d) else d in old(devices.Values)
    {
      hide Placed, Observed, Placeholder;
      PlacedThenTouched(View(), ieee, nodeID, now);
      d, first := Place(ieee, nodeID, now);
      Touch(ieee, nodeID, now);
    }

    /** A device by its network address: whichever the map's order meets first. */
    method ByNodeID(id: NodeID) returns (found: Option<string>)
      requires Valid()
      ensures FoundBy(View(), id, found)
    {
      var todo := devices.Keys;
      while todo != {}
        invariant todo <= devices.Keys
        invariant forall k | k in devices && k !in todo :: devices[k].nodeID != id
        decreases todo
      {
        var k :| k in todo;
        if devices[k].nodeID == id {
          return Some(k);
        }
        todo := todo - {k};
      }
      found := None;
    }

    /** Traffic from a node whose address may not be known yet. */
    method ObserveNodeID(nodeID: NodeID, now: Time) returns (key: string, first: bool, ghost found: Option<string>)
      requires Valid()
      modifies this, devices.Values
      ensures Valid() && FoundBy(old(View()), nodeID, found) && (first <==> found.None?)
      ensures View() == NodeObserved(old(View()), nodeID, now, found)
      ensures key in devices && key == if found.Some? then found.value else Placeholder(nodeID)
    {
      var known := ByNodeID(nodeID);
      found := known;
      if known.Some? {
        key := known.value;
        Refresh(key, now);
        return key, false, found;
      }
      key := Placeholder(nodeID);
      var d := Insert(key, nodeID, now);
      first := true;
    }

    /** Whoever has a name, ignoring case. */
    method ByName(name: string) returns (holder: Option<string>)
      requires Valid()
      ensures HeldBy(View(), name, holder)
    {
      var todo := devices.Keys;
      while todo != {}
        invariant todo <= devices.Keys
        invariant forall k | k in devices && k !in todo :: !Holds(View(), k, name)
        decreases todo
      {
        var k :| k in todo;
        if devices[k].name != "" && EqualFold(devices[k].name, name) {
          assert Holds(View(), k, name);
          return Some(devices[k].ieee);
        }
        todo := todo - {k};
      }
      holder := None;
    }

    method SetName(ieee: string, name: string) returns (refused: Option<NameError>, ghost holder: Option<string>)
      requires Valid()
      modifies devices.Values
      ensures Valid() && devices == old(devices)
      ensures HeldBy(old(View()), NormalizeName(name), holder)
      ensures refused == NameRefused(old(View()), ieee, name, holder)
      ensures View() == if refused.Some? then old(View()) else Named(old(View()), Upper(ieee), NormalizeName(name))
    {
      hide ValidName, NormalizeName, Upper, Holds, Named;
      var tidy := NormalizeName(name);
      var other := ByName(tidy);
      holder := other;
      var k := Upper(ieee);
      if k !in devices {
        return Some(NoSuchDevice), holder;
      }
      if !ValidName(tidy) {
        return Some(BadName), holder;
      }
      if other.Some? && other.value != devices[k].ieee {
        return Some(NameTaken), holder;
      }
      Rename(k, tidy);
      refused := None;
    }

    method ClearName(ieee: string) returns (was: Option<string>)
      requires Valid()
      modifies devices.Values
      ensures Valid() && devices == old(devices)
      ensures was == if Upper(ieee) in old(View()) then Some(old(View())[Upper(ieee)].name) else None
      ensures View() == if was.Some? then Named(old(View()), Upper(ieee), "") else old(View())
    {
      var k := Upper(ieee);
      if k !in devices {
        return None;
      }
      was := Some(devices[k].name);
      Rename(k, "");
    }

    method Remove(ieee: string) returns (ok: bool)
      requires Valid()
      modifies this
      ensures Valid() && View() == old(View()) - {ieee}
      ensures ok <==> ieee in old(devices)
    {
      if ieee !in devices {
        return false;
      }
      devices := devices - {ieee};
      ok := true;
    }

    /** Of some keys, the one to list first. */
    method First(keys: set<string>, ghost reg: Reg) returns (best: string)
      requires Valid() && reg == View() && Keyed(reg) && keys != {} && keys <= devices.Keys
      ensures best in keys
      ensures forall k | k in keys && k != best :: Before(reg[best], reg[k])
    {
      best :| best in keys;
      var todo := keys - {best};
      while todo != {}
        invariant todo <= keys && best in keys && best !in todo
        invariant forall k | k in keys && k !in todo && k != best :: Before(reg[best], reg[k])
        decreases todo
      {
        var k :| k in todo;
        var a, b := devices[k], devices[best];
        assert reg[k] == a.Rec() && reg[best] == b.Rec();
        BeforeAll(reg[k], reg[best]);
        if a.lastSeen > b.lastSeen || (a.lastSeen == b.lastSeen && Less(a.ieee, b.ieee)) {
          best := k;
        }
        todo := todo - {k};
      }
    }

    method List() returns (keys: seq<string>)
      requires Valid() && Keyed(View())
      ensures Listing(View(), keys)
    {
      hide Listed, Listing, Before;
      keys := [];
      var todo := devices.Keys;
      ghost var reg := View();
      ListedNone(reg);
      while todo != {}
        invariant todo <= reg.Keys == devices.Keys && Listed(reg, keys, todo)
        decreases todo
      {
        var k := First(todo, reg);
        ListedNext(reg, keys, todo, k);
        keys := keys + [k];
        todo := todo - {k};
      }
      ListedAll(reg, keys);
    }

    /** How well a record's name matches. */
    method Match(k: string, fold: string) returns (tier: Option<Tier>)
      requires Valid() && k in devices
      ensures forall t :: tier == Some(t) <==> k in TierOf(View(), fold, t)
    {
      var d := devices[k];
      assert View()[k] == d.Rec();
      tier := None;
      if d.name != "" {
        var name := Lower(d.name);
        if name == fold {
          tier := Some(Exact);
        } else if fold <= name {
          tier := Some(Prefix);
        } else if Contains(name, fold) {
          tier := Some(Substring);
        }
      }
    }

    /** The loop over the listing: an exact match at once, or the two looser tiers. */
    method Sift(keys: seq<string>, fold: string, ghost reg: Reg)
      returns (hit: Option<string>, prefix: set<string>, substring: set<string>)
      requires Valid() && reg == View() && Listing(reg, keys)
      ensures hit.Some? ==> hit.value in TierOf(reg, fold, Exact)
      ensures hit.None? ==>
        && TierOf(reg, fold, Exact) == {}
        && prefix == TierOf(reg, fold, Prefix) && substring == TierOf(reg, fold, Substring)
    {
      hide Sifted, TierOf, Before;
      ghost var seen: set<string> := {};
      hit, prefix, substring := None, {}, {};
      SiftedNone(reg, fold);
      for i := 0 to |keys|
        invariant forall j | 0 <= j < i :: keys[j] in seen
        invariant Sifted(reg, fold, seen, prefix, substring)
      {
        var k := keys[i];
        assert k in keys && k in reg;
        var tier := Match(k, fold);
        if tier == Some(Exact) {
          return Some(k), {}, {};
        }
        SiftedMore(reg, fold, seen, prefix, substring, k, tier);
        prefix := if tier == Some(Prefix) then prefix + {k} else prefix;
        substring := if tier == Some(Substring) then substring + {k} else substring;
        seen := seen + {k};
      }
      assert forall k | k in reg :: k in keys && k in seen;
      SiftedAll(reg, fold, seen, prefix, substring);
    }

    /** One candidate is an answer; several are an ambiguity. */
    method Settle(candidates: set<string>) returns (r: Resolution)
      requires candidates != {}
      ensures if |candidates| == 1 then r.Found? && r.key in candidates else r == Ambiguous(candidates)
    {
      if |candidates| == 1 {
        var k :| k in candidates;
        return Found(k);
      }
      r := Ambiguous(candidates);
    }

    /** A prefix match beats a substring match outright. */
    method Choose(prefix: set<string>, substring: set<string>) returns (r: Resolution)
      ensures FromTiers(prefix, substring, r)
    {
      r := NoDevice;
      if |prefix| > 0 {
        r := Settle(prefix);
      } else if |substring| > 0 {
        r := Settle(substring);
      }
    }

    /** Resolve's search by name. */
    method ByLooseName(fold: string) returns (r: Resolution)
      requires Valid() && Keyed(View())
      ensures Chosen(TierOf(View(), fold, Exact), TierOf(View(), fold, Prefix), TierOf(View(), fold, Substring), r)
    {
      hide TierOf, Listing, Keyed;
      var keys := List();
      ghost var reg := View();
      var hit, prefix, substring := Sift(keys, fold, reg);
      if hit.Some? {
        return Found(hit.value);
      }
      r := Choose(prefix, substring);
    }

    /** The device a user meant. */
    method Resolve(query: string) returns (r: Resolution)
      requires Valid() && Keyed(View())
      ensures Resolves(View(), query, r)
    {
      var q := TrimSpace(query);
      if q == "" {
        return NoDevice;
      }
      if Upper(q) in devices {
        return Found(Upper(q));
      }
      var id := ParseNodeID(q);
      if id.Some? {
        var found := ByNodeID(id.value);
        return if found.Some? then Found(found.value) else NoDevice;
      }
      r := ByLooseName(Lower(NormalizeName(q)));
    }

    /** An interviewed device of the same make and model, other than the one excluded. */
    method PeerOfModel(manufacturer: string, model: string, exclude: string) returns (peer: Option<string>)
      requires Valid()
      ensures IsPeer(View(), manufacturer, model, exclude, peer)
    {
      peer := None;
      if model == "" {
        return;
      }
      var todo := devices.Keys;
      ghost var reg := View();
      while todo != {}
        invariant todo <= devices.Keys
        invariant peer.Some? ==> peer.value in reg && Candidate(reg[peer.value], manufacturer, model, exclude)
        invariant forall k | k in reg && k !in todo && Candidate(reg[k], manufacturer, model, exclude) ::
          peer.Some? && !Better(reg[k], reg[peer.value])
        decreases todo
      {
        var k :| k in todo;
        todo := todo - {k};
        var d := devices[k];
        assert reg[k] == d.Rec();
        if d.ieee == exclude || !Identified(d.ieee) || d.inheritedFrom != "" ||
           d.manufacturer != manufacturer || d.model != model || |d.endpoints| == 0 || d.interviewed == 0 {
          continue;
        }
        if peer.None? {
          BetterOrders(reg[k], reg[k]);
          peer := Some(k);
        } else {
          var best := devices[peer.value];
          assert reg[peer.value] == best.Rec();
          BetterOrders(reg[k], reg[peer.value]);
          if d.interviewed > best.interviewed || (d.interviewed == best.interviewed && Less(d.ieee, best.ieee)) {
            peer := Some(k);
          }
        }
      }
    }
  }
}
