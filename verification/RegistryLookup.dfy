/** What the registry's answers mean to a user: which device a query finds, said in the
    letters of the names and not in the code's tiers, and what the registry remembers. */
module RegistryLookup {
  import opened Text
  import opened Registry
  import opened Wrappers

  // ----- Letters.

  /** Typed at the start of a name, in any case. */
  predicate Begins(name: string, q: string) {
    |q| <= |name| && forall i | 0 <= i < |q| :: LowerChar(name[i]) == LowerChar(q[i])
  }

  /** Or anywhere in it. */
  ghost predicate Inside(name: string, q: string) {
    exists j | 0 <= j <= |name| :: Begins(name[j..], q)
  }

  lemma {:induction false} BeginsIs(name: string, q: string)
    ensures Lower(q) <= Lower(name) <==> Begins(name, q)
  {
    if Lower(q) <= Lower(name) {
      forall i | 0 <= i < |q| ensures LowerChar(name[i]) == LowerChar(q[i]) {
        assert Lower(q)[i] == Lower(name)[i];
      }
    }
  }

  lemma {:induction false} InsideIs(name: string, q: string)
    ensures Contains(Lower(name), Lower(q)) <==> Inside(name, q)
    decreases |name|
  {
    BeginsIs(name, q);
    assert name[0..] == name;
    if name != "" {
      InsideIs(name[1..], q);
      assert Lower(name)[1..] == Lower(name[1..]);
      if j :| 0 <= j <= |name| - 1 && Begins(name[1..][j..], q) {
        assert name[1..][j..] == name[j + 1..];
      }
      if j :| 0 < j <= |name| && Begins(name[j..], q) {
        assert name[1..][j - 1..] == name[j..];
      }
    }
  }

  function Starting(reg: Reg, q: string): set<string> {
    set k | k in reg && reg[k].name != "" && Begins(reg[k].name, q)
  }

  ghost function Containing(reg: Reg, q: string): set<string> {
    set k | k in reg && reg[k].name != "" && Inside(reg[k].name, q)
  }

  /** One candidate is the answer; several are all named. */
  predicate Settles(candidates: set<string>, r: Resolution) {
    if |candidates| == 1 then r.Found? && r.key in candidates else r == Ambiguous(candidates)
  }

  lemma {:induction false} TiersAre(reg: Reg, q: string)
    requires forall k | k in reg && reg[k].name != "" :: !EqualFold(reg[k].name, q)
    ensures TierOf(reg, Lower(q), Exact) == {}
    ensures TierOf(reg, Lower(q), Prefix) == Starting(reg, q)
    ensures Starting(reg, q) == {} ==> TierOf(reg, Lower(q), Substring) == Containing(reg, q)
  {
    forall k | k in reg && reg[k].name != ""
      ensures k in TierOf(reg, Lower(q), Prefix) <==> k in Starting(reg, q)
      ensures k !in Starting(reg, q) ==> (k in TierOf(reg, Lower(q), Substring) <==> k in Containing(reg, q))
    {
      BeginsIs(reg[k].name, q);
      InsideIs(reg[k].name, q);
    }
  }

  /** A query that is no address and no stored name finds the device whose name starts with it,
      whatever other names contain it; failing that, the device whose name contains it; and if
      there are several such it finds none, and they are all named. */
  lemma {:induction false} LooseMatch(reg: Reg, query: string, r: Resolution)
    requires var t := TrimSpace(query); t != "" && Upper(t) !in reg && ParseNodeID(t).None?
    requires forall k | k in reg && reg[k].name != "" :: !EqualFold(reg[k].name, NormalizeName(TrimSpace(query)))
    ensures var q := NormalizeName(TrimSpace(query));
      Resolves(reg, query, r) <==>
        if Starting(reg, q) != {} then Settles(Starting(reg, q), r)
        else if Containing(reg, q) != {} then Settles(Containing(reg, q), r)
        else r == NoDevice
  {
    var q := NormalizeName(TrimSpace(query));
    TiersAre(reg, q);
  }

  // ----- Network addresses.

  lemma {:induction false} DigitRead(d: nat)
    requires d < 16
    ensures HexDigit(HexChar(d)) == Some(d) && !IsSpace(HexChar(d)) && HexChar(d) != ':'
  {
  }

  lemma {:induction false} HexValueMore(s: string, c: char, v: nat, d: nat)
    requires HexValue(s) == Some(v) && HexDigit(c) == Some(d)
    ensures HexValue(s + [c]) == Some(16 * v + d)
  {
    assert (s + [c])[..|s|] == s;
  }

  lemma NoDigits()
    ensures HexValue("") == Some(0)
  {
  }

  lemma {:induction false} FourHexRead(n: NodeID)
    ensures HexValue(FourHex(n)) == Some(n)
  {
    hide HexChar, HexDigit, HexValue;
    var a, b, c, d := n / 4096, n / 256 % 16, n / 16 % 16, n % 16;
    DigitRead(a);
    DigitRead(b);
    DigitRead(c);
    DigitRead(d);
    NoDigits();
    HexValueMore("", HexChar(a), 0, a);
    HexValueMore("" + [HexChar(a)], HexChar(b), a, b);
    HexValueMore("" + [HexChar(a)] + [HexChar(b)], HexChar(c), 16 * a + b, c);
    HexValueMore("" + [HexChar(a)] + [HexChar(b)] + [HexChar(c)], HexChar(d), 16 * (16 * a + b) + c, d);
    assert "" + [HexChar(a)] + [HexChar(b)] + [HexChar(c)] + [HexChar(d)] == FourHex(n);
    FromDigits(n);
  }

  /** An address as it is printed, in any case, is read as itself. */
  lemma {:induction false} NodeIDRoundTrip(n: NodeID, s: string)
    requires EqualFold(s, "0x" + FourHex(n))
    ensures ParseNodeID(s) == Some(n)
  {
    var p := "0x" + FourHex(n);
    assert |s| == |Lower(s)| == |Lower(p)| == 6;
    assert Lower(s)[..2] == Lower(s[..2]) && Lower(p)[..2] == Lower(p[..2]) && p[..2] == "0x";
    assert Lower(s)[2..] == Lower(s[2..]) && Lower(p)[2..] == Lower(p[2..]) && p[2..] == FourHex(n);
    HexIgnoresCase(s[2..], FourHex(n));
    FourHexRead(n);
  }

  lemma {:induction false} SplitNone(s: string)
    requires ':' !in s
    ensures Split(s, ':') == [s]
  {
    if s != "" {
      SplitNone(s[1..]);
      assert [s[0]] + s[1..] == s;
    }
  }

  /** What is printed as a network address is no key, and no spaces need trimming from it. */
  lemma {:induction false} PrintedIsPlain(n: NodeID, s: string)
    requires EqualFold(s, "0x" + FourHex(n))
    ensures |s| == 6 && s[0] == '0' && ':' !in Upper(s) && !IsSpace(s[5])
  {
    var p := "0x" + FourHex(n);
    assert |s| == |Lower(s)| == |Lower(p)| == 6;
    DigitRead(n / 4096);
    DigitRead(n / 256 % 16);
    DigitRead(n / 16 % 16);
    DigitRead(n % 16);
    forall i | 0 <= i < 6 ensures LowerChar(s[i]) == LowerChar(p[i]) && Upper(s)[i] != ':' {
      assert Lower(s)[i] == Lower(p)[i];
      assert p[i] == '0' || p[i] == 'x' || p[i] == FourHex(n)[i - 2];
    }
  }

  lemma {:induction false} KeyLooks(r: Rec)
    requires KeyFits(r)
    ensures ':' in r.ieee || (r.ieee != "" && r.ieee[0] == 'u')
  {
    assert UNKNOWN_PREFIX[0] == 'u';
    if ':' !in r.ieee {
      SplitNone(r.ieee);
    }
  }

  /** An address as it is printed finds a record that has it, and no device if there is none. */
  lemma {:induction false} NodeAddressFinds(reg: Reg, n: NodeID, s: string, r: Resolution)
    requires Keyed(reg) && EqualFold(s, "0x" + FourHex(n))
    ensures Resolves(reg, s, r) <==>
      if exists k | k in reg :: reg[k].nodeID == n then r.Found? && r.key in reg && reg[r.key].nodeID == n
      else r == NoDevice
  {
    PrintedIsPlain(n, s);
    NothingToTrim(s);
    NodeIDRoundTrip(n, s);
    forall k | k in reg ensures k != Upper(s) {
      KeyLooks(reg[k]);
    }
  }

  // ----- What is remembered.

  /** Once a name is accepted it finds the device it was given to. */
  lemma {:induction false} NamedThenFound(reg: Reg, ieee: string, name: string, holder: Option<string>, r: Resolution)
    requires Sound(reg) && HeldBy(reg, NormalizeName(name), holder) && NameRefused(reg, ieee, name, holder).None?
    ensures var reg' := Named(reg, Upper(ieee), NormalizeName(name));
      Resolves(reg', NormalizeName(name), r) <==> r == Found(Upper(ieee))
  {
    NamedKeeps(reg, ieee, name, holder);
    NameFindsItsDevice(Named(reg, Upper(ieee), NormalizeName(name)), Upper(ieee), r);
  }

  /** A device seen is known by its address, where and when it was seen last; what was known of
      it, be it only as a placeholder, stays known; and no other record is touched. */
  lemma {:induction false} SightingRemembers(reg: Reg, ieee: string, nodeID: NodeID, now: Time)
    requires Keyed(reg) && Canonical(ieee)
    ensures var reg', p := Observed(reg, ieee, nodeID, now), Placeholder(nodeID);
      && ieee in reg' && reg'[ieee].ieee == ieee && reg'[ieee].nodeID == nodeID && reg'[ieee].lastSeen == now
      && (var was := if ieee in reg then ieee else p;
          if was in reg then
            && reg'[ieee].name == reg[was].name && reg'[ieee].firstSeen == reg[was].firstSeen
            && reg'[ieee].manufacturer == reg[was].manufacturer && reg'[ieee].model == reg[was].model
            && reg'[ieee].endpoints == reg[was].endpoints && reg'[ieee].interviewed == reg[was].interviewed
            && reg'[ieee].inheritedFrom == reg[was].inheritedFrom
          else
            reg'[ieee].name == "" && reg'[ieee].firstSeen == now && reg'[ieee].interviewed == 0)
      && (forall k | k != ieee && k != p :: k in reg' <==> k in reg)
      && (forall k | k != ieee && k != p && k in reg :: reg'[k] == reg[k])
      && (p in reg' <==> p in reg && ieee in reg) && (p in reg' ==> reg'[p] == reg[p])
  {
    NotCanonical(nodeID);
  }

  /** A network address seen moves the time of one record that has it, or makes a placeholder
      with nothing known; no other record changes. */
  lemma {:induction false} NodeSightingRemembers(reg: Reg, nodeID: NodeID, now: Time, found: Option<string>)
    requires Keyed(reg) && FoundBy(reg, nodeID, found)
    ensures var reg' := NodeObserved(reg, nodeID, now, found);
      var k := if found.Some? then found.value else Placeholder(nodeID);
      && k in reg' && reg'[k].nodeID == nodeID && reg'[k].lastSeen == now
      && (found.Some? ==> reg'[k] == reg[k].(lastSeen := now))
      && (found.None? ==> k !in reg && reg'[k].name == "" && reg'[k].firstSeen == now && reg'[k].interviewed == 0)
      && (forall j | j != k :: j in reg' <==> j in reg) && (forall j | j != k && j in reg :: reg'[j] == reg[j])
  {
    if found.None? {
      NewPlaceholder(reg, nodeID);
    }
  }

  // ----- Order.

  /** They agree up to i, where a ends or has the smaller character. */
  predicate Precedes(a: string, b: string, i: nat) {
    i <= |a| && i < |b| && a[..i] == b[..i] && (i == |a| || a[i] < b[i])
  }

  lemma {:induction false} LessPrecedes(a: string, b: string) returns (i: nat)
    requires Less(a, b)
    ensures Precedes(a, b, i)
  {
    i := 0;
    if a != "" && a[0] == b[0] {
      i := LessPrecedes(a[1..], b[1..]);
      assert a[..i + 1] == [a[0]] + a[1..][..i] && b[..i + 1] == [b[0]] + b[1..][..i];
      i := i + 1;
    }
  }

  lemma {:induction false} PrecedesLess(a: string, b: string, i: nat)
    requires Precedes(a, b, i)
    ensures Less(a, b)
  {
    if i > 0 {
      assert a[0] == a[..i][0] == b[..i][0] == b[0];
      assert a[1..][..i - 1] == a[..i][1..] == b[..i][1..] == b[1..][..i - 1];
      PrecedesLess(a[1..], b[1..], i - 1);
    }
  }

  /** Strings are ordered by their first difference, a beginning before what it begins. */
  lemma {:induction false} FirstDifference(a: string, b: string)
    ensures Less(a, b) <==> exists i :: Precedes(a, b, i)
  {
    if Less(a, b) {
      var i := LessPrecedes(a, b);
    } else if i :| Precedes(a, b, i) {
      PrecedesLess(a, b, i);
    }
  }

  /** A listing goes from the device seen last to the one not seen for longest. */
  lemma {:induction false} ListingOrder(reg: Reg, keys: seq<string>, i: nat, j: nat)
    requires Keyed(reg) && Listing(reg, keys) && i < j < |keys|
    ensures keys[i] in reg && keys[j] in reg
    ensures var a, b := reg[keys[i]], reg[keys[j]];
      b.lastSeen < a.lastSeen || (b.lastSeen == a.lastSeen && Less(keys[i], keys[j]))
  {
  }

  /** Another device of the make and model that has answered for itself. */
  predicate SameModel(d: Rec, manufacturer: string, model: string, exclude: string) {
    && d.manufacturer == manufacturer && d.model == model && d.ieee != exclude && Identified(d.ieee)
    && d.interviewed > 0 && d.inheritedFrom == "" && d.endpoints != []
  }

  /** The peer is the one of them that answered last, the first by address among equals. */
  lemma {:induction false} PeerIsLatest(reg: Reg, manufacturer: string, model: string, exclude: string,
                                        peer: Option<string>)
    requires Keyed(reg) && IsPeer(reg, manufacturer, model, exclude, peer)
    ensures peer.None? ==> model == "" || forall k | k in reg :: !SameModel(reg[k], manufacturer, model, exclude)
    ensures peer.Some? ==> model != "" && peer.value in reg && SameModel(reg[peer.value], manufacturer, model, exclude)
    ensures peer.Some? ==> forall k | k in reg && k != peer.value && SameModel(reg[k], manufacturer, model, exclude) ::
      reg[k].interviewed < reg[peer.value].interviewed
      || (reg[k].interviewed == reg[peer.value].interviewed && Less(peer.value, k))
  {
    if peer.Some? {
      forall k | k in reg && k != peer.value && SameModel(reg[k], manufacturer, model, exclude)
        ensures reg[k].interviewed < reg[peer.value].interviewed
          || (reg[k].interviewed == reg[peer.value].interviewed && Less(peer.value, k))
      {
        assert Candidate(reg[k], manufacturer, model, exclude) && !Better(reg[k], reg[peer.value]);
        LessTotal(k, peer.value);
      }
    }
  }
}
