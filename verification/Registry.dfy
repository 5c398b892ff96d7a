/** The device registry of internal/store as a value: what each operation makes of it,
    and what names can be relied on for. */
module Registry {
  import opened Text
  import opened Wrappers

  const UNKNOWN_PREFIX := "unknown:"
  const MAX_NAME_LEN := 64

  /** A network address. */
  type NodeID = n: nat | n < 0x1_0000

  /** Moments are counted from the zero time, which no clock shows. */
  type Time = nat

  datatype Endpoint = Endpoint(id: nat, profile: nat, device: nat, input: seq<nat>, output: seq<nat>)

  datatype Rec = Rec(
    ieee: string, nodeID: NodeID, firstSeen: Time, lastSeen: Time, name: string,
    nodeType: string, capability: Option<nat>, manufacturer: string, model: string,
    powerSource: string, endpoints: seq<Endpoint>, interviewed: Time, inheritedFrom: string)

  type Reg = map<string, Rec>

  // ----- Addresses and names.

  function HexChar(d: nat): char
    requires d < 16
  {
    if d < 10 then '0' + d as char else 'A' + (d - 10) as char
  }

  /** Four digits, %04X. */
  function FourHex(n: NodeID): string {
    [HexChar(n / 4096), HexChar(n / 256 % 16), HexChar(n / 16 % 16), HexChar(n % 16)]
  }

  /** The temporary key of a node whose address is not yet known. */
  function Placeholder(nodeID: NodeID): string {
    UNKNOWN_PREFIX + "0x" + FourHex(nodeID)
  }

  lemma {:induction false} HexCharsDiffer(a: nat, b: nat)
    requires a < 16 && b < 16 && HexChar(a) == HexChar(b)
    ensures a == b
  {
  }

  lemma {:induction false} FromDigits(n: NodeID)
    ensures n as int == n / 4096 * 4096 + n / 256 % 16 * 256 + n / 16 % 16 * 16 + n % 16
  {
    var a := n as int / 16;
    var b := a / 16;
    var c := b / 16;
    assert n as int / 256 == b && n as int / 4096 == c;
  }

  /** No two network addresses share a placeholder. */
  lemma {:induction false} PlaceholdersDiffer(m: NodeID, n: NodeID)
    requires Placeholder(m) == Placeholder(n)
    ensures m == n
  {
    var p, q := UNKNOWN_PREFIX + "0x", |UNKNOWN_PREFIX + "0x"|;
    assert FourHex(m) == Placeholder(m)[q..] == Placeholder(n)[q..] == FourHex(n);
    HexCharsDiffer(m / 4096, n / 4096);
    HexCharsDiffer(m / 256 % 16, n / 256 % 16);
    HexCharsDiffer(m / 16 % 16, n / 16 % 16);
    HexCharsDiffer(m % 16, n % 16);
    FromDigits(m);
    FromDigits(n);
  }

  predicate Identified(ieee: string) {
    !(UNKNOWN_PREFIX <= ieee)
  }

  function ParseNodeID(s: string): Option<NodeID> {
    if |s| < 3 || !EqualFold(s[..2], "0x") then None else ParseHex(s[2..], 0x1_0000)
  }

  predicate LooksLikeIEEE(s: string) {
    var parts := Split(s, ':');
    |parts| == 8 && forall i | 0 <= i < 8 :: ParseHex(parts[i], 0x100).Some?
  }

  /** The form in which joins report addresses. */
  predicate Canonical(ieee: string) {
    LooksLikeIEEE(ieee) && Upper(ieee) == ieee
  }

  predicate ValidName(name: string) {
    && name != "" && |name| <= MAX_NAME_LEN
    && (forall c | c in name :: !IsControl(c))
    && ParseNodeID(name).None? && !LooksLikeIEEE(name)
  }

  lemma AddressesIgnoreCase(a: string, b: string)
    requires EqualFold(a, b)
    ensures LooksLikeIEEE(a) == LooksLikeIEEE(b)
  {
    SplitIgnoresCase(a, b);
    var pa, pb := Split(a, ':'), Split(b, ':');
    forall i | 0 <= i < |pa| ensures ParseHex(pa[i], 0x100) == ParseHex(pb[i], 0x100) {
      assert |Lower(pa[i])| == |Lower(pb[i])|;
      HexIgnoresCase(pa[i], pb[i]);
    }
  }

  // ----- The operations.

  function Blank(ieee: string, nodeID: NodeID, now: Time): Rec {
    Rec(ieee, nodeID, now, now, "", "", None, "", "", "", [], 0, "")
  }

  function Observed(reg: Reg, ieee: string, nodeID: NodeID, now: Time): Reg {
    var placeholder := Placeholder(nodeID);
    if ieee in reg then reg[ieee := reg[ieee].(nodeID := nodeID, lastSeen := now)]
    else if placeholder in reg then
      (reg - {placeholder})[ieee := reg[placeholder].(ieee := ieee, nodeID := nodeID, lastSeen := now)]
    else reg[ieee := Blank(ieee, nodeID, now)]
  }

  /** Which record a network address finds is up to the map's order. */
  predicate FoundBy(reg: Reg, nodeID: NodeID, found: Option<string>) {
    match found
    case Some(k) => k in reg && reg[k].nodeID == nodeID
    case None => forall k | k in reg :: reg[k].nodeID != nodeID
  }

  function NodeObserved(reg: Reg, nodeID: NodeID, now: Time, found: Option<string>): Reg
    requires FoundBy(reg, nodeID, found)
  {
    match found
    case Some(k) => reg[k := reg[k].(lastSeen := now)]
    case None => reg[Placeholder(nodeID) := Blank(Placeholder(nodeID), nodeID, now)]
  }

  predicate Holds(reg: Reg, k: string, name: string) {
    k in reg && reg[k].name != "" && EqualFold(reg[k].name, name)
  }

  datatype NameError = NoSuchDevice | BadName | NameTaken

  /** Why a name is refused, if it is; holder is whoever byName happens to find. */
  function NameRefused(reg: Reg, ieee: string, name: string, holder: Option<string>): Option<NameError> {
    var k := Upper(ieee);
    if k !in reg then Some(NoSuchDevice)
    else if !ValidName(NormalizeName(name)) then Some(BadName)
    else if holder.Some? && holder.value != reg[k].ieee then Some(NameTaken)
    else None
  }

  predicate HeldBy(reg: Reg, name: string, holder: Option<string>) {
    match holder
    case Some(i) => exists k | k in reg :: reg[k].ieee == i && Holds(reg, k, name)
    case None => forall k | k in reg :: !Holds(reg, k, name)
  }

  function Named(reg: Reg, k: string, name: string): Reg
    requires k in reg
  {
    reg[k := reg[k].(name := name)]
  }

  // ----- What every registry built by these operations keeps.

  /** A record is kept under its address or, until that is known, under the placeholder of
      its own network address. */
  predicate KeyFits(r: Rec) {
    Canonical(r.ieee) || r.ieee == Placeholder(r.nodeID)
  }

  ghost predicate Keyed(reg: Reg) {
    forall k | k in reg :: reg[k].ieee == k && KeyFits(reg[k])
  }

  predicate Settled(name: string) {
    name == "" || (ValidName(name) && NormalizeName(name) == name)
  }

  ghost predicate NamesDistinct(reg: Reg) {
    && (forall k | k in reg :: Settled(reg[k].name))
    && (forall j, k | j in reg && k in reg && j != k && reg[j].name != "" :: !Holds(reg, k, reg[j].name))
  }

  ghost predicate Sound(reg: Reg) {
    Keyed(reg) && NamesDistinct(reg)
  }

  lemma DropKeeps(reg: Reg, k: string)
    requires Sound(reg)
    ensures Sound(reg - {k})
  {
  }

  lemma PutKeeps(reg: Reg, k: string, r: Rec)
    requires Sound(reg) && r.ieee == k && KeyFits(r) && Settled(r.name)
    requires r.name != "" ==> forall j | j in reg && j != k :: !Holds(reg, j, r.name)
    ensures Sound(reg[k := r])
  {
  }

  lemma {:induction false} ObservedKeeps(reg: Reg, ieee: string, nodeID: NodeID, now: Time)
    requires Sound(reg) && Canonical(ieee)
    ensures Sound(Observed(reg, ieee, nodeID, now))
  {
    var placeholder := Placeholder(nodeID);
    if ieee in reg {
      PutKeeps(reg, ieee, reg[ieee].(nodeID := nodeID, lastSeen := now));
    } else if placeholder in reg {
      var rest := reg - {placeholder};
      DropKeeps(reg, placeholder);
      assert forall j, n | j in rest :: Holds(rest, j, n) == Holds(reg, j, n);
      PutKeeps(rest, ieee, reg[placeholder].(ieee := ieee, nodeID := nodeID, lastSeen := now));
    } else {
      PutKeeps(reg, ieee, Blank(ieee, nodeID, now));
    }
  }

  lemma NodeObservedKeeps(reg: Reg, nodeID: NodeID, now: Time, found: Option<string>)
    requires Sound(reg) && FoundBy(reg, nodeID, found)
    ensures Sound(NodeObserved(reg, nodeID, now, found))
  {
    match found {
      case Some(k) => PutKeeps(reg, k, reg[k].(lastSeen := now));
      case None => PutKeeps(reg, Placeholder(nodeID), Blank(Placeholder(nodeID), nodeID, now));
    }
  }

  lemma {:induction false} NotCanonical(nodeID: NodeID)
    ensures !Canonical(Placeholder(nodeID)) && !Identified(Placeholder(nodeID))
  {
    var p := Placeholder(nodeID);
    assert p[0] == 'u' && Upper(p)[0] == 'U';
  }

  /** A node seen for the first time has no record under its placeholder yet. */
  lemma {:induction false} NewPlaceholder(reg: Reg, nodeID: NodeID)
    requires Keyed(reg) && FoundBy(reg, nodeID, None)
    ensures Placeholder(nodeID) !in reg
  {
    var p := Placeholder(nodeID);
    if p in reg && reg[p].ieee == Placeholder(reg[p].nodeID) {
      PlaceholdersDiffer(nodeID, reg[p].nodeID);
    }
    NotCanonical(nodeID);
  }

  lemma {:induction false} KeysNotEmpty(reg: Reg, k: string)
    requires Keyed(reg) && k in reg
    ensures k != ""
  {
    assert KeyFits(reg[k]);
  }

  /** At most one record holds a name. */
  lemma HoldersAgree(reg: Reg, name: string)
    requires Sound(reg)
    ensures forall h, j | Holds(reg, h, name) && Holds(reg, j, name) :: h == j
  {
  }

  lemma NamedKeeps(reg: Reg, ieee: string, name: string, holder: Option<string>)
    requires Sound(reg) && HeldBy(reg, NormalizeName(name), holder)
    requires NameRefused(reg, ieee, name, holder).None?
    ensures Sound(Named(reg, Upper(ieee), NormalizeName(name)))
  {
    var k, n := Upper(ieee), NormalizeName(name);
    NormalizeSettles(name);
    HoldersAgree(reg, n);
    assert forall j | j in reg && Holds(reg, j, n) :: j == k;
    PutKeeps(reg, k, reg[k].(name := n));
  }

  /** A refusal because of another holder is right: the name is in use elsewhere. */
  lemma RefusedMeansTaken(reg: Reg, ieee: string, name: string, holder: Option<string>)
    requires Sound(reg) && Upper(ieee) in reg && ValidName(NormalizeName(name))
    requires HeldBy(reg, NormalizeName(name), holder)
    ensures NameRefused(reg, ieee, name, holder) == Some(NameTaken) <==>
      exists j | j in reg && j != Upper(ieee) :: Holds(reg, j, NormalizeName(name))
  {
  }

  // ----- Resolving what a user typed.

  datatype Tier = Exact | Prefix | Substring

  predicate InTier(reg: Reg, k: string, fold: string, tier: Tier) {
    k in reg && reg[k].name != "" && var n := Lower(reg[k].name);
    match tier
    case Exact => n == fold
    case Prefix => n != fold && fold <= n
    case Substring => !(fold <= n) && Contains(n, fold)
  }

  function TierOf(reg: Reg, fold: string, tier: Tier): set<string> {
    set k | k in reg && InTier(reg, k, fold, tier)
  }

  datatype Resolution = Found(key: string) | NoDevice | Ambiguous(keys: set<string>)

  function FromTiers(prefix: set<string>, substring: set<string>, r: Resolution): bool {
    if |prefix| == 1 then r.Found? && r.key in prefix
    else if |prefix| > 1 then r == Ambiguous(prefix)
    else if |substring| == 1 then r.Found? && r.key in substring
    else if |substring| > 1 then r == Ambiguous(substring)
    else r == NoDevice
  }

  predicate Chosen(exact: set<string>, prefix: set<string>, substring: set<string>, r: Resolution) {
    if exact != {} then r.Found? && r.key in exact else FromTiers(prefix, substring, r)
  }

  /** The answers Resolve may give; only a network address shared by several records
      leaves it a choice. */
  predicate Resolves(reg: Reg, query: string, r: Resolution) {
    var q := TrimSpace(query);
    if q == "" then r == NoDevice
    else if Upper(q) in reg then r == Found(Upper(q))
    else if ParseNodeID(q).Some? then
      var found := if r.Found? then Some(r.key) else None;
      (r.Found? || r == NoDevice) && FoundBy(reg, ParseNodeID(q).value, found)
    else
      var fold := Lower(NormalizeName(q));
      Chosen(TierOf(reg, fold, Exact), TierOf(reg, fold, Prefix), TierOf(reg, fold, Substring), r)
  }

  lemma CapitalsOnly(s: string)
    ensures forall i | 0 <= i < |s| :: !('a' <= Upper(s)[i] <= 'z')
    ensures Identified(Upper(s))
  {
    assert UNKNOWN_PREFIX[0] == 'u';
  }

  /** No key of a sound registry is what a valid name reads as in capitals. */
  lemma NamesAreNotKeys(reg: Reg, name: string)
    requires Keyed(reg) && ValidName(name)
    ensures Upper(name) !in reg
  {
    CapitalsOnly(name);
    UpperFolds(name, Upper(name));
    AddressesIgnoreCase(name, Upper(name));
  }

  lemma {:induction false} AddressesAreTrim(k: string)
    requires Canonical(k)
    ensures k != "" && TrimSpace(k) == k
  {
    var parts := Split(k, ':');
    SplitEnds(k, ':');
    assert ParseHex(parts[0], 0x100).Some? && ParseHex(parts[7], 0x100).Some?;
    HexDigitsOnly(parts[0]);
    HexDigitsOnly(parts[7]);
    NothingToTrim(k);
  }

  lemma {:induction false} NotPlaceholder(r: Rec)
    requires KeyFits(r) && Identified(r.ieee)
    ensures Canonical(r.ieee)
  {
    NotCanonical(r.nodeID);
  }

  /** A device's address finds that device, and nothing else. */
  lemma {:induction false} AddressFindsItsDevice(reg: Reg, k: string, r: Resolution)
    requires Keyed(reg) && k in reg && Identified(k)
    ensures Resolves(reg, k, r) <==> r == Found(k)
  {
    NotPlaceholder(reg[k]);
    AddressesAreTrim(k);
  }

  /** A name is matched in any case, with any spacing round and inside it. */
  lemma LooseSpelling(reg: Reg, k: string, query: string, r: Resolution)
    requires Sound(reg) && k in reg && reg[k].name != ""
    requires TrimSpace(query) != "" && Upper(TrimSpace(query)) !in reg && ParseNodeID(TrimSpace(query)).None?
    requires EqualFold(NormalizeName(TrimSpace(query)), reg[k].name)
    ensures Resolves(reg, query, r) <==> r == Found(k)
  {
    var exact := TierOf(reg, Lower(NormalizeName(TrimSpace(query))), Exact);
    HoldersAgree(reg, reg[k].name);
    assert k in exact && forall j | j in exact :: Holds(reg, j, reg[k].name);
  }

  /** The name a device was given finds that device, and nothing else. */
  lemma NameFindsItsDevice(reg: Reg, k: string, r: Resolution)
    requires Sound(reg) && k in reg && reg[k].name != ""
    ensures Resolves(reg, reg[k].name, r) <==> r == Found(k)
  {
    var name := reg[k].name;
    assert Settled(name);
    NormalizeSettles(name);
    NamesAreNotKeys(reg, name);
    LooseSpelling(reg, k, name, r);
  }

  lemma Singleton(s: set<string>, x: string)
    requires |s| == 1 && x in s
    ensures s == {x}
  {
    assert |s - {x}| == 0;
  }

  /** Any other match is the only member of the best tier that has members. */
  lemma MatchIsUnrivalled(reg: Reg, query: string, r: Resolution)
    requires Sound(reg) && Resolves(reg, query, r) && r.Found?
    requires Upper(TrimSpace(query)) !in reg && ParseNodeID(TrimSpace(query)).None?
    ensures var fold := Lower(NormalizeName(TrimSpace(query)));
      exists tier :: TierOf(reg, fold, tier) == {r.key}
        && (tier != Exact ==> TierOf(reg, fold, Exact) == {})
        && (tier == Substring ==> TierOf(reg, fold, Prefix) == {})
  {
    var fold := Lower(NormalizeName(TrimSpace(query)));
    var exact, prefix, substring := TierOf(reg, fold, Exact), TierOf(reg, fold, Prefix), TierOf(reg, fold, Substring);
    if exact != {} {
      HoldersAgree(reg, reg[r.key].name);
      assert forall j | j in exact :: Holds(reg, j, reg[r.key].name);
      assert exact == {r.key};
    } else if |prefix| == 1 {
      Singleton(prefix, r.key);
    } else {
      Singleton(substring, r.key);
    }
  }

  // ----- Listing and peers: answers that must not depend on the map's order.

  /** Most recently seen first, the address breaking a tie. */
  predicate Before(a: Rec, b: Rec) {
    a.lastSeen > b.lastSeen || (a.lastSeen == b.lastSeen && Less(a.ieee, b.ieee))
  }

  /** Every record once, in order. */
  ghost predicate Listing(reg: Reg, keys: seq<string>) {
    && (forall k | k in keys :: k in reg)
    && (forall k | k in reg :: k in keys)
    && (forall i, j | 0 <= i < j < |keys| :: keys[i] != keys[j] && Before(reg[keys[i]], reg[keys[j]]))
  }

  lemma BeforeOrders(a: Rec, b: Rec, c: Rec)
    ensures !(Before(a, b) && Before(b, a))
    ensures a.ieee != b.ieee ==> Before(a, b) || Before(b, a)
    ensures Before(a, b) && Before(b, c) ==> Before(a, c)
  {
    LessTotal(a.ieee, b.ieee);
    if Less(a.ieee, b.ieee) && Less(b.ieee, c.ieee) {
      LessTransitive(a.ieee, b.ieee, c.ieee);
    }
  }

  lemma SameHead(reg: Reg, one: seq<string>, two: seq<string>)
    requires Listing(reg, one) && Listing(reg, two) && one != []
    ensures two != [] && one[0] == two[0]
  {
    assert one[0] in reg && two[0] in reg;
    var i :| 0 <= i < |two| && two[i] == one[0];
    var j :| 0 <= j < |one| && one[j] == two[0];
    assert i == 0 || Before(reg[two[0]], reg[two[i]]);
    assert j == 0 || Before(reg[one[0]], reg[one[j]]);
    BeforeOrders(reg[one[0]], reg[two[0]], reg[two[0]]);
  }

  lemma ListingTail(reg: Reg, keys: seq<string>)
    requires Listing(reg, keys) && keys != []
    ensures Listing(reg - {keys[0]}, keys[1..])
  {
  }

  /** There is only one listing of a registry. */
  lemma {:induction false} ListingUnique(reg: Reg, one: seq<string>, two: seq<string>)
    requires Listing(reg, one) && Listing(reg, two)
    ensures one == two
    decreases |one|
  {
    assert two == [] || two[0] in reg;
    if one != [] {
      SameHead(reg, one, two);
      ListingTail(reg, one);
      ListingTail(reg, two);
      ListingUnique(reg - {one[0]}, one[1..], two[1..]);
    }
  }

  /** A record that answered for itself, of the same make and model, with structure to lend. */
  predicate Candidate(d: Rec, manufacturer: string, model: string, exclude: string) {
    && d.ieee != exclude && Identified(d.ieee) && d.inheritedFrom == ""
    && d.manufacturer == manufacturer && d.model == model
    && d.endpoints != [] && d.interviewed != 0
  }

  /** The more recent interview wins, the address breaking a tie. */
  predicate Better(a: Rec, b: Rec) {
    a.interviewed > b.interviewed || (a.interviewed == b.interviewed && Less(a.ieee, b.ieee))
  }

  ghost predicate IsPeer(reg: Reg, manufacturer: string, model: string, exclude: string, peer: Option<string>) {
    match peer
    case Some(p) =>
      && model != "" && p in reg && Candidate(reg[p], manufacturer, model, exclude)
      && forall k | k in reg && Candidate(reg[k], manufacturer, model, exclude) :: !Better(reg[k], reg[p])
    case None =>
      model == "" || forall k | k in reg :: !Candidate(reg[k], manufacturer, model, exclude)
  }

  /** The nominated peer is settled by the registry alone. */
  lemma PeerUnique(reg: Reg, manufacturer: string, model: string, exclude: string, p: Option<string>, q: Option<string>)
    requires Keyed(reg)
    requires IsPeer(reg, manufacturer, model, exclude, p) && IsPeer(reg, manufacturer, model, exclude, q)
    ensures p == q
  {
    if p.Some? && q.Some? {
      LessTotal(reg[p.value].ieee, reg[q.value].ieee);
    }
  }
}
