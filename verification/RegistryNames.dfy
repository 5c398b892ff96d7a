/** What naming makes of the words a user typed, and what a stored name can look like. */
module RegistryNames {
  import opened Text
  import opened Registry
  import opened Wrappers

  predicate Blanks(s: string) {
    forall i | 0 <= i < |s| :: IsSpace(s[i])
  }

  /** Words as they were typed, each after its white space. */
  function Typed(gaps: seq<string>, words: seq<string>): string
    requires |gaps| == |words|
  {
    if words == [] then "" else gaps[0] + (words[0] + Typed(gaps[1..], words[1..]))
  }

  lemma {:induction false} BlanksSkipped(gap: string, s: string)
    requires Blanks(gap)
    ensures SkipSpace(gap + s) == SkipSpace(s)
  {
    if gap == "" {
      assert gap + s == s;
    } else {
      assert (gap + s)[1..] == gap[1..] + s;
      BlanksSkipped(gap[1..], s);
    }
  }

  lemma FieldsSkip(s: string, t: string)
    requires SkipSpace(s) == SkipSpace(t)
    ensures Fields(s) == Fields(t)
  {
  }

  lemma {:induction false} FieldsFirst(gap: string, w: string, rest: string)
    requires Blanks(gap) && IsWord(w) && (rest == "" || IsSpace(rest[0]))
    ensures Fields(gap + (w + rest)) == [w] + Fields(rest)
  {
    var s := w + rest;
    BlanksSkipped(gap, s);
    FieldsSkip(gap + s, s);
    WordEndOf(w, rest);
    assert s[0] == w[0] && SkipSpace(s) == s && s[..|w|] == w && s[|w|..] == rest;
  }

  lemma FourParts(a: string, b: string, c: string, d: string)
    ensures a + (b + c) + d == a + (b + (c + d))
  {
  }

  lemma {:induction false} TypedStart(gaps: seq<string>, words: seq<string>, tail: string)
    requires |gaps| == |words| && Blanks(tail) && forall i | 0 <= i < |gaps| :: Blanks(gaps[i]) && gaps[i] != ""
    ensures var s := Typed(gaps, words) + tail; s == "" || IsSpace(s[0])
  {
    if words == [] {
      assert Typed(gaps, words) + tail == tail;
    }
  }

  lemma NoFields()
    ensures Fields("") == []
  {
  }

  lemma {:induction false} FieldsOfTyped(gaps: seq<string>, words: seq<string>, tail: string)
    requires |gaps| == |words| && Blanks(tail)
    requires forall i | 0 <= i < |gaps| :: Blanks(gaps[i]) && (i > 0 ==> gaps[i] != "")
    requires forall w | w in words :: IsWord(w)
    ensures Fields(Typed(gaps, words) + tail) == words
    decreases |words|
  {
    hide Fields, IsWord, Blanks;
    if words == [] {
      assert Typed(gaps, words) + tail == tail + "";
      BlanksSkipped(tail, "");
      FieldsSkip(tail + "", "");
      NoFields();
    } else {
      var rest := Typed(gaps[1..], words[1..]);
      assert words[0] in words && forall w | w in words[1..] :: w in words;
      TypedStart(gaps[1..], words[1..], tail);
      FourParts(gaps[0], words[0], rest, tail);
      FieldsFirst(gaps[0], words[0], rest + tail);
      FieldsOfTyped(gaps[1..], words[1..], tail);
    }
  }

  /** However the words of a name are spaced when it is given, it is stored as those words with
      one space between them. */
  lemma {:induction false} SpacesCollapse(gaps: seq<string>, words: seq<string>, tail: string)
    requires |gaps| == |words| && Blanks(tail)
    requires forall i | 0 <= i < |gaps| :: Blanks(gaps[i]) && (i > 0 ==> gaps[i] != "")
    requires forall w | w in words :: IsWord(w)
    ensures NormalizeName(Typed(gaps, words) + tail) == Join(words)
  {
    FieldsOfTyped(gaps, words, tail);
  }

  // ----- What is stored.

  /** The only white space is single spaces inside. */
  predicate Tidy(s: string) {
    s != "" && forall i | 0 <= i < |s| && IsSpace(s[i]) :: s[i] == ' ' && 0 < i < |s| - 1 && !IsSpace(s[i + 1])
  }

  lemma {:induction false} JoinIsTidy(words: seq<string>)
    requires words != [] && forall w | w in words :: IsWord(w)
    ensures Tidy(Join(words))
  {
    assert IsWord(words[0]);
    if |words| > 1 {
      var w, rest := words[0], Join(words[1..]);
      JoinIsTidy(words[1..]);
      JoinEnds(words[1..]);
      var s := w + " " + rest;
      assert forall i | 0 <= i < |w| :: s[i] == w[i];
      forall i | |w| <= i < |s| && IsSpace(s[i])
        ensures s[i] == ' ' && i < |s| - 1 && !IsSpace(s[i + 1])
      {
        if i > |w| {
          assert s[i] == rest[i - |w| - 1];
          assert s[i + 1] == rest[i - |w|];
        }
      }
    }
  }

  lemma {:induction false} TidyWord(s: string)
    requires Tidy(s)
    ensures var n := WordEnd(s);
      && n > 0 && IsWord(s[..n]) && (n < |s| ==> s[n] == ' ' && Tidy(s[n + 1..]) && s == s[..n] + " " + s[n + 1..])
  {
  }

  lemma JoinCons(w: string, rest: seq<string>)
    requires rest != []
    ensures Join([w] + rest) == w + " " + Join(rest)
  {
    assert ([w] + rest)[1..] == rest;
  }

  lemma {:induction false} TidyIsJoined(s: string)
    requires Tidy(s)
    ensures Join(Fields(s)) == s && Fields(s) != []
    decreases |s|
  {
    hide Tidy, IsWord, IsSpace;
    var n := WordEnd(s);
    TidyWord(s);
    if n < |s| {
      TidyIsJoined(s[n + 1..]);
      FieldsCons(s[..n], s[n + 1..]);
      JoinCons(s[..n], Fields(s[n + 1..]));
    } else {
      assert s[..n] == s;
      FieldsOfWord(s);
    }
  }

  /** What normalizing leaves alone. */
  lemma {:induction false} NormalIsTidy(s: string)
    ensures s != "" && NormalizeName(s) == s <==> Tidy(s)
  {
    if s != "" && NormalizeName(s) == s {
      FieldsAreWords(s);
      JoinIsTidy(Fields(s));
    }
    if Tidy(s) {
      TidyIsJoined(s);
    }
  }

  /** A name that a registry holds can be printed on one line of a listing and is no address. */
  lemma {:induction false} StoredName(reg: Reg, k: string)
    requires Sound(reg) && k in reg && reg[k].name != ""
    ensures var name := reg[k].name;
      && Tidy(name) && |name| <= 64 && (forall i | 0 <= i < |name| :: ' ' <= name[i] && name[i] as int != 127)
      && ParseNodeID(name).None? && !LooksLikeIEEE(name)
  {
    var name := reg[k].name;
    assert Settled(name);
    NormalIsTidy(name);
    assert forall i | 0 <= i < |name| :: name[i] in name;
  }

  /** What naming a device comes to, in the words given: which are refused, and why. */
  lemma {:induction false} NamingDecides(reg: Reg, ieee: string, gaps: seq<string>, words: seq<string>, tail: string,
                                         holder: Option<string>)
    requires Sound(reg) && HeldBy(reg, Join(words), holder)
    requires |gaps| == |words| && Blanks(tail)
    requires forall i | 0 <= i < |gaps| :: Blanks(gaps[i]) && (i > 0 ==> gaps[i] != "")
    requires forall w | w in words :: IsWord(w)
    ensures var refused, name := NameRefused(reg, ieee, Typed(gaps, words) + tail, holder), Join(words);
      var bad := words == [] || |name| > 64 || (exists i | 0 <= i < |name| :: name[i] < ' ' || name[i] as int == 127)
                 || ParseNodeID(name).Some? || LooksLikeIEEE(name);
      && (refused == Some(NoSuchDevice) <==> Upper(ieee) !in reg)
      && (refused == Some(BadName) <==> Upper(ieee) in reg && bad)
      && (refused == Some(NameTaken) <==>
            Upper(ieee) in reg && !bad && exists k | k in reg && k != Upper(ieee) :: Holds(reg, k, name))
  {
    var name := Join(words);
    SpacesCollapse(gaps, words, tail);
    assert forall i | 0 <= i < |name| :: name[i] in name;
    if words != [] {
      JoinEnds(words);
    }
    if Upper(ieee) in reg && ValidName(name) {
      RefusedMeansTaken(reg, ieee, Typed(gaps, words) + tail, holder);
    }
  }

  // ----- What is typed to find a device.

  lemma {:induction false} BlanksCut(s: string, tail: string)
    requires Blanks(tail) && (s == "" || !IsSpace(s[|s| - 1]))
    ensures TrimEnd(s + tail) == s
    decreases |tail|
  {
    if tail == "" {
      assert s + tail == s;
    } else {
      var n := |tail| - 1;
      assert (s + tail)[..|s + tail| - 1] == s + tail[..n] && (s + tail)[|s + tail| - 1] == tail[n];
      BlanksCut(s, tail[..n]);
    }
  }

  /** White space round a query makes no difference to it, be it an address or a name. */
  lemma {:induction false} SpacesAround(reg: Reg, gap: string, q: string, tail: string, r: Resolution)
    requires Blanks(gap) && Blanks(tail) && q != "" && !IsSpace(q[0]) && !IsSpace(q[|q| - 1])
    ensures Resolves(reg, gap + (q + tail), r) <==> Resolves(reg, q, r)
  {
    BlanksSkipped(gap, q + tail);
    assert (q + tail)[0] == q[0] && SkipSpace(q + tail) == q + tail;
    BlanksCut(q, tail);
    NothingToTrim(q);
  }

  predicate IsHexDigit(c: char) {
    '0' <= c <= '9' || 'a' <= c <= 'f' || 'A' <= c <= 'F'
  }

  lemma {:induction false} HexExactly(s: string)
    ensures HexValue(s).Some? <==> forall i | 0 <= i < |s| :: IsHexDigit(s[i])
  {
    if s != "" {
      var n := |s| - 1;
      HexExactly(s[..n]);
      assert forall i | 0 <= i < n :: s[..n][i] == s[i];
    }
  }

  /** What counts as a network address: 0x in either case and hex digits behind it, worth less
      than 65536.  Without the prefix it is a name. */
  lemma {:induction false} NodeIDExact(s: string)
    ensures ParseNodeID(s).Some? <==>
      && |s| >= 3 && s[0] == '0' && (s[1] == 'x' || s[1] == 'X') && (forall i | 2 <= i < |s| :: IsHexDigit(s[i]))
      && (HexValue(s[2..]).Some? ==> HexValue(s[2..]).value < 65536)
  {
    HexExactly(s[if |s| >= 2 then 2 else 0..]);
    if |s| >= 3 {
      var head := s[..2];
      assert Lower(head)[0] == LowerChar(s[0]) && Lower(head)[1] == LowerChar(s[1]);
      assert EqualFold(head, "0x") <==> s[0] == '0' && (s[1] == 'x' || s[1] == 'X') by {
        assert Lower("0x")[0] == '0' && Lower("0x")[1] == 'x';
        if s[0] == '0' && (s[1] == 'x' || s[1] == 'X') {
          assert Lower(head) == Lower("0x");
        }
      }
      assert forall i | 2 <= i < |s| :: s[2..][i - 2] == s[i];
      assert forall i | 0 <= i < |s| - 2 :: s[2..][i] == s[i + 2];
    }
  }

  // ----- Addresses as joins report them.

  type Octet = n: nat | n < 0x100

  /** Two hex digits a byte, %02X. */
  function TwoHex(b: Octet): string
  {
    [HexChar(b / 16), HexChar(b % 16)]
  }

  function Colons(bytes: seq<Octet>): string
  {
    if bytes == [] then ""
    else if |bytes| == 1 then TwoHex(bytes[0])
    else TwoHex(bytes[0]) + (":" + Colons(bytes[1..]))
  }

  function TwoHexes(bytes: seq<Octet>): seq<string>
  {
    if bytes == [] then [] else [TwoHex(bytes[0])] + TwoHexes(bytes[1..])
  }

  lemma {:induction false} HexCharIs(d: nat)
    requires d < 16
    ensures HexDigit(HexChar(d)) == Some(d) && HexChar(d) != ':' && UpperChar(HexChar(d)) == HexChar(d)
  {
  }

  lemma {:induction false} TwoHexIs(b: Octet)
    ensures ParseHex(TwoHex(b), 0x100) == Some(b) && ':' !in TwoHex(b) && Upper(TwoHex(b)) == TwoHex(b)
  {
    hide HexChar, HexDigit;
    HexCharIs(b / 16);
    HexCharIs(b % 16);
    var s := TwoHex(b);
    assert s[..1][..0] == "" && s[..1] == [HexChar(b / 16)];
    assert HexValue("") == Some(0);
    assert HexValue(s[..1]) == Some(b / 16);
  }

  lemma {:induction false} SplitPart(x: string, rest: string)
    requires ':' !in x
    ensures Split(x + (":" + rest), ':') == [x] + Split(rest, ':')
    ensures Split(x, ':') == [x]
  {
    if x == "" {
      assert x + (":" + rest) == ":" + rest && (":" + rest)[1..] == rest;
    } else {
      assert (x + (":" + rest))[1..] == x[1..] + (":" + rest);
      SplitPart(x[1..], rest);
      assert x == [x[0]] + x[1..];
    }
  }

  lemma {:induction false} UpperSum(a: string, b: string)
    ensures Upper(a + b) == Upper(a) + Upper(b)
  {
  }

  lemma {:induction false} ColonsSplit(bytes: seq<Octet>)
    requires bytes != []
    ensures Split(Colons(bytes), ':') == TwoHexes(bytes) && Upper(Colons(bytes)) == Colons(bytes)
  {
    hide TwoHex, Split;
    TwoHexIs(bytes[0]);
    assert TwoHexes([]) == [];
    if |bytes| == 1 {
      SplitPart(TwoHex(bytes[0]), "");
      assert bytes[1..] == [];
    } else {
      var rest := Colons(bytes[1..]);
      ColonsSplit(bytes[1..]);
      SplitPart(TwoHex(bytes[0]), rest);
      UpperSum(TwoHex(bytes[0]), ":" + rest);
      UpperSum(":", rest);
      assert Upper(":") == ":";
    }
  }

  lemma {:induction false} TwoHexesAt(bytes: seq<Octet>, i: nat)
    requires i < |bytes|
    ensures |TwoHexes(bytes)| == |bytes| && TwoHexes(bytes)[i] == TwoHex(bytes[i])
  {
    if i > 0 {
      TwoHexesAt(bytes[1..], i - 1);
    } else if |bytes| > 1 {
      TwoHexesAt(bytes[1..], 0);
    }
  }

  /** Any eight bytes, printed with colons between, are an address as the registry keeps them. */
  lemma {:induction false} PrintedIsCanonical(bytes: seq<Octet>)
    requires |bytes| == 8
    ensures Canonical(Colons(bytes))
  {
    hide TwoHex, Colons, Split, ParseHex;
    ColonsSplit(bytes);
    forall i: nat | i < 8 ensures |TwoHexes(bytes)| == 8 && ParseHex(TwoHexes(bytes)[i], 0x100).Some? {
      TwoHexesAt(bytes, i);
      TwoHexIs(bytes[i]);
    }
    TwoHexesAt(bytes, 0);
  }
}
