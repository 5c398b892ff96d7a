/** The string functions that registry and prompt rely on, over ASCII. */
module Text {
  import opened Wrappers

  function LowerChar(c: char): char {
    if 'A' <= c <= 'Z' then c - 'A' + 'a' else c
  }

  function UpperChar(c: char): char {
    if 'a' <= c <= 'z' then c - 'a' + 'A' else c
  }

  function Lower(s: string): (r: string)
    ensures |r| == |s|
  {
    seq(|s|, i requires 0 <= i < |s| => LowerChar(s[i]))
  }

  function Upper(s: string): (r: string)
    ensures |r| == |s|
  {
    seq(|s|, i requires 0 <= i < |s| => UpperChar(s[i]))
  }

  predicate EqualFold(a: string, b: string) {
    Lower(a) == Lower(b)
  }

  predicate IsSpace(c: char) {
    c == ' ' || '\t' <= c <= '\r'
  }

  predicate IsControl(c: char) {
    c < ' ' || c == 127 as char
  }

  predicate Contains(s: string, part: string) {
    part <= s || (s != "" && Contains(s[1..], part))
  }

  /** Byte order, as Go compares strings. */
  predicate Less(a: string, b: string) {
    if b == [] then false
    else if a == [] then true
    else a[0] < b[0] || (a[0] == b[0] && Less(a[1..], b[1..]))
  }

  lemma {:induction false} LessIrreflexive(a: string)
    ensures !Less(a, a)
  {
    if a != [] {
      LessIrreflexive(a[1..]);
    }
  }

  lemma {:induction false} LessTotal(a: string, b: string)
    ensures a == b || Less(a, b) || Less(b, a)
    ensures !(Less(a, b) && Less(b, a)) && !Less(a, a)
  {
    if a != [] && b != [] {
      LessTotal(a[1..], b[1..]);
      assert a == [a[0]] + a[1..] && b == [b[0]] + b[1..];
    }
    if a != [] {
      LessIrreflexive(a);
    }
  }

  lemma {:induction false} LessTransitive(a: string, b: string, c: string)
    requires Less(a, b) && Less(b, c)
    ensures Less(a, c)
  {
    if a != [] && a[0] == b[0] == c[0] {
      LessTransitive(a[1..], b[1..], c[1..]);
    }
  }

  // ----- Numbers in hex.

  function HexDigit(c: char): Option<nat> {
    if '0' <= c <= '9' then Some((c - '0') as nat)
    else if 'a' <= c <= 'f' then Some((c - 'a') as nat + 10)
    else if 'A' <= c <= 'F' then Some((c - 'A') as nat + 10)
    else None
  }

  function HexValue(s: string): Option<nat> {
    if s == [] then Some(0)
    else
      match (HexValue(s[..|s| - 1]), HexDigit(s[|s| - 1]))
      case (Some(v), Some(d)) => Some(16 * v + d)
      case _ => None
  }

  lemma {:induction false} HexDigitsOnly(s: string)
    requires HexValue(s).Some?
    ensures forall i | 0 <= i < |s| :: HexDigit(s[i]).Some?
  {
    if s != [] {
      HexDigitsOnly(s[..|s| - 1]);
    }
  }

  /** strconv.ParseUint(s, 16, bits), where limit is 2^bits. */
  function ParseHex(s: string, limit: nat): Option<nat> {
    if s == [] then None
    else
      match HexValue(s)
      case Some(v) => if v < limit then Some(v) else None
      case None => None
  }

  lemma {:induction false} HexIgnoresCase(a: string, b: string)
    requires EqualFold(a, b)
    ensures HexValue(a) == HexValue(b)
  {
    assert |a| == |Lower(a)| == |Lower(b)| == |b|;
    if a != [] {
      var n := |a| - 1;
      assert LowerChar(a[n]) == Lower(a)[n] == Lower(b)[n] == LowerChar(b[n]);
      assert Lower(a[..n]) == Lower(a)[..n] == Lower(b)[..n] == Lower(b[..n]);
      HexIgnoresCase(a[..n], b[..n]);
    }
  }

  lemma UpperFolds(a: string, b: string)
    ensures Upper(a) == b ==> EqualFold(a, b)
    ensures Upper(a) == Upper(b) <==> EqualFold(a, b)
  {
    if Upper(a) == b {
      forall i | 0 <= i < |a| ensures Lower(a)[i] == Lower(b)[i] {
        assert b[i] == UpperChar(a[i]);
      }
    }
    if Upper(a) == Upper(b) {
      forall i | 0 <= i < |a| ensures Lower(a)[i] == Lower(b)[i] {
        assert Upper(a)[i] == Upper(b)[i];
      }
    }
    if EqualFold(a, b) {
      assert |Lower(a)| == |Lower(b)|;
      forall i | 0 <= i < |a| ensures Upper(a)[i] == Upper(b)[i] {
        assert Lower(a)[i] == Lower(b)[i];
      }
    }
  }

  // ----- Splitting and joining.

  /** strings.Split on one character. */
  function Split(s: string, sep: char): (parts: seq<string>)
    ensures parts != []
  {
    if s == [] then [""]
    else
      var rest := Split(s[1..], sep);
      if s[0] == sep then [""] + rest else [[s[0]] + rest[0]] + rest[1..]
  }

  /** The ends of a string are the ends of its first and last parts, where those are not empty. */
  lemma {:induction false} SplitEnds(s: string, sep: char)
    ensures Split(s, sep)[0] != "" ==> s != "" && s[0] == Split(s, sep)[0][0]
    ensures var last := Split(s, sep)[|Split(s, sep)| - 1]; last != "" ==> s != "" && s[|s| - 1] == last[|last| - 1]
  {
    if s != "" {
      SplitEnds(s[1..], sep);
    }
  }

  lemma FoldCons(c: char, s: string, d: char, t: string)
    ensures EqualFold([c] + s, [d] + t) <==> LowerChar(c) == LowerChar(d) && EqualFold(s, t)
  {
    assert Lower([c] + s) == [LowerChar(c)] + Lower(s);
    assert Lower([d] + t) == [LowerChar(d)] + Lower(t);
    if EqualFold([c] + s, [d] + t) {
      assert Lower(s) == Lower([c] + s)[1..] == Lower([d] + t)[1..] == Lower(t);
      assert Lower([c] + s)[0] == Lower([d] + t)[0];
    }
  }

  lemma {:induction false} FoldTail(a: string, b: string)
    requires EqualFold(a, b) && a != ""
    ensures b != "" && LowerChar(a[0]) == LowerChar(b[0]) && EqualFold(a[1..], b[1..])
    ensures a[0] == ':' <==> b[0] == ':'
  {
    assert |a| == |Lower(a)| == |Lower(b)| == |b|;
    assert a == [a[0]] + a[1..] && b == [b[0]] + b[1..];
    FoldCons(a[0], a[1..], b[0], b[1..]);
  }

  /** Part by part the same, ignoring case. */
  predicate PartsFold(a: seq<string>, b: seq<string>) {
    |a| == |b| && forall i | 0 <= i < |a| :: EqualFold(a[i], b[i])
  }

  lemma {:induction false} PartsFoldCons(x: string, y: string, a: seq<string>, b: seq<string>)
    requires EqualFold(x, y) && PartsFold(a, b)
    ensures PartsFold([x] + a, [y] + b)
  {
  }

  lemma {:induction false} SplitIgnoresCase(a: string, b: string)
    requires EqualFold(a, b)
    ensures PartsFold(Split(a, ':'), Split(b, ':'))
  {
    if a != "" {
      FoldTail(a, b);
      SplitIgnoresCase(a[1..], b[1..]);
      var s, t := Split(a[1..], ':'), Split(b[1..], ':');
      if a[0] == ':' {
        PartsFoldCons("", "", s, t);
      } else {
        assert PartsFold(s[1..], t[1..]) && EqualFold(s[0], t[0]);
        FoldCons(a[0], s[0], b[0], t[0]);
        PartsFoldCons([a[0]] + s[0], [b[0]] + t[0], s[1..], t[1..]);
      }
    } else {
      assert |Lower(b)| == |b|;
    }
  }

  function SkipSpace(s: string): (r: string)
    ensures |r| <= |s| && (r == [] || !IsSpace(r[0]))
  {
    if s != [] && IsSpace(s[0]) then SkipSpace(s[1..]) else s
  }

  /** How far the word at the front reaches. */
  function WordEnd(s: string): (n: nat)
    ensures n <= |s| && forall i | 0 <= i < n :: !IsSpace(s[i])
    ensures n < |s| ==> IsSpace(s[n])
  {
    if s == [] || IsSpace(s[0]) then 0 else 1 + WordEnd(s[1..])
  }

  /** strings.Fields. */
  function Fields(s: string): seq<string>
    decreases |s|
  {
    var t := SkipSpace(s);
    if t == [] then [] else [t[..WordEnd(t)]] + Fields(t[WordEnd(t)..])
  }

  function Join(words: seq<string>): string {
    if words == [] then ""
    else if |words| == 1 then words[0]
    else words[0] + " " + Join(words[1..])
  }

  function NormalizeName(s: string): string {
    Join(Fields(s))
  }

  function TrimEnd(s: string): string {
    if s != [] && IsSpace(s[|s| - 1]) then TrimEnd(s[..|s| - 1]) else s
  }

  /** strings.TrimSpace. */
  function TrimSpace(s: string): string {
    TrimEnd(SkipSpace(s))
  }

  predicate IsWord(w: string) {
    w != "" && forall i | 0 <= i < |w| :: !IsSpace(w[i])
  }

  lemma {:induction false} FieldsAreWords(s: string)
    ensures forall w | w in Fields(s) :: IsWord(w)
    decreases |s|
  {
    var t := SkipSpace(s);
    if t != [] {
      FieldsAreWords(t[WordEnd(t)..]);
    }
  }

  lemma {:induction false} WordEndOf(w: string, rest: string)
    requires forall i | 0 <= i < |w| :: !IsSpace(w[i])
    requires rest == [] || IsSpace(rest[0])
    ensures WordEnd(w + rest) == |w|
    decreases w
  {
    if w == [] {
      assert w + rest == rest;
    } else {
      assert (w + rest)[1..] == w[1..] + rest;
      WordEndOf(w[1..], rest);
    }
  }

  lemma FieldsOfWord(w: string)
    requires IsWord(w)
    ensures Fields(w) == [w]
  {
    WordEndOf(w, []);
    assert w + [] == w && SkipSpace(w) == w && w[|w|..] == [] && w[..|w|] == w;
    assert Fields(w) == [w] + Fields([]);
  }

  lemma FieldsCons(w: string, rest: string)
    requires IsWord(w)
    ensures Fields(w + " " + rest) == [w] + Fields(rest)
  {
    var s := w + (" " + rest);
    assert w + " " + rest == s;
    WordEndOf(w, " " + rest);
    assert s[0] == w[0] && SkipSpace(s) == s && s[..|w|] == w && s[|w|..] == " " + rest;
    assert (" " + rest)[1..] == rest;
    assert SkipSpace(" " + rest) == SkipSpace(rest);
    assert Fields(s) == [w] + Fields(" " + rest);
  }

  lemma {:induction false} FieldsOfJoin(words: seq<string>)
    requires forall w | w in words :: IsWord(w)
    ensures Fields(Join(words)) == words
  {
    if words != [] {
      assert IsWord(words[0]);
      FieldsOfJoin(words[1..]);
      if |words| == 1 {
        FieldsOfWord(words[0]);
      } else {
        FieldsCons(words[0], Join(words[1..]));
      }
    }
  }

  lemma {:induction false} JoinEnds(words: seq<string>)
    requires words != [] && forall w | w in words :: IsWord(w)
    ensures var s := Join(words); s != "" && !IsSpace(s[0]) && !IsSpace(s[|s| - 1])
  {
    assert IsWord(words[0]);
    if |words| > 1 {
      JoinEnds(words[1..]);
      var s, rest := Join(words), Join(words[1..]);
      assert s[0] == words[0][0] && s[|s| - 1] == rest[|rest| - 1];
    }
  }

  /** Normalizing settles a name: doing it again, or trimming, changes nothing. */
  lemma NormalizeSettles(s: string)
    ensures NormalizeName(NormalizeName(s)) == NormalizeName(s)
    ensures TrimSpace(NormalizeName(s)) == NormalizeName(s)
  {
    FieldsAreWords(s);
    FieldsOfJoin(Fields(s));
    if Fields(s) != [] {
      JoinEnds(Fields(s));
    }
  }

  /** What neither begins nor ends with a space is not trimmed. */
  lemma {:induction false} NothingToTrim(s: string)
    requires s != "" && !IsSpace(s[0]) && !IsSpace(s[|s| - 1])
    ensures TrimSpace(s) == s
  {
  }
}
