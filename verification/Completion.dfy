/** Completion at the prompt of cmd/gzb: which candidates are offered for the word at the
    cursor, and how Tab edits the line. */
module Completion {
  import opened Text
  import opened Prompt
  import PromptSpacing
  import Registry

  // ----- Candidates.

  /** Whether a candidate starts with what was typed, ignoring case. */
  predicate Starts(c: string, typed: string) {
    Lower(typed) <= Lower(c)
  }

  /** The same letter, in either case, or the same character. */
  predicate SameLetter(a: char, b: char) {
    a == b || ('a' <= a <= 'z' && b == a - 'a' + 'A') || ('a' <= b <= 'z' && a == b - 'a' + 'A')
  }

  lemma {:induction false} StartsByLetters(c: string, typed: string)
    ensures Starts(c, typed) <==> |typed| <= |c| && forall i | 0 <= i < |typed| :: SameLetter(c[i], typed[i])
  {
    assert |Lower(c)| == |c| && |Lower(typed)| == |typed|;
    if |typed| <= |c| {
      forall i | 0 <= i < |typed| ensures SameLetter(c[i], typed[i]) <==> Lower(typed)[i] == Lower(c)[i] {
        assert Lower(typed)[i] == LowerChar(typed[i]) && Lower(c)[i] == LowerChar(c[i]);
      }
    }
  }

  function Matching(candidates: seq<string>, typed: string): seq<string> {
    if candidates == [] then []
    else
      var n := |candidates| - 1;
      Matching(candidates[..n], typed) + if Starts(candidates[n], typed) then [candidates[n]] else []
  }

  predicate Ascending(s: seq<string>) {
    forall i, j | 0 <= i < j < |s| :: Less(s[i], s[j])
  }

  lemma {:induction false} LessThanAll(x: string, s: seq<string>)
    requires Ascending(s) && s != [] && Less(x, s[0])
    ensures forall i | 0 <= i < |s| :: Less(x, s[i])
  {
    forall i | 0 <= i < |s| ensures Less(x, s[i]) {
      if i > 0 {
        LessTransitive(x, s[0], s[i]);
      }
    }
  }

  lemma Joined(a: seq<string>, b: seq<string>)
    ensures forall c :: c in a + b <==> c in a || c in b
  {
  }

  lemma {:induction false} HeadStaysLeast(s: seq<string>, x: string, rest: seq<string>)
    requires Ascending(s) && s != [] && Less(s[0], x)
    requires forall c :: c in rest <==> c in s[1..] || c == x
    ensures forall i | 0 <= i < |rest| :: Less(s[0], rest[i])
  {
    forall i | 0 <= i < |rest| ensures Less(s[0], rest[i]) {
      assert rest[i] in rest;
      if j :| 0 <= j < |s| - 1 && s[1..][j] == rest[i] {
        assert s[j + 1] == rest[i];
      }
    }
  }

  /** A string put in its place in an ascending sequence, unless it is there. */
  function Insert(s: seq<string>, x: string): (r: seq<string>)
    requires Ascending(s)
    ensures Ascending(r) && forall c :: c in r <==> c in s || c == x
  {
    if s == [] then [x]
    else if s[0] == x then s
    else if Less(x, s[0]) then
      LessThanAll(x, s);
      Joined([x], s);
      [x] + s
    else
      LessTotal(x, s[0]);
      var rest := Insert(s[1..], x);
      HeadStaysLeast(s, x, rest);
      Joined([s[0]], rest);
      Joined([s[0]], s[1..]);
      assert s == [s[0]] + s[1..];
      [s[0]] + rest
  }

  /** Sorted, with no repeats. */
  function Sorted(s: seq<string>): (r: seq<string>)
    ensures Ascending(r) && forall c :: c in r <==> c in s
  {
    if s == [] then [] else Insert(Sorted(s[..|s| - 1]), s[|s| - 1])
  }

  function Filtered(candidates: seq<string>, typed: string): seq<string> {
    Sorted(Matching(candidates, typed))
  }

  method FilterPrefix(candidates: seq<string>, typed: string) returns (out: seq<string>)
    ensures out == Filtered(candidates, typed)
  {
    var fold := Lower(typed);
    out := [];
    for i := 0 to |candidates|
      invariant out == Matching(candidates[..i], typed)
    {
      assert candidates[..i + 1][..i] == candidates[..i];
      if fold <= Lower(candidates[i]) {
        out := out + [candidates[i]];
      }
    }
    assert candidates[..|candidates|] == candidates;
    out := Sorted(out);
  }

  lemma {:induction false} MatchingMembers(candidates: seq<string>, typed: string)
    ensures forall c :: c in Matching(candidates, typed) <==> c in candidates && Starts(c, typed)
  {
    if candidates != [] {
      MatchingMembers(candidates[..|candidates| - 1], typed);
      assert candidates == candidates[..|candidates| - 1] + [candidates[|candidates| - 1]];
    }
  }

  lemma {:induction false} TailMembers(s: seq<string>)
    requires Ascending(s) && s != []
    ensures forall c :: c in s[1..] <==> c in s && c != s[0]
  {
    LessIrreflexive(s[0]);
    assert forall i | 0 < i < |s| :: s[1..][i - 1] == s[i] && Less(s[0], s[i]);
  }

  /** There is one ascending sequence of a given set of strings. */
  lemma {:induction false} AscendingUnique(s: seq<string>, t: seq<string>)
    requires Ascending(s) && Ascending(t) && forall c :: c in s <==> c in t
    ensures s == t
  {
    assert forall i | 0 <= i < |s| :: s[i] in t;
    assert forall i | 0 <= i < |t| :: t[i] in s;
    if s != [] && t != [] {
      var i, j :| 0 <= i < |t| && t[i] == s[0] && 0 <= j < |s| && s[j] == t[0];
      LessTotal(s[0], t[0]);
      assert s[0] == t[0];
      TailMembers(s);
      TailMembers(t);
      AscendingUnique(s[1..], t[1..]);
    }
  }

  /** The candidates offered are those that start with what was typed, each once, and no
      other order of them is possible. */
  lemma {:induction false} OfferedExactly(candidates: seq<string>, typed: string, out: seq<string>)
    ensures out == Filtered(candidates, typed) <==>
      Ascending(out) && forall c :: c in out <==> c in candidates && Starts(c, typed)
  {
    MatchingMembers(candidates, typed);
    if Ascending(out) && forall c :: c in out <==> c in candidates && Starts(c, typed) {
      AscendingUnique(out, Filtered(candidates, typed));
    }
  }

  // ----- How far the candidates agree.

  predicate Agreed(candidates: seq<string>, p: string) {
    forall c | c in candidates :: p <= c
  }

  ghost predicate Longest(candidates: seq<string>, p: string) {
    Agreed(candidates, p) && forall q | Agreed(candidates, q) :: q <= p
  }

  lemma {:induction false} OneMore(seen: seq<string>, c: string, next: seq<string>)
    requires next == seen + [c]
    ensures forall q {:trigger Agreed(next, q)} :: Agreed(next, q) <==> Agreed(seen, q) && q <= c
  {
    assert forall d :: d in next <==> d in seen || d == c;
    forall q ensures Agreed(next, q) <==> Agreed(seen, q) && q <= c {
      assert Agreed(next, q) ==> forall d | d in seen :: d in next && q <= d;
      assert c in next;
    }
  }

  method CommonPrefix(candidates: seq<string>) returns (prefix: string)
    ensures if candidates == [] then prefix == "" else Longest(candidates, prefix)
  {
    if candidates == [] {
      return "";
    }
    prefix := candidates[0];
    assert candidates[..1] == [candidates[0]] && candidates[0] in candidates[..1];
    for i := 1 to |candidates|
      invariant Longest(candidates[..i], prefix)
    {
      var c := candidates[i];
      ghost var seen, next := candidates[..i], candidates[..i + 1];
      OneMore(seen, c, next);
      while !(prefix <= c)
        invariant Agreed(seen, prefix)
        invariant forall q | Agreed(next, q) :: q <= prefix
        decreases |prefix|
      {
        assert forall q | Agreed(next, q) :: q <= c && q != prefix;
        prefix := prefix[..|prefix| - 1];
      }
    }
    assert candidates[..|candidates|] == candidates;
  }

  // ----- The word at the cursor.

  /** What stands before the cursor: the finished words, and the letters of the one being
      typed with the place it starts, an opening quote included. */
  datatype Cursor = Cursor(before: seq<string>, typed: string, start: nat)

  function CursorOf(line: string): Cursor {
    var words := Words(line, 0);
    var n := |words|;
    if n > 0 && words[n - 1].end == |line| then
      Cursor(Texts(words[..n - 1]), words[n - 1].text, words[n - 1].start)
    else Cursor(Texts(words), "", |line|)
  }

  lemma {:induction false} EndsWithin(s: string, at: nat)
    ensures forall i | 0 <= i < |Words(s, at)| :: Words(s, at)[i].end <= at + |s|
    decreases |s|
  {
    if s != [] {
      if IsBlank(s[0]) {
        EndsWithin(s[1..], at + 1);
      } else {
        EndsWithin(s[Span(s, false)..], at + Span(s, false));
      }
    }
  }

  lemma {:induction false} SettledEnd(line: string)
    requires Words(line, 0) == [] || Words(line, 0)[|Words(line, 0)| - 1].end != |line|
    ensures Settled(line, 0) && line[..|line|] == line && Unquoted(line[|line|..]) == ""
  {
    EndsWithin(line, 0);
  }

  /** The text before the word being typed stands on its own, and what follows is that word. */
  lemma {:induction false} CursorSettled(line: string)
    ensures var c := CursorOf(line);
      && c.start <= |line| && Settled(line[..c.start], 0)
      && Texts(Words(line[..c.start], 0)) == c.before && Unquoted(line[c.start..]) == c.typed
  {
    var words := Words(line, 0);
    if words != [] && words[|words| - 1].end == |line| {
      var k := CutLast(line, 0);
    } else {
      SettledEnd(line);
    }
  }

  // ----- Completing.

  /** What Tab can put at the cursor: where the current word starts and what it could become. */
  datatype Offer = Offer(start: nat, candidates: seq<string>)

  /** The commands, flags, devices and the rest that could follow some words, given what is
      typed of the next. */
  type Pool = (seq<string>, string) -> seq<string>

  function Completed(line: string, pool: Pool): Offer {
    var c := CursorOf(line);
    Offer(c.start, Filtered(pool(c.before, c.typed), c.typed))
  }

  method Complete(line: string, pool: Pool) returns (offer: Offer)
    ensures offer == Completed(line, pool)
  {
    var words := Tokenize(line);
    var current := Word("", |line|, |line|, false);
    var n := |words|;
    if n > 0 && words[n - 1].end == |line| {
      current := words[n - 1];
      words := words[..n - 1];
    }
    var candidates := FilterPrefix(pool(Texts(words), current.text), current.text);
    offer := Offer(current.start, candidates);
  }

  /** An unfinished candidate, quoted if any of what it may become needs it. */
  function QuotePartial(prefix: string, candidates: seq<string>): string {
    if exists c | c in candidates :: NeedsQuotes(c) then "\"" + prefix else prefix
  }

  datatype Edit = Edit(line: string, pos: nat, changed: bool, show: bool)

  function Put(head: string, x: string, tail: string): Edit {
    Edit(head + x + tail, |head| + |x|, true, false)
  }

  /** What Tab does to a line, prefix being how far the candidates agree. */
  function Tab(line: string, pos: nat, offer: Offer, prefix: string): Edit
    requires offer.start <= pos <= |line|
  {
    var head, tail := line[..offer.start], line[pos..];
    if offer.candidates == [] then Edit("", 0, false, false)
    else if |offer.candidates| == 1 then Put(head, QuoteWord(offer.candidates[0]) + " ", tail)
    else if |prefix| > |Unquoted(line[offer.start..pos])| then Put(head, QuotePartial(prefix, offer.candidates), tail)
    else Edit("", 0, false, true)
  }

  method CompleteAt(line: string, pos: nat, offer: Offer) returns (edit: Edit)
    requires offer.start <= pos <= |line|
    ensures |offer.candidates| <= 1 ==> edit == Tab(line, pos, offer, "")
    ensures |offer.candidates| > 1 ==>
      exists prefix :: Longest(offer.candidates, prefix) && edit == Tab(line, pos, offer, prefix)
  {
    if |offer.candidates| == 0 {
      return Edit("", 0, false, false);
    }
    var typed, tail := line[offer.start..pos], line[pos..];
    if |offer.candidates| == 1 {
      var replacement := QuoteWord(offer.candidates[0]) + " ";
      return Edit(line[..offer.start] + replacement + tail, offer.start + |replacement|, true, false);
    }
    var prefix := CommonPrefix(offer.candidates);
    if |prefix| > |Unquoted(typed)| {
      var partial := QuotePartial(prefix, offer.candidates);
      return Edit(line[..offer.start] + partial + tail, offer.start + |partial|, true, false);
    }
    edit := Edit("", 0, false, true);
  }

  // ----- What Tab leaves behind.

  /** Only the text between the word's start and the cursor is replaced. */
  lemma {:induction false} PutBetween(head: string, x: string, tail: string)
    ensures var e := Put(head, x, tail);
      && e.pos <= |e.line| && e.line[..e.pos] == head + x && e.line[e.pos..] == tail
      && |head| <= e.pos && e.line[..|head|] == head && e.line[|head|..e.pos] == x
  {
  }

  lemma {:induction false} TextsAppend(a: seq<Word>, w: Word)
    ensures Texts(a + [w]) == Texts(a) + [w.text]
  {
    if a == [] {
      assert a + [w] == [w] && [w][1..] == [];
    } else {
      assert (a + [w])[1..] == a[1..] + [w];
      TextsAppend(a[1..], w);
    }
  }

  /** One word typed after settled text is the word at the cursor. */
  lemma {:induction false} CursorAfter(head: string, x: string, w: Word)
    requires Settled(head, 0) && Words(x, |head|) == [w] && w.start == |head| && w.end == |head| + |x|
    ensures CursorOf(head + x) == Cursor(Texts(Words(head, 0)), w.text, |head|)
  {
    SettledAppend(head, 0, x);
    var words := Words(head, 0) + [w];
    assert words[|words| - 1] == w && words[..|words| - 1] == Words(head, 0);
  }

  /** A finished word and a space leave the cursor at a fresh word. */
  lemma {:induction false} CursorBeyond(head: string, q: string, w: Word)
    requires Settled(head, 0) && Words(q + " ", |head|) == [w] && w.end == |head| + |q|
    ensures CursorOf(head + (q + " ")) == Cursor(Texts(Words(head, 0)) + [w.text], "", |head| + |q| + 1)
  {
    SettledAppend(head, 0, q + " ");
    TextsAppend(Words(head, 0), w);
    var words := Words(head, 0) + [w];
    assert words[|words| - 1] == w;
  }

  /** Two different candidates start with what is typed. */
  predicate Choice(pool: seq<string>, typed: string) {
    exists c, d | c in pool && d in pool :: c != d && Starts(c, typed) && Starts(d, typed)
  }

  lemma {:induction false} ChoiceIsMany(pool: seq<string>, typed: string)
    ensures Filtered(pool, typed) == [] <==> forall c | c in pool :: !Starts(c, typed)
    ensures |Filtered(pool, typed)| > 1 <==> Choice(pool, typed)
  {
    var out := Filtered(pool, typed);
    OfferedExactly(pool, typed, out);
    if |out| > 1 {
      LessIrreflexive(out[0]);
      assert Less(out[0], out[1]) && out[0] in out && out[1] in out;
    }
    if Choice(pool, typed) {
      var c, d :| c in pool && d in pool && c != d && Starts(c, typed) && Starts(d, typed);
      assert c in out && d in out;
    }
    if out != [] {
      assert out[0] in out;
    }
  }

  /** Tab does nothing exactly when nothing starts with the letters typed, and shows the choices
      exactly when there are several that agree on no more letters than are typed. */
  lemma {:induction false} TabDecides(line: string, pos: nat, pool: Pool, prefix: string)
    requires pos <= |line|
    ensures var offer, c := Completed(line[..pos], pool), CursorOf(line[..pos]);
      && offer.start <= pos
      && var e, all := Tab(line, pos, offer, prefix), pool(c.before, c.typed);
      && (!e.changed && !e.show <==> forall x | x in all :: !Starts(x, c.typed))
      && (e.show <==> Choice(all, c.typed) && |prefix| <= |c.typed|)
      && !(e.changed && e.show)
  {
    var offer, c := Completed(line[..pos], pool), CursorOf(line[..pos]);
    CursorSettled(line[..pos]);
    ChoiceIsMany(pool(c.before, c.typed), c.typed);
    assert line[..pos][offer.start..] == line[offer.start..pos];
  }

  lemma {:induction false} TypedPlain(line: string)
    ensures forall w | w in CursorOf(line).before :: '"' !in w
    ensures '"' !in CursorOf(line).typed
  {
    var c := CursorOf(line);
    CursorSettled(line);
    TextsUnquoted(line[..c.start], 0);
    NoQuotesLeft(line[c.start..]);
  }

  /** The only candidate, put on the line. */
  lemma {:induction false} FinishedWord(head: string, c: string)
    requires Settled(head, 0) && c != "" && '"' !in c
    ensures CursorOf(head + (QuoteWord(c) + " ")) ==
      Cursor(Texts(Words(head, 0)) + [c], "", |head| + |QuoteWord(c)| + 1)
  {
    QuotedWord(c, " ", |head|);
    assert " "[1..] == "";
    CursorBeyond(head, QuoteWord(c), Word(c, |head|, |head| + |QuoteWord(c)|, false));
  }

  lemma {:induction false} FinishedNothing(head: string)
    requires Settled(head, 0)
    ensures CursorOf(head + (QuoteWord("") + " ")).before == Texts(Words(head, 0))
  {
    assert QuoteWord("") + " " == " " && " "[1..] == "";
    SettledAppend(head, 0, " ");
    assert Words(" ", |head|) == [] && Words(head, 0) + [] == Words(head, 0);
    EndsWithin(head, 0);
  }

  /** A device's name, quoted as Tab quotes it, is read back exactly if it has no quotes of
      its own. */
  lemma {:induction false} NameReadsBack(name: string)
    requires Registry.ValidName(name)
    ensures Texts(Words(QuoteWord(name), 0)) == [name] <==> '"' !in name
  {
    QuotingRoundTrip([name]);
    assert Quoted([name]) == [QuoteWord(name)];
    assert Join([QuoteWord(name)]) == QuoteWord(name);
  }

  /** And a device may be given a name that has. */
  lemma {:induction false} NameWithQuote() returns (name: string)
    ensures Registry.ValidName(name) && NormalizeName(name) == name
    ensures Texts(Words(QuoteWord(name), 0)) != [name]
  {
    name := "5\"";
    NameReadsBack(name);
  }

  /** When one candidate is left, Tab puts exactly that word on the line and moves on to the
      next, unless the candidate is empty or has quotes of its own. */
  lemma {:induction false} TabFinishes(line: string, pos: nat, pool: Pool, prefix: string)
    requires pos <= |line| && |Completed(line[..pos], pool).candidates| == 1
    ensures var offer := Completed(line[..pos], pool);
      var c := offer.candidates[0];
      && offer.start <= pos
      && var e := Tab(line, pos, offer, prefix);
      && e.changed && e.pos <= |e.line| && e.line[e.pos..] == line[pos..]
      && offer.start <= e.pos && e.line[..offer.start] == line[..offer.start]
      && (CursorOf(e.line[..e.pos]) == Cursor(CursorOf(line[..pos]).before + [c], "", e.pos)
          <==> c != "" && '"' !in c)
  {
    var offer := Completed(line[..pos], pool);
    var c, q := offer.candidates[0], QuoteWord(offer.candidates[0]);
    CursorSettled(line[..pos]);
    var head := line[..pos][..offer.start];
    assert head == line[..offer.start];
    PutBetween(head, q + " ", line[pos..]);
    TypedPlain(head + (q + " "));
    if c == "" {
      FinishedNothing(head);
    } else if '"' !in c {
      FinishedWord(head, c);
    } else {
      assert c in CursorOf(line[..pos]).before + [c];
    }
  }

  lemma {:induction false} SpanOpen(w: string)
    requires '"' !in w
    ensures Span(w, true) == |w|
  {
    if w != "" {
      SpanOpen(w[1..]);
    }
  }

  lemma {:induction false} PartialSpan(prefix: string, candidates: seq<string>)
    requires prefix != "" && '"' !in prefix && candidates != [] && Agreed(candidates, prefix)
    ensures var x := QuotePartial(prefix, candidates);
      x != "" && !IsBlank(x[0]) && Span(x, false) == |x| && Unquoted(x) == prefix
  {
    var x := QuotePartial(prefix, candidates);
    PlainText(prefix, true);
    PlainText(prefix, false);
    if exists c | c in candidates :: NeedsQuotes(c) {
      SpanOpen(prefix);
      assert x[1..] == prefix;
    } else {
      assert candidates[0] in candidates && !NeedsQuotes(candidates[0]);
      assert forall i | 0 <= i < |prefix| :: prefix[i] == candidates[0][i] && candidates[0][i] in candidates[0];
      SpanBare(prefix, "");
      assert prefix + "" == prefix;
    }
  }

  /** A shared prefix as Tab writes it is read back as one word, open if it is quoted. */
  lemma {:induction false} PartialWord(prefix: string, candidates: seq<string>, at: nat) returns (w: Word)
    requires prefix != "" && '"' !in prefix && candidates != [] && Agreed(candidates, prefix)
    ensures var x := QuotePartial(prefix, candidates); Words(x, at) == [w] && w == Word(prefix, at, at + |x|, w.open)
  {
    hide QuotePartial, Agreed, Span, Unquoted;
    var x := QuotePartial(prefix, candidates);
    PartialSpan(prefix, candidates);
    assert x[..|x|] == x && x[|x|..] == "";
    w := Word(prefix, at, at + |x|, Inside(x, false));
  }

  /** When several candidates agree on more than is typed, Tab puts what they agree on at
      the cursor, as the word being typed, unless it has a quote in it. */
  lemma {:induction false} TabExtends(line: string, pos: nat, pool: Pool, prefix: string)
    requires pos <= |line| && |Completed(line[..pos], pool).candidates| > 1
    requires Longest(Completed(line[..pos], pool).candidates, prefix)
    requires |prefix| > |CursorOf(line[..pos]).typed|
    ensures var offer := Completed(line[..pos], pool);
      && offer.start <= pos
      && var e := Tab(line, pos, offer, prefix);
      && e.changed && e.pos <= |e.line| && e.line[e.pos..] == line[pos..]
      && offer.start <= e.pos && e.line[..offer.start] == line[..offer.start]
      && (CursorOf(e.line[..e.pos]) == Cursor(CursorOf(line[..pos]).before, prefix, offer.start)
          <==> '"' !in prefix)
  {
    var offer := Completed(line[..pos], pool);
    CursorSettled(line[..pos]);
    var head, x := line[..pos][..offer.start], QuotePartial(prefix, offer.candidates);
    assert head == line[..offer.start] && line[..pos][offer.start..] == line[offer.start..pos];
    PutBetween(head, x, line[pos..]);
    TypedPlain(head + x);
    if '"' !in prefix {
      var w := PartialWord(prefix, offer.candidates, offer.start);
      CursorAfter(head, x, w);
    }
  }

  predicate SomeQuoted(candidates: seq<string>) {
    exists c | c in candidates :: NeedsQuotes(c)
  }

  /** What Tab writes of a candidate, and the rest of it typed after that. */
  lemma {:induction false} PartialAndRest(prefix: string, candidates: seq<string>, c: string)
    requires Agreed(candidates, prefix) && c in candidates
    ensures |prefix| <= |c|
    ensures QuotePartial(prefix, candidates) + c[|prefix|..] == if SomeQuoted(candidates) then "" + ("\"" + c) else c
  {
    hide NeedsQuotes;
    assert prefix <= c && prefix + c[|prefix|..] == c;
  }

  lemma {:induction false} BareWord(c: string, at: nat)
    requires c != "" && !NeedsQuotes(c) && '"' !in c
    ensures Words(c, at) == [Word(c, at, at + |c|, false)]
  {
    hide Words, Span, Unquoted, Prompt.Inside;
    QuotedWord(c, "", at);
    assert QuoteWord(c) + "" == c;
    PromptSpacing.NothingLeft(at + |c|);
  }

  lemma {:induction false} OneWord(candidates: seq<string>, c: string, x: string, at: nat)
    requires c in candidates && c != "" && '"' !in c
    requires x == if SomeQuoted(candidates) then "" + ("\"" + c) else c
    ensures Words(x, at) == [Word(c, at, at + |x|, SomeQuoted(candidates))]
  {
    hide Words;
    if SomeQuoted(candidates) {
      PromptSpacing.UnclosedQuote("", c, at);
      assert "" + c == c;
    } else {
      BareWord(c, at);
    }
  }

  lemma {:induction false} TypedOn(head: string, candidates: seq<string>, c: string, x: string)
    requires Settled(head, 0) && c in candidates && c != "" && '"' !in c
    requires x == if SomeQuoted(candidates) then "" + ("\"" + c) else c
    ensures CursorOf(head + x) == Cursor(Texts(Words(head, 0)), c, |head|)
  {
    hide Words, CursorOf, Settled, SomeQuoted;
    OneWord(candidates, c, x, |head|);
    CursorAfter(head, x, Word(c, |head|, |head| + |x|, SomeQuoted(candidates)));
  }

  lemma Regrouped(a: string, b: string, c: string)
    ensures a + b + c == a + (b + c)
  {
  }

  /** Having extended the word, one may type on to any of the candidates, blanks and all. */
  lemma {:induction false} TabLeadsOn(line: string, pos: nat, pool: Pool, prefix: string, c: string)
    requires pos <= |line| && |Completed(line[..pos], pool).candidates| > 1
    requires Longest(Completed(line[..pos], pool).candidates, prefix)
    requires |prefix| > |CursorOf(line[..pos]).typed|
    requires c in Completed(line[..pos], pool).candidates && '"' !in c
    ensures var offer := Completed(line[..pos], pool);
      && offer.start <= pos && |prefix| <= |c|
      && var e := Tab(line, pos, offer, prefix);
      e.pos <= |e.line| &&
      CursorOf(e.line[..e.pos] + c[|prefix|..]) == Cursor(CursorOf(line[..pos]).before, c, offer.start)
  {
    hide Words, CursorOf, Settled, Starts, Sorted, Matching;
    var offer := Completed(line[..pos], pool);
    CursorSettled(line[..pos]);
    var head, x := line[..pos][..offer.start], QuotePartial(prefix, offer.candidates);
    assert head == line[..offer.start] && line[..pos][offer.start..] == line[offer.start..pos];
    PutBetween(head, x, line[pos..]);
    PartialAndRest(prefix, offer.candidates, c);
    Regrouped(head, x, c[|prefix|..]);
    TypedOn(head, offer.candidates, c, x + c[|prefix|..]);
  }

  lemma {:induction false} LowerPrefix(p: string, c: string)
    requires p <= c
    ensures Lower(p) <= Lower(c)
  {
  }

  /** Filtering the same pool by what the candidates agree on keeps exactly the candidates. */
  lemma {:induction false} SameCandidates(pool: seq<string>, typed: string, prefix: string)
    requires Filtered(pool, typed) != [] && Agreed(Filtered(pool, typed), prefix) && |prefix| >= |typed|
    ensures Filtered(pool, prefix) == Filtered(pool, typed)
  {
    var was := Filtered(pool, typed);
    OfferedExactly(pool, typed, was);
    assert was[0] in was;
    LowerPrefix(prefix, was[0]);
    assert Lower(typed) <= Lower(prefix);
    forall c ensures c in was <==> c in pool && Starts(c, prefix) {
      if c in was {
        LowerPrefix(prefix, c);
      }
    }
    OfferedExactly(pool, prefix, was);
  }

  /** Extending the word loses none of the choices and adds none, and is as far as Tab goes:
      pressed again, it shows them. */
  lemma {:induction false} TabKeepsChoices(line: string, pos: nat, pool: Pool, prefix: string)
    requires pos <= |line| && |Completed(line[..pos], pool).candidates| > 1
    requires Longest(Completed(line[..pos], pool).candidates, prefix) && '"' !in prefix
    requires |prefix| > |CursorOf(line[..pos]).typed|
    requires var c := CursorOf(line[..pos]); pool(c.before, prefix) == pool(c.before, c.typed)
    ensures var offer := Completed(line[..pos], pool);
      && offer.start <= pos
      && var e := Tab(line, pos, offer, prefix);
      && e.pos <= |e.line| && Completed(e.line[..e.pos], pool) == offer
      && offer.start <= e.pos && Tab(e.line, e.pos, offer, prefix).show
  {
    var offer, c := Completed(line[..pos], pool), CursorOf(line[..pos]);
    TabExtends(line, pos, pool, prefix);
    var e := Tab(line, pos, offer, prefix);
    SameCandidates(pool(c.before, c.typed), c.typed, prefix);
    CursorSettled(e.line[..e.pos]);
    assert e.line[..e.pos][offer.start..] == e.line[offer.start..e.pos];
  }
}
