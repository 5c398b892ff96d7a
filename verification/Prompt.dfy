/** The prompt of cmd/gzb: splitting a line into words, quoting, and what Tab does. */
module Prompt {
  import opened Text

  predicate IsBlank(c: char) {
    c == ' ' || c == '\t'
  }

  /** One token: its text with the quotes removed, where it stood, and whether a quote
      was left open. */
  datatype Word = Word(text: string, start: nat, end: nat, open: bool)

  // ----- Tokenizing.

  /** How far the word at the front of s reaches. */
  function Span(s: string, quoted: bool): (n: nat)
    ensures n <= |s|
  {
    if s == [] || (!quoted && IsBlank(s[0])) then 0 else 1 + Span(s[1..], quoted != (s[0] == '"'))
  }

  function Unquoted(s: string): string {
    if s == [] then []
    else if s[0] == '"' then Unquoted(s[1..])
    else [s[0]] + Unquoted(s[1..])
  }

  /** Whether an odd number of quotes has been seen. */
  predicate Inside(s: string, quoted: bool) {
    if s == [] then quoted else Inside(s[1..], quoted != (s[0] == '"'))
  }

  /** The words of s, a line's text from offset at on. */
  function Words(s: string, at: nat): seq<Word>
    decreases |s|
  {
    if s == [] then []
    else if IsBlank(s[0]) then Words(s[1..], at + 1)
    else
      var n := Span(s, false);
      [Word(Unquoted(s[..n]), at, at + n, Inside(s[..n], false))] + Words(s[n..], at + n)
  }

  lemma {:induction false} SpanStep(s: string, n: nat, quoted: bool)
    requires n < |s|
    ensures Unquoted(s[..n + 1]) == Unquoted(s[..n]) + if s[n] == '"' then [] else [s[n]]
    ensures Inside(s[..n + 1], quoted) == (Inside(s[..n], quoted) != (s[n] == '"'))
  {
    if n > 0 {
      SpanStep(s[1..], n - 1, quoted != (s[0] == '"'));
      assert s[..n + 1][1..] == s[1..][..n] && s[..n][1..] == s[1..][..n - 1];
    }
  }

  lemma {:induction false} SpanFrom(s: string, n: nat, quoted: bool)
    requires n <= Span(s, quoted)
    ensures Span(s, quoted) == n + Span(s[n..], Inside(s[..n], quoted))
  {
    if n > 0 {
      SpanFrom(s[1..], n - 1, quoted != (s[0] == '"'));
      assert s[n..] == s[1..][n - 1..] && s[..n][1..] == s[1..][..n - 1];
    } else {
      assert s[0..] == s;
    }
  }

  lemma {:induction false} SpanEnds(s: string, n: nat, quoted: bool)
    requires n <= Span(s, quoted)
    ensures n < Span(s, quoted) <==> n < |s| && (Inside(s[..n], quoted) || !IsBlank(s[n]))
  {
    SpanFrom(s, n, quoted);
    assert n < |s| ==> s[n..][0] == s[n];
  }

  /** The first word of s, where s does not begin with a blank. */
  function FirstWord(s: string, at: nat): Word {
    var n := Span(s, false);
    Word(Unquoted(s[..n]), at, at + n, Inside(s[..n], false))
  }

  lemma {:induction false} FirstWordHeads(s: string, at: nat, n: nat)
    requires s != [] && !IsBlank(s[0]) && n == Span(s, false)
    ensures Words(s, at) == [FirstWord(s, at)] + Words(s[n..], at + n)
  {
  }

  /** The inner loop: the word that starts at a given place. */
  method TakeWord(line: string, start: nat) returns (w: Word)
    requires start < |line| && !IsBlank(line[start])
    ensures start < w.end <= |line|
    ensures Words(line[start..], start) == [w] + Words(line[w.end..], w.end)
  {
    var i, text, quoted := start, "", false;
    ghost var s := line[start..];
    while i < |line| && (quoted || !IsBlank(line[i]))
      invariant start <= i <= |line| && i - start <= Span(s, false)
      invariant text == Unquoted(s[..i - start]) && quoted == Inside(s[..i - start], false)
    {
      SpanEnds(s, i - start, false);
      SpanStep(s, i - start, false);
      if line[i] == '"' {
        quoted := !quoted;
      } else {
        text := text + [line[i]];
      }
      i := i + 1;
    }
    SpanEnds(s, i - start, false);
    assert s[i - start..] == line[i..];
    w := Word(text, start, i, quoted);
    FirstWordHeads(s, start, i - start);
  }

  method Tokenize(line: string) returns (words: seq<Word>)
    ensures words == Words(line, 0)
  {
    words := [];
    var i := 0;
    assert line[0..] == line;
    while i < |line|
      invariant 0 <= i <= |line|
      invariant words + Words(line[i..], i) == Words(line, 0)
    {
      if IsBlank(line[i]) {
        assert line[i..][1..] == line[i + 1..];
        i := i + 1;
        continue;
      }
      var w := TakeWord(line, i);
      words := words + [w];
      i := w.end;
    }
  }

  // ----- Quoting.

  predicate NeedsQuotes(s: string) {
    exists c | c in s :: IsBlank(c) || c == '"'
  }

  /** A candidate as the tokenizer will read it back. */
  function QuoteWord(s: string): string {
    if NeedsQuotes(s) then "\"" + s + "\"" else s
  }

  function Texts(words: seq<Word>): seq<string> {
    if words == [] then [] else [words[0].text] + Texts(words[1..])
  }

  lemma {:induction false} TextsCons(w: Word, rest: seq<Word>)
    ensures Texts([w] + rest) == [w.text] + Texts(rest)
  {
  }

  function Quoted(words: seq<string>): seq<string> {
    if words == [] then [] else [QuoteWord(words[0])] + Quoted(words[1..])
  }

  function NonEmpty(words: seq<string>): seq<string> {
    if words == [] then [] else (if words[0] == "" then [] else [words[0]]) + NonEmpty(words[1..])
  }

  /** Inside quotes everything up to the closing quote belongs to the word. */
  lemma {:induction false} SpanQuoted(w: string, rest: string)
    requires '"' !in w && (rest == [] || IsBlank(rest[0]))
    ensures Span(w + "\"" + rest, true) == |w| + 1
  {
    if w == [] {
      assert w + "\"" + rest == "\"" + rest && ("\"" + rest)[1..] == rest;
    } else {
      SpanQuoted(w[1..], rest);
      assert (w + "\"" + rest)[1..] == w[1..] + "\"" + rest;
    }
  }

  lemma {:induction false} PlainText(w: string, q: bool)
    requires '"' !in w
    ensures Unquoted(w) == w && Inside(w, q) == q
    ensures Unquoted(w + "\"") == w && Inside(w + "\"", q) == !q
  {
    if w == [] {
      assert w + "\"" == "\"" && "\""[1..] == [];
    } else {
      PlainText(w[1..], q);
      assert (w + "\"")[1..] == w[1..] + "\"";
    }
  }

  lemma {:induction false} SpanBare(w: string, rest: string)
    requires !NeedsQuotes(w) && (rest == [] || IsBlank(rest[0]))
    ensures Span(w + rest, false) == |w|
  {
    if w == [] {
      assert w + rest == rest;
    } else {
      assert w[0] in w && (w + rest)[1..] == w[1..] + rest;
      SpanBare(w[1..], rest);
    }
  }

  lemma {:induction false} QuotedSpan(w: string, rest: string)
    requires '"' !in w && (rest == [] || IsBlank(rest[0]))
    ensures Span(QuoteWord(w) + rest, false) == |QuoteWord(w)|
  {
    if NeedsQuotes(w) {
      SpanQuoted(w, rest);
      assert (QuoteWord(w) + rest)[1..] == w + "\"" + rest;
    } else {
      SpanBare(w, rest);
    }
  }

  lemma {:induction false} QuotedText(w: string)
    requires '"' !in w
    ensures Unquoted(QuoteWord(w)) == w && !Inside(QuoteWord(w), false)
  {
    PlainText(w, false);
    PlainText(w, true);
    assert NeedsQuotes(w) ==> QuoteWord(w)[1..] == w + "\"";
  }

  /** One quoted word at the front of a line. */
  lemma {:induction false} QuotedWord(w: string, rest: string, at: nat)
    requires w != "" && '"' !in w && (rest == [] || IsBlank(rest[0]))
    ensures var q := QuoteWord(w);
      Words(q + rest, at) == [Word(w, at, at + |q|, false)] + Words(rest, at + |q|)
  {
    var q := QuoteWord(w);
    var s := q + rest;
    QuotedSpan(w, rest);
    QuotedText(w);
    assert s[..|q|] == q && s[|q|..] == rest && s[0] == q[0];
    assert NeedsQuotes(w) || w[0] in w;
  }

  lemma {:induction false} FirstText(s: string, at: nat, n: nat)
    requires s != [] && !IsBlank(s[0]) && n == Span(s, false)
    ensures Texts(Words(s, at)) == [Unquoted(s[..n])] + Texts(Words(s[n..], at + n))
  {
    FirstWordHeads(s, at, n);
    TextsCons(FirstWord(s, at), Words(s[n..], at + n));
  }

  lemma {:induction false} TextsShift(s: string, at: nat, to: nat)
    ensures Texts(Words(s, at)) == Texts(Words(s, to))
    decreases |s|
  {
    if s != [] {
      if IsBlank(s[0]) {
        TextsShift(s[1..], at + 1, to + 1);
      } else {
        var n := Span(s, false);
        TextsShift(s[n..], at + n, to + n);
        FirstText(s, at, n);
        FirstText(s, to, n);
      }
    }
  }

  /** A quoted word at the front of a line, with or without more to follow. */
  lemma {:induction false} QuotedCons(w: string, rest: string, more: string)
    requires '"' !in w && (rest == more == "" || rest == " " + more)
    ensures Texts(Words(QuoteWord(w) + rest, 0)) == NonEmpty([w]) + Texts(Words(more, 0))
  {
    var q := QuoteWord(w);
    if w == "" {
      assert q + rest == rest;
    } else {
      QuotedWord(w, rest, 0);
      TextsCons(Word(w, 0, |q|, false), Words(rest, |q|));
      TextsShift(rest, |q|, 0);
    }
    if rest != "" {
      assert rest[1..] == more;
      TextsShift(more, 1, 0);
    }
  }

  lemma {:induction false} JoinQuoted(words: seq<string>, rest: string)
    requires words != [] && rest == if |words| == 1 then "" else " " + Join(Quoted(words[1..]))
    ensures Join(Quoted(words)) == QuoteWord(words[0]) + rest
  {
  }

  lemma {:induction false} NonEmptyCons(words: seq<string>)
    requires words != []
    ensures NonEmpty(words) == NonEmpty([words[0]]) + NonEmpty(words[1..])
  {
  }

  /** Reading back the quoted forms of words without quotes gives the words, but for the
      empty ones. */
  lemma {:induction false} QuotedReadsBack(words: seq<string>)
    requires forall w | w in words :: '"' !in w
    ensures Texts(Words(Join(Quoted(words)), 0)) == NonEmpty(words)
  {
    if words != [] {
      var more := Join(Quoted(words[1..]));
      var rest := if |words| == 1 then "" else " " + more;
      JoinQuoted(words, rest);
      NonEmptyCons(words);
      QuotedReadsBack(words[1..]);
      QuotedCons(words[0], rest, more);
    }
  }

  lemma {:induction false} NonEmptyAll(words: seq<string>)
    ensures |NonEmpty(words)| <= |words|
    ensures NonEmpty(words) == words <==> "" !in words
  {
    if words != [] {
      NonEmptyAll(words[1..]);
      assert words == [words[0]] + words[1..];
    }
  }

  lemma {:induction false} NoQuotesLeft(s: string)
    ensures '"' !in Unquoted(s)
  {
    if s != [] {
      NoQuotesLeft(s[1..]);
    }
  }

  lemma {:induction false} TextsUnquoted(s: string, at: nat)
    ensures forall t | t in Texts(Words(s, at)) :: '"' !in t
    decreases |s|
  {
    if s != [] {
      if IsBlank(s[0]) {
        TextsUnquoted(s[1..], at + 1);
      } else {
        var n := Span(s, false);
        TextsUnquoted(s[n..], at + n);
        NoQuotesLeft(s[..n]);
        TextsCons(Words(s, at)[0], Words(s[n..], at + n));
      }
    }
  }

  /** Quoting is undone by the tokenizer for exactly the words that are not empty and have
      no quotes of their own. */
  lemma {:induction false} QuotingRoundTrip(words: seq<string>)
    ensures Texts(Words(Join(Quoted(words)), 0)) == words <==> forall w | w in words :: w != "" && '"' !in w
  {
    NonEmptyAll(words);
    TextsUnquoted(Join(Quoted(words)), 0);
    if forall w | w in words :: '"' !in w {
      QuotedReadsBack(words);
    }
  }

  // ----- Cutting a line between its words.

  /** The text ends between words, so whatever follows it is tokenized on its own. */
  predicate Settled(s: string, at: nat) {
    var words := Words(s, at);
    words == [] || words[|words| - 1].end < at + |s|
  }

  lemma {:induction false} SpanAppend(s: string, x: string, q: bool)
    requires Span(s, q) < |s|
    ensures Span(s + x, q) == Span(s, q)
  {
    if !(!q && IsBlank(s[0])) {
      SpanAppend(s[1..], x, q != (s[0] == '"'));
      assert (s + x)[1..] == s[1..] + x;
    }
  }

  /** A first word that something follows is the same whatever comes after that. */
  lemma {:induction false} FirstWordStands(s: string, t: string, at: nat)
    requires s != [] && !IsBlank(s[0]) && Span(s, false) < |s| && s <= t
    ensures var n := Span(s, false);
      Words(t, at) == [FirstWord(s, at)] + Words(t[n..], at + n)
  {
    var n, x := Span(s, false), t[|s|..];
    assert t == s + x;
    SpanAppend(s, x, false);
    assert t[..n] == s[..n] && t[0] == s[0];
  }

  lemma {:induction false} ThreeParts(a: seq<Word>, b: seq<Word>, c: seq<Word>)
    ensures a + (b + c) == (a + b) + c
  {
  }

  lemma {:induction false} AppendAfterWord(s: string, at: nat, x: string, rest: string)
    requires s != [] && !IsBlank(s[0]) && Span(s, false) < |s| && rest == s[Span(s, false)..]
    requires Words(rest + x, at + Span(s, false)) == Words(rest, at + Span(s, false)) + Words(x, at + |s|)
    ensures Words(s + x, at) == Words(s, at) + Words(x, at + |s|)
  {
    hide Words, FirstWord, Span;
    var n := Span(s, false);
    FirstWordStands(s, s + x, at);
    FirstWordStands(s, s, at);
    assert (s + x)[n..] == rest + x;
    ThreeParts([FirstWord(s, at)], Words(rest, at + n), Words(x, at + |s|));
  }

  lemma {:induction false} SettledRest(s: string, at: nat)
    requires s != [] && !IsBlank(s[0]) && Settled(s, at)
    ensures var n := Span(s, false); n < |s| && Settled(s[n..], at + n)
  {
  }

  lemma {:induction false} SettledAppend(s: string, at: nat, x: string)
    requires Settled(s, at)
    ensures Words(s + x, at) == Words(s, at) + Words(x, at + |s|)
    decreases |s|
  {
    if s == [] {
      assert s + x == x;
    } else if IsBlank(s[0]) {
      assert (s + x)[1..] == s[1..] + x;
      SettledAppend(s[1..], at + 1, x);
    } else {
      SettledRest(s, at);
      var n := Span(s, false);
      SettledAppend(s[n..], at + n, x);
      AppendAfterWord(s, at, x, s[n..]);
    }
  }

  /** Of these words the last starts k characters into s, reaches its end, and is what the
      words before it leave. */
  predicate LastIs(s: string, at: nat, k: nat, words: seq<Word>, before: seq<Word>) {
    && k < |s| && !IsBlank(s[k]) && words != []
    && words[|words| - 1].start == at + k && words[|words| - 1].text == Unquoted(s[k..])
    && before == words[..|words| - 1]
    && (before == [] || before[|before| - 1].end < at + k)
  }

  predicate LastAt(s: string, at: nat, k: nat) {
    k < |s| && LastIs(s, at, k, Words(s, at), Words(s[..k], at))
  }

  lemma {:induction false} CutAfterBlank(s: string, at: nat, k: nat)
    requires s != [] && IsBlank(s[0]) && LastAt(s[1..], at + 1, k)
    ensures LastAt(s, at, k + 1)
  {
    assert s[..k + 1][1..] == s[1..][..k] && s[k + 1..] == s[1..][k..];
  }

  lemma {:induction false} SpanCut(s: string, k: nat, q: bool)
    requires Span(s, q) < k <= |s|
    ensures Span(s[..k], q) == Span(s, q)
  {
    if !(!q && IsBlank(s[0])) {
      SpanCut(s[1..], k - 1, q != (s[0] == '"'));
      assert s[..k][1..] == s[1..][..k - 1];
    }
  }

  lemma {:induction false} CutFirst(s: string, at: nat, n: nat, cut: string)
    requires s != [] && !IsBlank(s[0]) && n == Span(s, false) < |cut| && cut <= s
    ensures Words(cut, at) == [FirstWord(s, at)] + Words(cut[n..], at + n)
  {
    assert cut == s[..|cut|];
    SpanCut(s, |cut|, false);
    assert cut[0] == s[0] && cut[..n] == s[..n];
    FirstWordStands(cut, cut, at);
  }

  lemma {:induction false} CutWords(s: string, at: nat, n: nat, k: nat)
    requires s != [] && !IsBlank(s[0]) && n == Span(s, false) && k > 0 && n + k <= |s|
    ensures Words(s[..n + k], at) == [FirstWord(s, at)] + Words(s[n..][..k], at + n)
  {
    var cut, rest := s[..n + k], s[n..][..k];
    assert cut[n..] == rest;
    CutFirst(s, at, n, cut);
  }

  lemma {:induction false} LastIsMore(s: string, at: nat, n: nat, k: nat, w: Word, words: seq<Word>, before: seq<Word>)
    requires n < |s| && w.end == at + n && IsBlank(s[n]) && LastIs(s[n..], at + n, k, words, before)
    ensures k > 0 && LastIs(s, at, n + k, [w] + words, [w] + before)
  {
  }

  lemma {:induction false} CutAfterWord(s: string, at: nat, k: nat)
    requires s != [] && !IsBlank(s[0]) && LastAt(s[Span(s, false)..], at + Span(s, false), k)
    ensures LastAt(s, at, Span(s, false) + k)
  {
    var n := Span(s, false);
    SpanEnds(s, n, false);
    var w := FirstWord(s, at);
    LastIsMore(s, at, n, k, w, Words(s[n..], at + n), Words(s[n..][..k], at + n));
    CutWords(s, at, n, k);
    FirstWordHeads(s, at, n);
  }

  lemma {:induction false} CutLast(s: string, at: nat) returns (k: nat)
    requires Words(s, at) != [] && Words(s, at)[|Words(s, at)| - 1].end == at + |s|
    ensures LastAt(s, at, k)
    decreases |s|
  {
    if IsBlank(s[0]) {
      k := CutLast(s[1..], at + 1);
      CutAfterBlank(s, at, k);
      k := k + 1;
    } else {
      var n := Span(s, false);
      if Words(s[n..], at + n) == [] {
        k := 0;
        assert s[..n] == s && s[0..] == s && s[..0] == [];
      } else {
        k := CutLast(s[n..], at + n);
        CutAfterWord(s, at, k);
        k := n + k;
      }
    }
  }
}
