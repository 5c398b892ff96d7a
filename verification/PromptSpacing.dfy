/** Lines as people type them at the prompt: spacing between words and quotes inside them. */
module PromptSpacing {
  import opened Prompt

  /** Spaces and tabs. */
  predicate Gap(s: string) {
    forall i | 0 <= i < |s| :: s[i] == ' ' || s[i] == '\t'
  }

  /** Each word after its gap, quoted if it needs to be. */
  function Spaced(gaps: seq<string>, words: seq<string>): string
    requires |gaps| == |words|
  {
    if words == [] then "" else gaps[0] + (QuoteWord(words[0]) + Spaced(gaps[1..], words[1..]))
  }

  lemma {:induction false} GapSkipped(gap: string, s: string, at: nat)
    requires Gap(gap)
    ensures Texts(Words(gap + s, at)) == Texts(Words(s, at))
    decreases gap
  {
    if gap == "" {
      assert gap + s == s;
    } else {
      assert (gap + s)[1..] == gap[1..] + s;
      GapSkipped(gap[1..], s, at + 1);
      TextsShift(s, at + 1, at);
    }
  }

  /** Nothing follows, or a space does. */
  predicate Apart(rest: string) {
    rest == "" || IsBlank(rest[0])
  }

  lemma {:induction false} SpacedStart(gaps: seq<string>, words: seq<string>, tail: string)
    requires |gaps| == |words| && Gap(tail) && forall i | 0 <= i < |gaps| :: Gap(gaps[i]) && gaps[i] != ""
    ensures Apart(Spaced(gaps, words) + tail)
  {
    if words == [] {
      assert Spaced(gaps, words) + tail == tail;
    }
  }

  lemma {:induction false} SpacedWord(gap: string, w: string, rest: string)
    requires Gap(gap) && w != "" && '"' !in w && Apart(rest)
    ensures Texts(Words(gap + (QuoteWord(w) + rest), 0)) == [w] + Texts(Words(rest, 0))
  {
    hide Words, QuoteWord, Gap;
    var n := |QuoteWord(w)|;
    GapSkipped(gap, QuoteWord(w) + rest, 0);
    QuotedWord(w, rest, 0);
    TextsCons(Word(w, 0, n, false), Words(rest, n));
    TextsShift(rest, n, 0);
  }

  lemma FourParts(a: string, b: string, c: string, d: string)
    ensures a + (b + c) + d == a + (b + (c + d))
  {
  }

  lemma NoWords()
    ensures Texts(Words("", 0)) == []
  {
  }

  /** Any spaces and tabs before, between and after words without quotes of their own keep them
      apart, and nothing else does. */
  lemma {:induction false} SpacingReadsBack(gaps: seq<string>, words: seq<string>, tail: string)
    requires |gaps| == |words| && Gap(tail)
    requires forall i | 0 <= i < |gaps| :: Gap(gaps[i]) && (i > 0 ==> gaps[i] != "")
    requires forall w | w in words :: w != "" && '"' !in w
    ensures Texts(Words(Spaced(gaps, words) + tail, 0)) == words
    decreases |words|
  {
    hide Words, Gap, Apart, QuoteWord;
    if words == [] {
      GapSkipped(tail, "", 0);
      assert Spaced(gaps, words) + tail == tail + "";
      NoWords();
    } else {
      var rest := Spaced(gaps[1..], words[1..]);
      assert words[0] in words && forall w | w in words[1..] :: w in words;
      SpacedStart(gaps[1..], words[1..], tail);
      FourParts(gaps[0], QuoteWord(words[0]), rest, tail);
      SpacedWord(gaps[0], words[0], rest + tail);
      SpacingReadsBack(gaps[1..], words[1..], tail);
    }
  }

  lemma {:induction false} SpanBareThen(w: string, x: string)
    requires !NeedsQuotes(w)
    ensures Span(w + x, false) == |w| + Span(x, false)
  {
    if w == "" {
      assert w + x == x;
    } else {
      assert w[0] in w && (w + x)[1..] == w[1..] + x;
      SpanBareThen(w[1..], x);
    }
  }

  lemma {:induction false} SpanQuotedThen(w: string, x: string)
    requires '"' !in w
    ensures Span(w + ("\"" + x), true) == |w| + 1 + Span(x, false)
  {
    if w == "" {
      assert w + ("\"" + x) == "\"" + x && ("\"" + x)[1..] == x;
    } else {
      assert (w + ("\"" + x))[1..] == w[1..] + ("\"" + x);
      SpanQuotedThen(w[1..], x);
    }
  }

  lemma {:induction false} UnquotedSum(a: string, b: string, q: bool)
    ensures Unquoted(a + b) == Unquoted(a) + Unquoted(b)
    ensures Inside(a + b, q) == Inside(b, Inside(a, q))
  {
    if a == "" {
      assert a + b == b;
    } else {
      assert (a + b)[1..] == a[1..] + b;
      UnquotedSum(a[1..], b, q != (a[0] == '"'));
    }
  }

  /** A word with a quoted piece in the middle of it. */
  function Pieces(a: string, b: string, c: string): string {
    a + ("\"" + (b + ("\"" + c)))
  }

  lemma {:induction false} PiecesSpan(a: string, b: string, c: string, rest: string)
    requires !NeedsQuotes(a) && '"' !in b && !NeedsQuotes(c) && Apart(rest)
    ensures Span(Pieces(a, b, c) + rest, false) == |Pieces(a, b, c)|
  {
    hide NeedsQuotes;
    var after := b + ("\"" + (c + rest));
    assert Pieces(a, b, c) + rest == a + ("\"" + after);
    SpanBareThen(a, "\"" + after);
    assert ("\"" + after)[1..] == after;
    SpanQuotedThen(b, c + rest);
    SpanBare(c, rest);
  }

  lemma {:induction false} QuoteText(x: string, q: bool)
    ensures Unquoted("\"" + x) == Unquoted(x) && Inside("\"" + x, q) == Inside(x, !q)
  {
    assert ("\"" + x)[1..] == x;
  }

  lemma {:induction false} PiecesText(a: string, b: string, c: string)
    requires '"' !in a && '"' !in b && '"' !in c
    ensures Unquoted(Pieces(a, b, c)) == a + b + c && !Inside(Pieces(a, b, c), false)
  {
    hide Unquoted, Inside;
    var after := b + ("\"" + c);
    UnquotedSum(a, "\"" + after, false);
    QuoteText(after, false);
    UnquotedSum(b, "\"" + c, true);
    QuoteText(c, true);
    PlainText(a, false);
    PlainText(b, true);
    PlainText(c, false);
    assert a + (b + c) == a + b + c;
  }

  /** Quotes may open and close inside a word: they go, and the blanks between them stay. */
  lemma {:induction false} QuotesInsideWord(a: string, b: string, c: string, rest: string, at: nat)
    requires !NeedsQuotes(a) && '"' !in b && !NeedsQuotes(c) && Apart(rest)
    ensures var x := Pieces(a, b, c);
      Words(x + rest, at) == [Word(a + b + c, at, at + |x|, false)] + Words(rest, at + |x|)
  {
    hide Unquoted, Inside, Span, Words;
    var x := Pieces(a, b, c);
    PiecesSpan(a, b, c, rest);
    PiecesText(a, b, c);
    assert x[0] == (if a == "" then '"' else a[0]) && (a == "" || a[0] in a);
    assert (x + rest)[..|x|] == x && (x + rest)[|x|..] == rest;
    FirstWordHeads(x + rest, at, |x|);
  }

  lemma {:induction false} SpanUnclosed(b: string)
    requires '"' !in b
    ensures Span(b, true) == |b|
  {
    if b != "" {
      SpanUnclosed(b[1..]);
    }
  }

  lemma {:induction false} UnclosedText(a: string, b: string)
    requires '"' !in a && '"' !in b
    ensures Unquoted(a + ("\"" + b)) == a + b && Inside(a + ("\"" + b), false)
  {
    hide Unquoted, Inside;
    UnquotedSum(a, "\"" + b, false);
    QuoteText(b, false);
    PlainText(a, false);
    PlainText(b, true);
  }

  lemma NothingLeft(at: nat)
    ensures Words("", at) == []
  {
  }

  /** A quote that never closes takes all that follows into its word, which is left open. */
  lemma {:induction false} UnclosedQuote(a: string, b: string, at: nat)
    requires !NeedsQuotes(a) && '"' !in b
    ensures var x := a + ("\"" + b); Words(x, at) == [Word(a + b, at, at + |x|, true)]
  {
    hide Unquoted, Inside, Words;
    var x := a + ("\"" + b);
    SpanBareThen(a, "\"" + b);
    assert ("\"" + b)[1..] == b;
    SpanUnclosed(b);
    UnclosedText(a, b);
    assert x[0] == (if a == "" then '"' else a[0]) && (a == "" || a[0] in a);
    assert x[..|x|] == x && x[|x|..] == "";
    FirstWordHeads(x, at, |x|);
    NothingLeft(at + |x|);
  }
}
