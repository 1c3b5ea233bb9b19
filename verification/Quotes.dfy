/** Where the scanner of `splitPipeline` and `splitComma` and the lexer see a quoted text end. */
module Quotes {
  import opened Wrappers
  import opened Texts
  import opened Sequences
  import opened Segmentation
  import Lexing

  /** Inside a quote. */
  ghost predicate IsOpen(s: string, quote: char, k: nat)
    requires k <= |s|
  {
    Scan(s[..k]) == Some(Scanner(Some(quote), 0))
  }

  lemma StaysOpen(s: string, quote: char, k: nat)
    requires 0 < k < |s| && IsOpen(s, quote, k) && (s[k] == quote ==> s[k - 1] == '\\')
    ensures IsOpen(s, quote, k + 1)
  {
    ScanOne(s[..k], s[k]);
    assert s[..k + 1] == s[..k] + [s[k]];
  }

  /** The scanner closes no quote before the lexer does. */
  lemma {:induction false} OpenUntilEnd(s: string, quote: char, i: nat)
    requires 0 < i <= |s| && IsQuote(quote) && IsOpen(s, quote, i) && Lexing.QuoteEnd(s, quote, i).Some?
    ensures IsOpen(s, quote, Lexing.QuoteEnd(s, quote, i).value)
    decreases |s| - i
  {
    if s[i] != quote {
      StaysOpen(s, quote, i);
      if s[i] == '\\' {
        StaysOpen(s, quote, i + 1);
        OpenUntilEnd(s, quote, i + 2);
      } else {
        OpenUntilEnd(s, quote, i + 1);
      }
    }
  }

  /** A quoted text that the lexer reads to its closing quote: the scanner sees it end there too
      exactly if the character before that quote is not a backslash; otherwise, that backslash being
      escaped itself, its quote stays open. */
  lemma QuotesAgreeExactlyWhen(s: string, end: nat)
    requires s != "" && IsQuote(s[0]) && Lexing.QuoteEnd(s, s[0], 1) == Some(end)
    ensures IsBalanced(s[..end + 1]) <==> s[end - 1] != '\\'
    ensures s[end - 1] == '\\' ==> IsOpen(s, s[0], end + 1)
  {
    assert s[..1] == "" + [s[0]];
    ScanOne("", s[0]);
    OpenUntilEnd(s, s[0], 1);
    ScanOne(s[..end], s[end]);
    assert s[..end + 1] == s[..end] + [s[end]];
  }

  /** A letter and an escaped backslash in quotes are a string to the lexer, and an open quote to the
      scanner. */
  lemma EscapedBackslashStaysOpen()
    ensures var s := "'a\\\\'"; Lexing.QuoteEnd(s, s[0], 1) == Some(4) && !IsBalanced(s)
  {
    var s := "'a\\\\'";
    assert Lexing.QuoteEnd(s, '\'', 4) == Some(4);
    assert Lexing.QuoteEnd(s, '\'', 2) == Lexing.QuoteEnd(s, '\'', 4);
    QuotesAgreeExactlyWhen(s, 4);
    assert s[..5] == s;
  }

  /******* A whole stage *******/

  function StepQuote(quote: Option<char>, before: char, c: char): Option<char> {
    if quote.Some? then if c == quote.value && before != '\\' then None else quote
    else if IsQuote(c) then Some(c) else None
  }

  /** The quote the scanner has open after a text, whatever its brackets. */
  function QuoteAfter(s: string): Option<char> {
    if s == "" then None else StepQuote(QuoteAfter(s[..|s| - 1]), Before(s), s[|s| - 1])
  }

  lemma {:induction false} QuoteIsScanned(s: string)
    requires Scan(s).Some?
    ensures Scan(s).value.quote == QuoteAfter(s)
  {
    if s != "" {
      QuoteIsScanned(s[..|s| - 1]);
    }
  }

  /** After text that leaves no quote open the scanner goes on as if there had been none. */
  lemma {:induction false} QuoteAfterClosed(a: string, b: string)
    requires QuoteAfter(a) == None
    ensures QuoteAfter(a + b) == QuoteAfter(b)
  {
    if b == "" {
      assert a + b == a;
    } else {
      var n := |b| - 1;
      assert (a + b)[..|a + b| - 1] == a + b[..n];
      QuoteAfterClosed(a, b[..n]);
    }
  }

  lemma {:induction false} NoQuoteIsClosed(s: string)
    requires forall k :: 0 <= k < |s| ==> !IsQuote(s[k])
    ensures QuoteAfter(s) == None
  {
    if s != "" {
      NoQuoteIsClosed(s[..|s| - 1]);
    }
  }

  /** No quote is open after any of the pieces. */
  ghost predicate ClosedThroughout(pieces: seq<string>) {
    forall k :: 0 <= k <= |pieces| ==> QuoteAfter(Flatten(pieces[..k])) == None
  }

  ghost predicate AllClosed(pieces: seq<string>) { forall k :: 0 <= k < |pieces| ==> QuoteAfter(pieces[k]) == None }

  /** A text cut into pieces leaves no quote open after any of them exactly if no piece does. */
  lemma PiecesCloseExactlyWhen(pieces: seq<string>)
    ensures ClosedThroughout(pieces) <==> AllClosed(pieces)
  {
    if ClosedThroughout(pieces) {
      forall k | 0 <= k < |pieces|
        ensures QuoteAfter(pieces[k]) == None
      {
        assert QuoteAfter(Flatten(pieces[..k + 1])) == None;
        FlattenOneMore(pieces, k);
        QuoteAfterClosed(Flatten(pieces[..k]), pieces[k]);
      }
    }
    if AllClosed(pieces) {
      forall k | 0 <= k <= |pieces|
        ensures QuoteAfter(Flatten(pieces[..k])) == None
      {
        FirstPiecesClose(pieces, k);
      }
    }
  }

  lemma FlattenOneMore(pieces: seq<string>, k: nat)
    requires k < |pieces|
    ensures Flatten(pieces[..k + 1]) == Flatten(pieces[..k]) + pieces[k]
  {
    assert pieces[..k + 1] == pieces[..k] + [pieces[k]];
    FlattenAppend(pieces[..k], [pieces[k]]);
    FlattenOne(pieces[k]);
  }

  lemma {:induction false} FirstPiecesClose(pieces: seq<string>, k: nat)
    requires k <= |pieces| && AllClosed(pieces)
    ensures QuoteAfter(Flatten(pieces[..k])) == None
  {
    if k > 0 {
      FirstPiecesClose(pieces, k - 1);
      FlattenOneMore(pieces, k - 1);
      QuoteAfterClosed(Flatten(pieces[..k - 1]), pieces[k - 1]);
    }
  }

  /** The texts of the lexer's tokens and of the spaces between them, as far as the lexer comes. */
  function TokenTexts(lit: Lexing.Literals, s: string): seq<string>
    decreases |s|
  {
    if s == "" then []
    else if IsSpace(s[0]) then [s[..1]] + TokenTexts(lit, s[1..])
    else match Lexing.FirstToken(lit, s)
      case None => []
      case Some((_, n)) => [s[..n]] + TokenTexts(lit, s[n..])
  }

  /** The tokens are cut from the input, one after the other. */
  lemma {:induction false} TextsAreInput(lit: Lexing.Literals, s: string)
    ensures Flatten(TokenTexts(lit, s)) <= s
    decreases |s|
  {
    if s != "" {
      if IsSpace(s[0]) {
        TextsAreInput(lit, s[1..]);
        PrefixOfRest(s, 1, TokenTexts(lit, s[1..]));
      } else if Lexing.FirstToken(lit, s).Some? {
        var n := Lexing.FirstToken(lit, s).value.1;
        TextsAreInput(lit, s[n..]);
        PrefixOfRest(s, n, TokenTexts(lit, s[n..]));
      }
    }
  }

  lemma PrefixOfRest(s: string, n: nat, texts: seq<string>)
    requires n <= |s| && Flatten(texts) <= s[n..]
    ensures Flatten([s[..n]] + texts) <= s
    ensures Flatten(texts) == s[n..] ==> Flatten([s[..n]] + texts) == s
  {
    assert ([s[..n]] + texts)[1..] == texts;
    assert s == s[..n] + s[n..];
  }

  /** They are all of it if the lexer accepts it. */
  lemma {:induction false} TextsAreAllInput(lit: Lexing.Literals, s: string)
    requires Lexing.Lex(lit, s).Some?
    ensures Flatten(TokenTexts(lit, s)) == s
    decreases |s|
  {
    if s != "" {
      if IsSpace(s[0]) {
        TextsAreAllInput(lit, s[1..]);
        PrefixOfRest(s, 1, TokenTexts(lit, s[1..]));
      } else {
        var n := Lexing.FirstToken(lit, s).value.1;
        TextsAreAllInput(lit, s[n..]);
        PrefixOfRest(s, n, TokenTexts(lit, s[n..]));
      }
    }
  }

  /** A quoted text from its opening quote to where the lexer closes it. */
  predicate IsQuoted(p: string) { 2 <= |p| && IsQuote(p[0]) && Lexing.QuoteEnd(p, p[0], 1) == Some(|p| - 1) }

  lemma {:induction false} QuoteEndOfPrefix(s: string, n: nat, quote: char, i: nat)
    requires Lexing.QuoteEnd(s, quote, i) == Some(n - 1) && n <= |s|
    ensures Lexing.QuoteEnd(s[..n], quote, i) == Some(n - 1)
    decreases |s| - i
  {
    if s[i] != quote {
      QuoteEndOfPrefix(s, n, quote, if s[i] == '\\' then i + 2 else i + 1);
    }
  }

  lemma {:induction false} NumberHasNoQuote(s: string, i: nat)
    requires i <= |s|
    ensures forall k :: i <= k < Lexing.NumberEnd(s, i) ==> !IsQuote(s[k])
    decreases |s| - i
  {
    if i < |s| && Lexing.InNumber(s[i]) {
      NumberHasNoQuote(s, i + 1);
    }
  }

  lemma {:induction false} WordHasNoQuote(s: string, i: nat)
    requires i <= |s|
    ensures forall k :: i <= k < Lexing.WordEnd(s, i) ==> !IsQuote(s[k])
    decreases |s| - i
  {
    if i < |s| && Lexing.InWord(s[i]) {
      WordHasNoQuote(s, i + 1);
    }
  }

  /** A token is a quoted text, or has an index in brackets, or has no quotes. */
  lemma TokenText(lit: Lexing.Literals, s: string, n: nat)
    requires s != "" && Lexing.FirstToken(lit, s).Some? && Lexing.FirstToken(lit, s).value.1 == n
    ensures 0 < n <= |s| && (IsQuote(s[0]) ==> IsQuoted(s[..n]))
    ensures !IsQuote(s[0]) && '[' !in s[..n] ==> forall k :: 0 <= k < n ==> !IsQuote(s[k])
  {
    if IsQuote(s[0]) {
      QuoteEndOfPrefix(s, n, s[0], 1);
    } else if Lexing.StartsNumber(s) {
      NumberHasNoQuote(s, 1);
    } else if Lexing.StartsWord(s[0]) {
      WordHasNoQuote(s, 1);
      var end := Lexing.WordEnd(s, 1);
      assert end < n ==> s[..n][end] == '[';
    }
  }

  /** What the pieces of the lexer are. */
  ghost predicate IsTokenText(p: string) {
    p != "" && (IsQuote(p[0]) ==> IsQuoted(p)) && (!IsQuote(p[0]) && '[' !in p ==> forall k :: 0 <= k < |p| ==> !IsQuote(p[k]))
  }

  ghost predicate AreTokenTexts(texts: seq<string>) { forall k :: 0 <= k < |texts| ==> IsTokenText(texts[k]) }

  lemma {:induction false} TextsAreTokens(lit: Lexing.Literals, s: string)
    ensures AreTokenTexts(TokenTexts(lit, s))
    decreases |s|
  {
    if s != "" {
      if IsSpace(s[0]) {
        SpaceIsPlain(s[0]);
        TextsAreTokens(lit, s[1..]);
      } else if Lexing.FirstToken(lit, s).Some? {
        var n := Lexing.FirstToken(lit, s).value.1;
        TokenText(lit, s, n);
        TextsAreTokens(lit, s[n..]);
      }
    }
  }

  /** A quoted text leaves no quote open exactly if it does not end in a backslash. */
  lemma QuotedClosesExactlyWhen(p: string)
    requires IsQuoted(p)
    ensures QuoteAfter(p) == None <==> p[|p| - 2] != '\\'
  {
    QuotesAgreeExactlyWhen(p, |p| - 1);
    assert p[..|p|] == p;
    QuoteIsScanned(p);
  }

  /** After every token of the lexer the scanner has no quote open. */
  ghost predicate AgreeOnQuotes(lit: Lexing.Literals, s: string) {
    ClosedThroughout(TokenTexts(lit, s))
  }

  /** A quoted text does not end in a backslash, and a bracketed index leaves no quote open. */
  ghost predicate ClosesItsQuotes(p: string) {
    if p != "" && IsQuote(p[0]) then 2 <= |p| && p[|p| - 2] != '\\' else '[' in p ==> QuoteAfter(p) == None
  }

  lemma TextClosesExactlyWhen(p: string)
    requires IsTokenText(p)
    ensures QuoteAfter(p) == None <==> ClosesItsQuotes(p)
  {
    if IsQuote(p[0]) {
      QuotedClosesExactlyWhen(p);
    } else if '[' !in p {
      NoQuoteIsClosed(p);
    }
  }

  ghost predicate AllCloseTheirQuotes(texts: seq<string>) { forall k :: 0 <= k < |texts| ==> ClosesItsQuotes(texts[k]) }

  lemma {:induction false} TextsCloseExactlyWhen(texts: seq<string>)
    requires AreTokenTexts(texts)
    ensures AllClosed(texts) <==> AllCloseTheirQuotes(texts)
  {
    forall k | 0 <= k < |texts|
      ensures QuoteAfter(texts[k]) == None <==> ClosesItsQuotes(texts[k])
    {
      assert IsTokenText(texts[k]);
      TextClosesExactlyWhen(texts[k]);
    }
  }

  /** Scanner and lexer agree on every quote of a stage exactly if no quoted text of it ends in a
      backslash and no bracketed index leaves a quote open. */
  lemma StageAgreesExactlyWhen(lit: Lexing.Literals, s: string)
    ensures AgreeOnQuotes(lit, s) <==> AllCloseTheirQuotes(TokenTexts(lit, s))
  {
    TextsAreTokens(lit, s);
    TextsCloseExactlyWhen(TokenTexts(lit, s));
    PiecesCloseExactlyWhen(TokenTexts(lit, s));
  }

  /** The lexer reads an index up to its first bracket: one quote in it is enough to keep the scanner's
      quote open. */
  lemma IndexStaysOpen(lit: Lexing.Literals)
    ensures var s := "a[']"; TokenTexts(lit, s) == [s] && !AgreeOnQuotes(lit, s)
  {
    var s := "a[']";
    assert Lexing.WordEnd(s, 1) == 1;
    assert Lexing.BracketEnd(s, 3) == 3 && Lexing.BracketEnd(s, 1) == Lexing.BracketEnd(s, 2) == 3;
    assert Lexing.WordWithIndex(s) == Some(4) && !Lexing.StartsNumber(s);
    assert s[..4] == s && s[4..] == "";
    assert TokenTexts(lit, s) == [s];
    assert QuoteAfter(s[..2]) == None by { NoQuoteIsClosed(s[..2]); }
    assert s[..3] == s[..2] + ['\''] && s[..3][..2] == s[..2];
    assert QuoteAfter(s[..3]) == Some('\'');
    assert s[..|s| - 1] == s[..3];
    assert QuoteAfter(s) == Some('\'');
    assert !ClosesItsQuotes([s][0]);
    StageAgreesExactlyWhen(lit, s);
  }
}
