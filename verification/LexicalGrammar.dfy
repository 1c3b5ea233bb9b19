/**
 What the lexer accepts: which texts are tokens, stated without its loops, and the proof that it cuts a
 text into tokens and spaces in just the one way this allows.
*/
module LexicalGrammar {
  import opened Wrappers
  import opened Texts
  import opened Values
  import opened Sequences
  import opened Expressions
  import opened Parsing
  import opened Lexing

  /******* Token texts *******/

  predicate IsNumeral(c: char) { '0' <= c <= '9' }

  /** An ASCII letter of either case, or one of the letters up to code point 255. */
  predicate IsLatinLetter(c: char) {
    || 65 <= c as int <= 90 || 97 <= c as int <= 122 || c as int == 170 || c as int == 181 || c as int == 186
    || 192 <= c as int <= 214 || 216 <= c as int <= 246 || 248 <= c as int <= 255
  }

  predicate InNumeral(c: char) { IsNumeral(c) || c == '.' }

  predicate InName(c: char) { IsLatinLetter(c) || IsNumeral(c) || c == '_' || c == '.' }

  /** A character of a quoted text: any but the quote and the backslash, or any after a backslash. */
  predicate IsUnit(unit: string, quote: char) {
    (|unit| == 1 && unit[0] != quote && unit[0] != '\\') || (|unit| == 2 && unit[0] == '\\')
  }

  ghost predicate AreUnits(units: seq<string>, quote: char) { forall i :: 0 <= i < |units| ==> IsUnit(units[i], quote) }

  ghost predicate IsQuoted(text: string, body: string) {
    && |text| >= 2 && (text[0] == '\'' || text[0] == '"') && text == [text[0]] + body + [text[0]]
    && exists units: seq<string> :: AreUnits(units, text[0]) && body == Flatten(units)
  }

  /** The characters, double quotes after a backslash. */
  function Escaped(body: string): string {
    if body == "" then "" else (if body[0] == '"' then "\\\"" else [body[0]]) + Escaped(body[1..])
  }

  /** The text that is given to `Unquote`. */
  function Raw(text: string, body: string): string {
    if text != "" && text[0] == '\'' then "\"" + Escaped(body) + "\"" else text
  }

  predicate IsNumberText(text: string) {
    && text != "" && (IsNumeral(text[0]) || (text[0] == '-' && |text| >= 2 && IsNumeral(text[1])))
    && forall i :: 1 <= i < |text| ==> InNumeral(text[i])
  }

  predicate IsName(text: string) {
    text != "" && (IsLatinLetter(text[0]) || text[0] == '_') && forall i :: 1 <= i < |text| ==> InName(text[i])
  }

  /** A name with an index in brackets, which begins with a quote and ends at the first bracket. */
  ghost predicate IsIndexed(text: string) {
    exists name: string, index: string :: HasIndex(text, name, index)
  }

  predicate HasIndex(text: string, name: string, index: string) {
    text == name + "[" + index + "]" && IsName(name) && index != "" && (index[0] == '\'' || index[0] == '"') && ']' !in index
  }

  predicate IsWordOf(text: string, t: Token) {
    if EqualFold(text, "true") then t == Token(BoolLiteral, text, Bool(true))
    else if EqualFold(text, "false") then t == Token(BoolLiteral, text, Bool(false))
    else if EqualFold(text, "in") then t == Token(Operator, "in", Nil)
    else if EqualFold(text, "contains") then t == Token(Operator, "contains", Nil)
    else if EqualFold(text, "starts_with") then t == Token(Operator, "starts_with", Nil)
    else if EqualFold(text, "ends_with") then t == Token(Operator, "ends_with", Nil)
    else if EqualFold(text, "exists") then t == Token(Operator, "exists", Nil)
    else t == Token(Word, text, Nil)
  }

  predicate IsStringOf(lit: Literals, raw: string, t: Token) {
    lit.unquote(raw).Some? && t == Token(StringLiteral, raw, Text(lit.unquote(raw).value))
  }

  predicate IsNumberOf(lit: Literals, text: string, t: Token) {
    lit.parse(text).Some? && t == Token(NumberLiteral, text, Number(lit.parse(text).value))
  }

  ghost predicate IsPunctuation(text: string, t: Token) {
    || (text == "(" && t == Token(LeftParen, "(", Nil)) || (text == ")" && t == Token(RightParen, ")", Nil))
    || (text == "," && t == Token(Comma, ",", Nil))
  }

  ghost predicate IsOperator(text: string, next: Option<char>, t: Token) {
    t == Token(Operator, text, Nil) && (text in {"==", "!=", ">=", "<="} || (text in {">", "<"} && next != Some('=')))
  }

  ghost predicate IsString(lit: Literals, text: string, t: Token) {
    exists body: string :: IsQuoted(text, body) && IsStringOf(lit, Raw(text, body), t)
  }

  ghost predicate IsNumber(lit: Literals, text: string, next: Option<char>, t: Token) {
    IsNumberText(text) && (next.Some? ==> !InNumeral(next.value)) && IsNumberOf(lit, text, t)
  }

  ghost predicate IsWordToken(text: string, next: Option<char>, t: Token) {
    && IsWordOf(text, t)
    && ((IsName(text) && (next.Some? ==> !InName(next.value) && next.value != '[')) || IsIndexed(text))
  }

  /** The text is a token if `next` follows it, `None` standing for the end of the input. */
  ghost predicate IsTokenText(lit: Literals, text: string, next: Option<char>, t: Token) {
    IsPunctuation(text, t) || IsOperator(text, next, t) || IsString(lit, text, t) || IsNumber(lit, text, next, t) || IsWordToken(text, next, t)
  }

  /** What follows the first `n` characters. */
  function NextOf(s: string, n: nat): Option<char> { if n < |s| then Some(s[n]) else None }

  /******* Where the scans end *******/

  lemma {:induction false} NumberEndsExactlyWhen(s: string, i: nat, n: nat)
    requires i <= n <= |s|
    ensures NumberEnd(s, i) == n <==> (forall k :: i <= k < n ==> InNumeral(s[k])) && (n < |s| ==> !InNumeral(s[n]))
    decreases |s| - i
  {
    if i < |s| && InNumeral(s[i]) {
      if i < n {
        NumberEndsExactlyWhen(s, i + 1, n);
      }
    }
  }

  lemma {:induction false} WordEndsExactlyWhen(s: string, i: nat, n: nat)
    requires i <= n <= |s|
    ensures WordEnd(s, i) == n <==> (forall k :: i <= k < n ==> InName(s[k])) && (n < |s| ==> !InName(s[n]))
    decreases |s| - i
  {
    if i < |s| && InName(s[i]) {
      if i < n {
        WordEndsExactlyWhen(s, i + 1, n);
      }
    }
  }

  lemma {:induction false} BracketEndsExactlyWhen(s: string, i: nat, n: nat)
    requires i <= n <= |s|
    ensures BracketEnd(s, i) == n <==> (forall k :: i <= k < n ==> s[k] != ']') && (n < |s| ==> s[n] == ']')
    decreases |s| - i
  {
    if i < |s| && s[i] != ']' {
      if i < n {
        BracketEndsExactlyWhen(s, i + 1, n);
      }
    }
  }

  /** Units up to the closing quote are read to it. */
  lemma {:induction false} UnitsAreRead(s: string, quote: char, i: nat, end: nat, units: seq<string>)
    requires i <= end < |s| && s[end] == quote && AreUnits(units, quote) && s[i..end] == Flatten(units)
    requires quote != '\\'
    ensures QuoteEnd(s, quote, i) == Some(end)
    decreases |units|
  {
    if units != [] {
      var unit, rest := units[0], Flatten(units[1..]);
      assert IsUnit(unit, quote) && s[i..end] == unit + rest;
      assert s[i] == s[i..end][0] == unit[0];
      var j := i + |unit|;
      assert s[j..end] == s[i..end][|unit|..] == rest;
      UnitsAreRead(s, quote, j, end, units[1..]);
    }
  }

  /** What is read to a closing quote are units. */
  lemma {:induction false} ReadIsUnits(s: string, quote: char, i: nat, end: nat) returns (units: seq<string>)
    requires QuoteEnd(s, quote, i) == Some(end)
    ensures i <= end < |s| && s[end] == quote && AreUnits(units, quote) && s[i..end] == Flatten(units)
    decreases |s| - i
  {
    units := [];
    if s[i] != quote {
      var step := if s[i] == '\\' then 2 else 1;
      units := ReadIsUnits(s, quote, i + step, end);
      var unit := s[i..i + step];
      assert s[i..end] == unit + s[i + step..end];
      units := [unit] + units;
    }
  }

  lemma {:induction false} EscapedIsReplaced(body: string)
    ensures ReplaceAll(body, "\"", "\\\"") == Escaped(body)
  {
    if body != "" {
      EscapedIsReplaced(body[1..]);
      assert HasPrefix(body, "\"") <==> body[0] == '"';
    }
  }

  /******* The first token *******/

  lemma IndexedStart(text: string)
    requires IsIndexed(text)
    ensures text != "" && (IsLatinLetter(text[0]) || text[0] == '_')
  {
    var name: string, index: string :| HasIndex(text, name, index);
    assert text[0] == name[0];
  }

  /** The kinds of tokens, by the character they begin with. */
  datatype Start = PunctuationStart | OperatorStart | QuoteStart | NumberStart | WordStart | NoStart

  function StartOf(c: char): Start {
    if c in "()," then PunctuationStart
    else if c in "=!><" then OperatorStart
    else if c == '\'' || c == '"' then QuoteStart
    else if IsNumeral(c) || c == '-' then NumberStart
    else if IsLatinLetter(c) || c == '_' then WordStart
    else NoStart
  }

  ghost predicate IsOfKind(lit: Literals, text: string, next: Option<char>, t: Token)
    requires text != ""
  {
    match StartOf(text[0])
    case PunctuationStart => IsPunctuation(text, t)
    case OperatorStart => IsOperator(text, next, t)
    case QuoteStart => IsString(lit, text, t)
    case NumberStart => IsNumber(lit, text, next, t)
    case WordStart => IsWordToken(text, next, t)
    case NoStart => false
  }

  lemma SymbolsStart(text: string, next: Option<char>, t: Token)
    ensures IsPunctuation(text, t) ==> text != "" && StartOf(text[0]).PunctuationStart?
    ensures IsOperator(text, next, t) ==> text != "" && StartOf(text[0]).OperatorStart?
  {
  }

  lemma StringStarts(lit: Literals, text: string, t: Token)
    requires IsString(lit, text, t)
    ensures text != "" && StartOf(text[0]).QuoteStart?
  {
  }

  lemma NumberStarts(lit: Literals, text: string, next: Option<char>, t: Token)
    requires IsNumber(lit, text, next, t)
    ensures text != "" && StartOf(text[0]).NumberStart?
  {
  }

  lemma WordStarts(text: string, next: Option<char>, t: Token)
    requires IsWordToken(text, next, t)
    ensures text != "" && StartOf(text[0]).WordStart?
  {
    if IsIndexed(text) {
      IndexedStart(text);
    }
  }

  /** The first character tells which kind of token a text can be. */
  lemma KindOfToken(lit: Literals, text: string, next: Option<char>, t: Token)
    ensures IsTokenText(lit, text, next, t) <==> text != "" && IsOfKind(lit, text, next, t)
  {
    SymbolsStart(text, next, t);
    if IsString(lit, text, t) {
      StringStarts(lit, text, t);
    }
    if IsNumber(lit, text, next, t) {
      NumberStarts(lit, text, next, t);
    }
    if IsWordToken(text, next, t) {
      WordStarts(text, next, t);
    }
  }

  lemma SpacesStartNothing(c: char)
    requires IsSpace(c)
    ensures StartOf(c).NoStart?
  {
  }

  ghost predicate IsFirst(lit: Literals, s: string, n: int, t: Token) {
    0 < n <= |s| && IsTokenText(lit, s[..n], NextOf(s, n), t)
  }

  lemma PunctuationFirst(lit: Literals, s: string, n: nat, t: Token)
    requires s != "" && s[0] in "(),"
    ensures FirstToken(lit, s) == Some((t, n)) <==> IsFirst(lit, s, n, t)
  {
    if 0 < n <= |s| {
      KindOfToken(lit, s[..n], NextOf(s, n), t);
      assert n == 1 ==> s[..n] == [s[0]];
    }
  }

  lemma OperatorFirst(lit: Literals, s: string, n: nat, t: Token)
    requires s != "" && s[0] in "=!><"
    ensures FirstToken(lit, s) == Some((t, n)) <==> IsFirst(lit, s, n, t)
  {
    if 0 < n <= |s| {
      KindOfToken(lit, s[..n], NextOf(s, n), t);
      assert n == 1 ==> s[..n] == [s[0]];
      assert n == 2 ==> s[..n] == [s[0], s[1]];
    }
  }

  lemma QuotedTo(s: string, end: nat) returns (body: string)
    requires s != "" && (s[0] == '\'' || s[0] == '"') && QuoteEnd(s, s[0], 1) == Some(end)
    ensures end < |s| && IsQuoted(s[..end + 1], body) && body == s[1..end] && RawString(s[..end + 1]) == Raw(s[..end + 1], body)
  {
    var units := ReadIsUnits(s, s[0], 1, end);
    body := s[1..end];
    assert s[..end + 1] == [s[0]] + body + [s[0]];
    assert s[..end + 1][1..end] == body;
    EscapedIsReplaced(body);
  }

  lemma SliceOfPrefix(s: string, n: nat, i: nat, j: nat)
    requires i <= j <= n <= |s|
    ensures s[..n][i..j] == s[i..j]
  {
  }

  lemma QuotedIsRead(s: string, n: nat, body: string)
    requires n <= |s| && IsQuoted(s[..n], body)
    ensures QuoteEnd(s, s[0], 1) == Some(n - 1) && body == s[1..n - 1]
  {
    var units: seq<string> :| AreUnits(units, s[0]) && body == Flatten(units);
    var text := s[..n];
    assert text == [s[0]] + body + [s[0]];
    assert text[1..n - 1] == body && text[n - 1] == s[n - 1];
    SliceOfPrefix(s, n, 1, n - 1);
    UnitsAreRead(s, s[0], 1, n - 1, units);
  }

  lemma StringIsRead(lit: Literals, s: string, n: nat, t: Token)
    requires s != "" && (s[0] == '\'' || s[0] == '"') && n <= |s| && IsString(lit, s[..n], t)
    ensures FirstToken(lit, s) == Some((t, n))
  {
    var body: string :| IsQuoted(s[..n], body) && IsStringOf(lit, Raw(s[..n], body), t);
    QuotedIsRead(s, n, body);
    var same := QuotedTo(s, n - 1);
  }

  lemma StringFirst(lit: Literals, s: string, n: nat, t: Token)
    requires s != "" && (s[0] == '\'' || s[0] == '"')
    ensures FirstToken(lit, s) == Some((t, n)) <==> IsFirst(lit, s, n, t)
  {
    if 0 < n <= |s| {
      KindOfToken(lit, s[..n], NextOf(s, n), t);
      if IsFirst(lit, s, n, t) {
        StringIsRead(lit, s, n, t);
      }
    }
    if FirstToken(lit, s) == Some((t, n)) {
      var body := QuotedTo(s, n - 1);
      assert IsStringOf(lit, Raw(s[..n], body), t);
    }
  }

  lemma NumberIsRead(lit: Literals, s: string)
    requires s != "" && StartsNumber(s)
    ensures StartOf(s[0]).NumberStart?
    ensures FirstToken(lit, s) ==
      var end := NumberEnd(s, 1);
      match lit.parse(s[..end]) case None => None case Some(x) => Some((Token(NumberLiteral, s[..end], Number(x)), end))
  {
  }

  lemma NumberTextOf(s: string, n: nat)
    requires s != "" && StartsNumber(s) && 0 < n <= |s|
    ensures IsNumberText(s[..n]) <==> (s[0] == '-' ==> n >= 2) && forall k :: 1 <= k < n ==> InNumeral(s[k])
  {
    var text := s[..n];
    assert text[0] == s[0] && (n >= 2 ==> text[1] == s[1]);
    assert forall k :: 1 <= k < n ==> text[k] == s[k];
  }

  lemma NumberEndsAt(s: string, n: nat)
    requires s != "" && StartsNumber(s) && 0 < n <= |s|
    ensures NumberEnd(s, 1) == n <==> IsNumberText(s[..n]) && (NextOf(s, n).Some? ==> !InNumeral(NextOf(s, n).value))
  {
    NumberEndsExactlyWhen(s, 1, n);
    NumberTextOf(s, n);
  }

  lemma NumberFirst(lit: Literals, s: string, n: nat, t: Token)
    requires s != "" && StartsNumber(s)
    ensures FirstToken(lit, s) == Some((t, n)) <==> IsFirst(lit, s, n, t)
  {
    NumberIsRead(lit, s);
    if 0 < n <= |s| {
      KindOfToken(lit, s[..n], NextOf(s, n), t);
      NumberEndsAt(s, n);
    }
  }

  lemma WordOfExactlyWhen(text: string, t: Token)
    ensures IsWordOf(text, t) <==> t == WordToken(text)
  {
    LowerKeywords();
    IsAmongMeansIn(ToLower(text), KEYWORD_OPERATORS);
  }

  lemma LowerKeywords()
    ensures forall word :: word in ["true", "false", "in", "contains", "starts_with", "ends_with", "exists"] ==> ToLower(word) == word
  {
  }

  lemma CutIndexed(s: string, end: nat, n: nat)
    requires end + 2 <= n <= |s|
    ensures s[..n] == s[..end] + [s[end]] + s[end + 1..n - 1] + [s[n - 1]]
  {
    assert s[..n] == s[..end + 1] + s[end + 1..n] && s[..end + 1] == s[..end] + [s[end]];
    assert s[end + 1..n] == s[end + 1..n - 1] + [s[n - 1]];
  }

  lemma IndexedTo(s: string, end: nat, n: nat)
    requires 1 <= end && end + 3 <= n <= |s| && s != "" && StartsWord(s[0])
    requires WordEnd(s, 1) == end && s[end] == '[' && BracketEnd(s, end) == n - 1 && (s[end + 1] == '"' || s[end + 1] == '\'')
    ensures IsIndexed(s[..n])
  {
    WordEndsExactlyWhen(s, 1, end);
    BracketEndsExactlyWhen(s, end, n - 1);
    var name, index := s[..end], s[end + 1..n - 1];
    CutIndexed(s, end, n);
    assert IsName(name) && index[0] == s[end + 1] && ']' !in index;
    assert HasIndex(s[..n], name, index);
  }

  lemma IndexedChars(s: string, n: nat, name: string, index: string)
    requires n <= |s| && s[..n] == name + "[" + index + "]"
    ensures n == |name| + |index| + 2 && s[|name|] == '[' && s[n - 1] == ']' && (index != "" ==> s[|name| + 1] == index[0])
    ensures s[..|name|] == name && s[|name| + 1..n - 1] == index
  {
    var text := s[..n];
    assert text[|name|] == '[' && text[n - 1] == ']';
    assert text[..|name|] == name && text[|name| + 1..n - 1] == index;
    assert s[..|name|] == text[..|name|] && s[|name| + 1..n - 1] == text[|name| + 1..n - 1];
    assert index != "" ==> text[|name| + 1] == index[0];
  }

  lemma IndexedIsRead(s: string, n: nat)
    requires n <= |s| && IsIndexed(s[..n])
    ensures WordWithIndex(s) == Some(n)
  {
    var name: string, index: string :| HasIndex(s[..n], name, index);
    var end := |name|;
    IndexedChars(s, n, name, index);
    NameIsRead(s, end);
    IndexIsRead(s, end, n - 1);
  }

  lemma NameIsRead(s: string, end: nat)
    requires end < |s| && IsName(s[..end]) && s[end] == '['
    ensures StartsWord(s[0]) && WordEnd(s, 1) == end
  {
    assert forall k :: 0 <= k < end ==> s[k] == s[..end][k];
    WordEndsExactlyWhen(s, 1, end);
  }

  lemma IndexIsRead(s: string, end: nat, close: nat)
    requires end < close < |s| && s[end] == '[' && s[close] == ']' && ']' !in s[end + 1..close]
    ensures BracketEnd(s, end) == close
  {
    forall k | end <= k < close
      ensures s[k] != ']'
    {
      assert k > end ==> s[k] == s[end + 1..close][k - end - 1];
    }
    BracketEndsExactlyWhen(s, end, close);
  }

  lemma NameEnds(s: string, n: nat)
    requires 0 < n <= |s| && StartsWord(s[0])
    ensures WordEnd(s, 1) == n <==> IsName(s[..n]) && (n < |s| ==> !InName(s[n]))
  {
    WordEndsExactlyWhen(s, 1, n);
  }

  lemma WordLengthExactlyWhen(s: string, n: nat)
    requires s != "" && StartsWord(s[0]) && 0 < n <= |s|
    ensures WordWithIndex(s) == Some(n) <==>
      (IsName(s[..n]) && (n < |s| ==> !InName(s[n]) && s[n] != '[')) || IsIndexed(s[..n])
  {
    NameEnds(s, n);
    if IsIndexed(s[..n]) {
      IndexedIsRead(s, n);
    }
    var end := WordEnd(s, 1);
    if WordWithIndex(s) == Some(n) && end < |s| && s[end] == '[' {
      IndexedTo(s, end, n);
    }
  }

  lemma WordFirst(lit: Literals, s: string, n: nat, t: Token)
    requires s != "" && StartsWord(s[0])
    ensures FirstToken(lit, s) == Some((t, n)) <==> IsFirst(lit, s, n, t)
  {
    LettersAreWords(s[0]);
    if 0 < n <= |s| {
      KindOfToken(lit, s[..n], NextOf(s, n), t);
      WordLengthExactlyWhen(s, n);
      WordOfExactlyWhen(s[..n], t);
    }
  }

  lemma LettersAreWords(c: char)
    requires StartsWord(c)
    ensures c !in "()," && c !in "=!><" && c != '\'' && c != '"' && !IsNumeral(c) && c != '-'
  {
  }

  lemma OtherFirst(lit: Literals, s: string, n: nat, t: Token)
    requires s != "" && s[0] !in "()," && s[0] !in "=!><" && s[0] != '\'' && s[0] != '"' && !StartsNumber(s) && !StartsWord(s[0])
    ensures FirstToken(lit, s).None? && !IsFirst(lit, s, n, t)
  {
    if 0 < n <= |s| {
      KindOfToken(lit, s[..n], NextOf(s, n), t);
    }
  }

  /** The lexer's first token is the one that the text begins with, if there is one. */
  lemma FirstTokenExactlyWhen(lit: Literals, s: string, n: nat, t: Token)
    requires s != ""
    ensures FirstToken(lit, s) == Some((t, n)) <==> IsFirst(lit, s, n, t)
  {
    if s[0] in "()," {
      PunctuationFirst(lit, s, n, t);
    } else if s[0] in "=!><" {
      OperatorFirst(lit, s, n, t);
    } else if s[0] == '\'' || s[0] == '"' {
      StringFirst(lit, s, n, t);
    } else if StartsNumber(s) {
      NumberFirst(lit, s, n, t);
    } else if StartsWord(s[0]) {
      WordFirst(lit, s, n, t);
    } else {
      OtherFirst(lit, s, n, t);
    }
  }

  /******* The whole text *******/

  /** A piece of a text: a space, or a token. */
  datatype Piece = Space(c: char) | Part(text: string, token: Token)

  function TextOf(p: Piece): string { if p.Space? then [p.c] else p.text }

  /** The text is these pieces, one after the other. */
  ghost predicate ArePieces(lit: Literals, s: string, pieces: seq<Piece>)
    decreases |pieces|
  {
    if pieces == [] then s == ""
    else
      var text := TextOf(pieces[0]);
      && text != "" && text <= s && ArePieces(lit, s[|text|..], pieces[1..])
      && if pieces[0].Space? then IsSpace(pieces[0].c) else IsTokenText(lit, text, NextOf(s, |text|), pieces[0].token)
  }

  function TokensIn(pieces: seq<Piece>): seq<Token> {
    if pieces == [] then []
    else (if pieces[0].Space? then [] else [pieces[0].token]) + TokensIn(pieces[1..])
  }

  lemma TokensDoNotStartWithSpaces(lit: Literals, text: string, next: Option<char>, t: Token)
    requires IsTokenText(lit, text, next, t)
    ensures text != "" && !IsSpace(text[0])
  {
    KindOfToken(lit, text, next, t);
    if IsSpace(text[0]) {
      SpacesStartNothing(text[0]);
    }
  }

  function TokenOf(p: Piece): seq<Token> { if p.Space? then [] else [p.token] }

  lemma TokensOfMore(p: Piece, pieces: seq<Piece>)
    ensures TokensIn([p] + pieces) + [EOF] == TokenOf(p) + (TokensIn(pieces) + [EOF])
  {
    assert ([p] + pieces)[1..] == pieces;
  }

  lemma PiecesOfMore(lit: Literals, s: string, p: Piece, pieces: seq<Piece>)
    requires TextOf(p) != "" && TextOf(p) <= s && ArePieces(lit, s[|TextOf(p)|..], pieces)
    requires if p.Space? then IsSpace(p.c) else IsTokenText(lit, TextOf(p), NextOf(s, |TextOf(p)|), p.token)
    ensures ArePieces(lit, s, [p] + pieces)
  {
    assert ([p] + pieces)[1..] == pieces;
  }

  lemma LexMore(lit: Literals, s: string, p: Piece, rest: Option<seq<Token>>)
    requires TextOf(p) != "" && TextOf(p) <= s && rest == Lex(lit, s[|TextOf(p)|..])
    requires if p.Space? then IsSpace(p.c) else IsTokenText(lit, TextOf(p), NextOf(s, |TextOf(p)|), p.token)
    ensures Lex(lit, s) == match rest case None => None case Some(ts) => Some(TokenOf(p) + ts)
  {
    var text := TextOf(p);
    assert s[..|text|] == text && s[0] == text[0];
    if p.Space? {
      assert rest.Some? ==> [] + rest.value == rest.value;
    } else {
      TokensDoNotStartWithSpaces(lit, text, NextOf(s, |text|), p.token);
      FirstTokenExactlyWhen(lit, s, |text|, p.token);
    }
  }

  /** What the lexer reads are the tokens of such pieces. */
  lemma {:induction false} ReadIsPieces(lit: Literals, s: string) returns (pieces: seq<Piece>)
    requires Lex(lit, s).Some?
    ensures ArePieces(lit, s, pieces)
    decreases |s|
  {
    pieces := [];
    if s != "" {
      if IsSpace(s[0]) {
        pieces := ReadIsPieces(lit, s[1..]);
        assert s[..1] == [s[0]];
        PiecesOfMore(lit, s, Space(s[0]), pieces);
        pieces := [Space(s[0])] + pieces;
      } else {
        var (t, n) := FirstToken(lit, s).value;
        FirstTokenExactlyWhen(lit, s, n, t);
        pieces := ReadIsPieces(lit, s[n..]);
        PiecesOfMore(lit, s, Part(s[..n], t), pieces);
        pieces := [Part(s[..n], t)] + pieces;
      }
    }
  }

  /** The tokens of such pieces are what the lexer reads. */
  lemma {:induction false} PiecesAreRead(lit: Literals, s: string, pieces: seq<Piece>)
    requires ArePieces(lit, s, pieces)
    ensures Lex(lit, s) == Some(TokensIn(pieces) + [EOF])
    decreases |pieces|
  {
    if pieces == [] {
      assert TokensIn(pieces) + [EOF] == [EOF];
    } else {
      var p, rest := pieces[0], pieces[1..];
      PiecesAreRead(lit, s[|TextOf(p)|..], rest);
      LexMore(lit, s, p, Lex(lit, s[|TextOf(p)|..]));
      TokensOfMore(p, rest);
      assert pieces == [p] + rest;
    }
  }

  /** The lexer answers with some tokens exactly if the text can be cut into spaces and texts of these
      tokens, each as long as what follows allows. */
  lemma LexExactlyWhen(lit: Literals, s: string, ts: seq<Token>)
    ensures Lex(lit, s) == Some(ts) <==> exists pieces: seq<Piece> :: ArePieces(lit, s, pieces) && ts == TokensIn(pieces) + [EOF]
  {
    if Lex(lit, s).Some? {
      var pieces := ReadIsPieces(lit, s);
      PiecesAreRead(lit, s, pieces);
    }
    if pieces: seq<Piece> :| ArePieces(lit, s, pieces) && ts == TokensIn(pieces) + [EOF] {
      PiecesAreRead(lit, s, pieces);
    }
  }
}
