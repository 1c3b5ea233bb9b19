/**
 The lexer of internal/dsl/expression.go.  The input is read byte by byte (a `char` below 256
 stands for a byte); what `strconv.Unquote` and `strconv.ParseFloat` make of a raw literal is
 a parameter about which nothing is assumed.
*/
module Lexing {
  import opened Wrappers
  import opened Texts
  import opened Values
  import opened Expressions
  import opened Parsing

  datatype Literals = Literals(unquote: string -> Option<string>, parse: string -> Option<real>)

  const KEYWORD_OPERATORS: seq<string> := ["in", "contains", "starts_with", "ends_with", "exists"]

  predicate IsDigit(c: char) { '0' <= c <= '9' }

  /** Letters among the first 256 code points. */
  predicate IsLetter(c: char) {
    || 'a' <= c <= 'z' || 'A' <= c <= 'Z' || c as int in {0xAA, 0xB5, 0xBA}
    || (0xC0 <= c as int <= 0xFF && c as int != 0xD7 && c as int != 0xF7)
  }

  predicate StartsWord(c: char) { IsLetter(c) || c == '_' }

  predicate InWord(c: char) { IsLetter(c) || IsDigit(c) || c == '_' || c == '.' }

  predicate InNumber(c: char) { IsDigit(c) || c == '.' }

  predicate StartsNumber(s: string) { s != "" && (IsDigit(s[0]) || (s[0] == '-' && 1 < |s| && IsDigit(s[1]))) }

  /** The first index from `i` on at which `s` leaves a class of characters. */
  function NumberEnd(s: string, i: nat): (end: nat)
    requires i <= |s|
    ensures i <= end <= |s|
    decreases |s| - i
  {
    if i < |s| && InNumber(s[i]) then NumberEnd(s, i + 1) else i
  }

  function WordEnd(s: string, i: nat): (end: nat)
    requires i <= |s|
    ensures i <= end <= |s|
    decreases |s| - i
  {
    if i < |s| && InWord(s[i]) then WordEnd(s, i + 1) else i
  }

  function BracketEnd(s: string, i: nat): (end: nat)
    requires i <= |s|
    ensures i <= end <= |s|
    decreases |s| - i
  {
    if i < |s| && s[i] != ']' then BracketEnd(s, i + 1) else i
  }

  /** Where the closing quote is; a backslash hides the character after it. */
  function QuoteEnd(s: string, quote: char, i: nat): (end: Option<nat>)
    ensures end.Some? ==> i <= end.value < |s| && s[end.value] == quote
    decreases |s| - i
  {
    if i >= |s| then None
    else if s[i] == quote then Some(i)
    else if s[i] == '\\' then QuoteEnd(s, quote, i + 2)
    else QuoteEnd(s, quote, i + 1)
  }

  /** The text given to `Unquote`: single quotes become double ones, inner double quotes are escaped. */
  function RawString(s: string): string
    requires 2 <= |s|
  {
    if s[0] == '\'' then "\"" + ReplaceAll(s[1..|s| - 1], "\"", "\\\"") + "\"" else s
  }

  function WordToken(word: string): Token {
    var lower := ToLower(word);
    if lower == "true" then Token(BoolLiteral, word, Bool(true))
    else if lower == "false" then Token(BoolLiteral, word, Bool(false))
    else if IsAmong(lower, KEYWORD_OPERATORS) then Token(Operator, lower, Nil)
    else Token(Word, word, Nil)
  }

  /** The length of the word at the start of `s`, with a quoted index if there is one. */
  function WordWithIndex(s: string): (length: Option<nat>)
    requires s != ""
    ensures length.Some? ==> 0 < length.value <= |s|
  {
    var end := WordEnd(s, 1);
    if end == |s| || s[end] != '[' then Some(end) else
    var close := BracketEnd(s, end);
    if close == |s| || close + 1 < end + 3 || (s[end + 1] != '"' && s[end + 1] != '\'') then None else Some(close + 1)
  }

  /** The token at the start of `s`, which is neither empty nor a space, and its length. */
  function FirstToken(lit: Literals, s: string): (r: Option<(Token, nat)>)
    requires s != ""
    ensures r.Some? ==> 0 < r.value.1 <= |s|
  {
    var c := s[0];
    if c == '(' then Some((Token(LeftParen, "(", Nil), 1))
    else if c == ')' then Some((Token(RightParen, ")", Nil), 1))
    else if c == ',' then Some((Token(Comma, ",", Nil), 1))
    else if c == '\'' || c == '"' then
      (match QuoteEnd(s, c, 1)
       case None => None
       case Some(end) =>
         var raw := RawString(s[..end + 1]);
         match lit.unquote(raw)
         case None => None
         case Some(text) => Some((Token(StringLiteral, raw, Text(text)), end + 1)))
    else if c in "=!><" then
      var length := if 1 < |s| && s[1] == '=' then 2 else 1;
      if s[..length] == "=" || s[..length] == "!" then None else Some((Token(Operator, s[..length], Nil), length))
    else if StartsNumber(s) then
      var end := NumberEnd(s, 1);
      (match lit.parse(s[..end])
       case None => None
       case Some(n) => Some((Token(NumberLiteral, s[..end], Number(n)), end)))
    else if StartsWord(c) then
      (match WordWithIndex(s)
       case None => None
       case Some(length) => Some((WordToken(s[..length]), length)))
    else None
  }

  /** `lexExpression`. */
  function Lex(lit: Literals, s: string): Option<seq<Token>>
    decreases |s|
  {
    if s == "" then Some([EOF])
    else if IsSpace(s[0]) then Lex(lit, s[1..])
    else
      match FirstToken(lit, s)
      case None => None
      case Some((token, length)) =>
        match Lex(lit, s[length..])
        case None => None
        case Some(tokens) => Some([token] + tokens)
  }

  /** What `Lex` answers when `done` was lexed before `s`. */
  function LexOn(lit: Literals, done: seq<Token>, s: string): Option<seq<Token>> {
    match Lex(lit, s)
    case None => None
    case Some(tokens) => Some(done + tokens)
  }

  lemma LexOnStep(lit: Literals, done: seq<Token>, s: string)
    requires s != "" && !IsSpace(s[0])
    ensures LexOn(lit, done, s) ==
      match FirstToken(lit, s) case None => None case Some((token, length)) => LexOn(lit, done + [token], s[length..])
  {
    match FirstToken(lit, s)
    case None =>
    case Some((token, length)) =>
      if Lex(lit, s[length..]).Some? {
        var tokens := Lex(lit, s[length..]).value;
        assert done + ([token] + tokens) == (done + [token]) + tokens;
      }
  }

  method ScanWord(s: string) returns (length: Option<nat>)
    requires s != ""
    ensures length == WordWithIndex(s)
  {
    var i := 1;
    while i < |s| && InWord(s[i])
      invariant 1 <= i <= |s| && WordEnd(s, 1) == WordEnd(s, i)
    {
      i := i + 1;
    }
    if i < |s| && s[i] == '[' {
      var bracket := i;
      while i < |s| && s[i] != ']'
        invariant bracket <= i <= |s| && BracketEnd(s, bracket) == BracketEnd(s, i)
      {
        i := i + 1;
      }
      if i >= |s| {
        return None;
      }
      i := i + 1;
      if bracket + 3 > i || (s[bracket + 1] != '"' && s[bracket + 1] != '\'') {
        return None;
      }
    }
    return Some(i);
  }

  /** The scan of one token, as the loops of `lexExpression` do it from index `i`. */
  method ScanToken(lit: Literals, input: string, start: nat) returns (r: Option<(Token, nat)>)
    requires start < |input|
    ensures r == FirstToken(lit, input[start..])
  {
    var s := input[start..];
    var c := s[0];
    if c == '(' {
      return Some((Token(LeftParen, "(", Nil), 1));
    }
    if c == ')' {
      return Some((Token(RightParen, ")", Nil), 1));
    }
    if c == ',' {
      return Some((Token(Comma, ",", Nil), 1));
    }
    if c == '\'' || c == '"' {
      var i := 1;
      while i < |s| && s[i] != c
        invariant QuoteEnd(s, c, 1) == QuoteEnd(s, c, i)
        decreases |s| - i
      {
        if s[i] == '\\' {
          i := i + 1;
        }
        i := i + 1;
      }
      if i >= |s| {
        return None;
      }
      var raw := RawString(s[..i + 1]);
      var text := lit.unquote(raw);
      if text.None? {
        return None;
      }
      return Some((Token(StringLiteral, raw, Text(text.value)), i + 1));
    }
    if c in "=!><" {
      var i := 1;
      if i < |s| && s[i] == '=' {
        i := i + 1;
      }
      if s[..i] == "=" || s[..i] == "!" {
        return None;
      }
      return Some((Token(Operator, s[..i], Nil), i));
    }
    if StartsNumber(s) {
      var i := 1;
      while i < |s| && InNumber(s[i])
        invariant 1 <= i <= |s| && NumberEnd(s, 1) == NumberEnd(s, i)
      {
        i := i + 1;
      }
      var n := lit.parse(s[..i]);
      if n.None? {
        return None;
      }
      return Some((Token(NumberLiteral, s[..i], Number(n.value)), i));
    }
    if StartsWord(c) {
      var length := ScanWord(s);
      if length.None? {
        return None;
      }
      return Some((WordToken(s[..length.value]), length.value));
    }
    return None;
  }

  method LexExpression(lit: Literals, input: string) returns (r: Option<seq<Token>>)
    ensures r == Lex(lit, input)
  {
    var tokens: seq<Token> := [];
    var i := 0;
    assert input[0..] == input && forall ts: seq<Token> :: [] + ts == ts;
    while i < |input|
      invariant 0 <= i <= |input|
      invariant Lex(lit, input) == LexOn(lit, tokens, input[i..])
    {
      if IsSpace(input[i]) {
        assert input[i..][1..] == input[i + 1..];
        i := i + 1;
        continue;
      }
      LexOnStep(lit, tokens, input[i..]);
      var token := ScanToken(lit, input, i);
      if token.None? {
        return None;
      }
      assert input[i..][token.value.1..] == input[i + token.value.1..];
      tokens, i := tokens + [token.value.0], i + token.value.1;
    }
    return Some(tokens + [EOF]);
  }

  /******* Tokens printed with spaces between them are read back *******/

  /** `t` is what its own text lexes to. */
  predicate Printable(lit: Literals, t: Token) {
    t.text != "" && !IsSpace(t.text[0]) && FirstToken(lit, t.text) == Some((t, |t.text|))
  }

  lemma {:induction false} NumberEndStops(s: string, tail: string, i: nat)
    requires i <= |s| && NumberEnd(s, i) == |s| && (tail == "" || !InNumber(tail[0]))
    ensures NumberEnd(s + tail, i) == |s|
    decreases |s| - i
  {
    if i < |s| {
      NumberEndStops(s, tail, i + 1);
    }
  }

  lemma {:induction false} WordEndStops(s: string, tail: string, i: nat)
    requires i <= |s| && (WordEnd(s, i) < |s| || tail == "" || !InWord(tail[0]))
    ensures WordEnd(s + tail, i) == WordEnd(s, i)
    decreases |s| - i
  {
    if i < |s| && InWord(s[i]) {
      WordEndStops(s, tail, i + 1);
    }
  }

  lemma {:induction false} BracketEndStops(s: string, tail: string, i: nat)
    requires i <= |s| && BracketEnd(s, i) < |s|
    ensures BracketEnd(s + tail, i) == BracketEnd(s, i)
    decreases |s| - i
  {
    if s[i] != ']' {
      BracketEndStops(s, tail, i + 1);
    }
  }

  lemma {:induction false} QuoteEndStops(s: string, tail: string, quote: char, i: nat)
    requires QuoteEnd(s, quote, i).Some?
    ensures QuoteEnd(s + tail, quote, i) == QuoteEnd(s, quote, i)
    decreases |s| - i
  {
    if s[i] != quote {
      QuoteEndStops(s, tail, quote, if s[i] == '\\' then i + 2 else i + 1);
    }
  }

  lemma WordStops(s: string, tail: string)
    requires s != "" && WordWithIndex(s) == Some(|s|) && (tail == "" || tail[0] == ' ')
    ensures WordWithIndex(s + tail) == Some(|s|)
  {
    WordEndStops(s, tail, 1);
    var end := WordEnd(s, 1);
    if end < |s| && s[end] == '[' {
      BracketEndStops(s, tail, end);
    }
  }

  /** A token that fills its text is found there when a space follows. */
  lemma FirstTokenStops(lit: Literals, s: string, tail: string)
    requires s != "" && !IsSpace(s[0]) && FirstToken(lit, s).Some? && FirstToken(lit, s).value.1 == |s|
    requires tail == "" || tail[0] == ' '
    ensures FirstToken(lit, s + tail) == FirstToken(lit, s)
  {
    var c := s[0];
    if c == '\'' || c == '"' {
      QuoteEndStops(s, tail, c, 1);
      assert (s + tail)[..|s|] == s[..|s|];
    } else if c in "=!><(),"{
      assert (s + tail)[..|s|] == s[..|s|];
    } else if StartsNumber(s) {
      NumberEndStops(s, tail, 1);
      assert (s + tail)[..|s|] == s[..|s|];
    } else {
      WordStops(s, tail);
      assert (s + tail)[..|s|] == s[..|s|];
    }
  }

  /** Token texts with a space after each. */
  function Print(ts: seq<Token>): string {
    if ts == [] then "" else ts[0].text + " " + Print(ts[1..])
  }

  /** A printed token and what follows it. */
  lemma LexPrinted(lit: Literals, t: Token, rest: string)
    requires Printable(lit, t)
    ensures Lex(lit, t.text + " " + rest) == match Lex(lit, rest) case None => None case Some(ts) => Some([t] + ts)
  {
    var s, tail := t.text + " " + rest, " " + rest;
    assert s == t.text + tail;
    FirstTokenStops(lit, t.text, tail);
    assert s[|t.text|..] == tail && tail[1..] == rest;
  }

  lemma {:induction false} LexInvertsPrint(lit: Literals, ts: seq<Token>)
    requires forall t :: t in ts ==> Printable(lit, t)
    ensures Lex(lit, Print(ts)) == Some(ts + [EOF])
  {
    if ts == [] {
      assert ts + [EOF] == [EOF];
    } else {
      LexInvertsPrint(lit, ts[1..]);
      LexPrinted(lit, ts[0], Print(ts[1..]));
      assert ts + [EOF] == [ts[0]] + (ts[1..] + [EOF]);
    }
  }
}
