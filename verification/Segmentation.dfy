/** Cutting a query into stages and a stage into items: `splitPipeline` and `splitComma` of internal/dsl/parser.go. */
module Segmentation {
  import opened Wrappers
  import opened Texts

  /** The open quote, if any, and the number of open brackets. */
  datatype Scanner = Scanner(quote: Option<char>, depth: nat)

  const CLEAN := Scanner(None, 0)

  predicate IsQuote(c: char) { c == '\'' || c == '"' }

  predicate Opens(c: char) { c == '(' || c == '[' }

  predicate Closes(c: char) { c == ')' || c == ']' }

  /** One character, after the character `before`: a quote is closed by the same quote unless a
      backslash comes right before it; a closing bracket needs an open one. */
  function Advance(st: Scanner, before: char, c: char): Option<Scanner> {
    if st.quote.Some? then Some(if c == st.quote.value && before != '\\' then st.(quote := None) else st)
    else if IsQuote(c) then Some(st.(quote := Some(c)))
    else if Opens(c) then Some(st.(depth := st.depth + 1))
    else if Closes(c) then if st.depth == 0 then None else Some(st.(depth := st.depth - 1))
    else Some(st)
  }

  function Before(s: string): char { if |s| < 2 then ' ' else s[|s| - 2] }

  /** The scanner after a text, if no bracket is closed that is not open. */
  function Scan(s: string): Option<Scanner> {
    if s == "" then Some(CLEAN)
    else match Scan(s[..|s| - 1])
      case None => None
      case Some(st) => Advance(st, Before(s), s[|s| - 1])
  }

  /** All quotes and brackets are closed. */
  predicate IsBalanced(s: string) { Scan(s) == Some(CLEAN) }

  /** Every `sep` in the text is inside quotes or brackets. */
  ghost predicate IsProtected(sep: char, s: string) {
    forall k :: 0 <= k < |s| && s[k] == sep ==> Scan(s[..k]) != Some(CLEAN)
  }

  function Join(sep: char, pieces: seq<string>): string {
    if pieces == [] then "" else if |pieces| == 1 then pieces[0] else pieces[0] + [sep] + Join(sep, pieces[1..])
  }

  ghost predicate ArePieces(sep: char, pieces: seq<string>) {
    forall k :: 0 <= k < |pieces| ==> IsBalanced(pieces[k]) && IsProtected(sep, pieces[k])
  }

  /** The pieces of a text: joined they are the text, each is balanced by itself, and every separator
      that is left in one is quoted or bracketed. */
  ghost predicate IsSplit(sep: char, input: string, pieces: seq<string>) {
    && pieces != [] && Join(sep, pieces) == input
    && ArePieces(sep, pieces)
  }

  /** The pieces, each trimmed; the loops below trim with a function they know nothing about. */
  function Trimmed(trim: string -> string, pieces: seq<string>): (trimmed: seq<string>)
    ensures |trimmed| == |pieces|
  {
    seq(|pieces|, i requires 0 <= i < |pieces| => trim(pieces[i]))
  }

  predicate IsPlain(sep: char) { !IsQuote(sep) && !Opens(sep) && !Closes(sep) }

  /******* Scanning *******/

  lemma {:induction false} ScanOfPrefix(s: string, k: nat)
    requires k <= |s| && Scan(s[..k]).None?
    ensures Scan(s).None?
  {
    if k == |s| {
      assert s[..k] == s;
    } else {
      assert s[..|s| - 1][..k] == s[..k];
      ScanOfPrefix(s[..|s| - 1], k);
    }
  }

  /** After balanced text the scanner goes on as if there had been none. */
  lemma {:induction false} ScanAfterBalanced(a: string, b: string)
    requires IsBalanced(a)
    ensures Scan(a + b) == Scan(b)
  {
    if b == "" {
      assert a + b == a;
    } else {
      var n := |b| - 1;
      assert (a + b)[..|a + b| - 1] == a + b[..n];
      ScanAfterBalanced(a, b[..n]);
    }
  }

  lemma ScanOne(s: string, c: char)
    requires Scan(s).Some?
    ensures Scan(s + [c]) == Advance(Scan(s).value, Before(s + [c]), c)
  {
    assert (s + [c])[..|s|] == s;
  }

  lemma SpaceIsPlain(c: char)
    requires IsSpace(c)
    ensures IsPlain(c) && c != '|' && c != ','
  {
  }

  lemma {:induction false} ScanBeforeSpaces(s: string, spaces: string)
    requires IsBlank(spaces)
    ensures Scan(s + spaces) == Scan(s)
  {
    if spaces == "" {
      assert s + spaces == s;
    } else {
      var n := |spaces| - 1;
      assert (s + spaces)[..|s + spaces| - 1] == s + spaces[..n];
      SpaceIsPlain(spaces[n]);
      ScanBeforeSpaces(s, spaces[..n]);
      assert Scan(s).Some? ==> Scan(s).value.quote.Some? ==> IsQuote(Scan(s).value.quote.value) by { QuotesAreQuotes(s); }
    }
  }

  lemma {:induction false} QuotesAreQuotes(s: string)
    ensures Scan(s).Some? && Scan(s).value.quote.Some? ==> IsQuote(Scan(s).value.quote.value)
  {
    if s != "" {
      QuotesAreQuotes(s[..|s| - 1]);
    }
  }

  lemma SpacesAreBalanced(spaces: string)
    requires IsBlank(spaces)
    ensures IsBalanced(spaces)
  {
    ScanBeforeSpaces("", spaces);
    assert "" + spaces == spaces;
  }

  lemma TrimmedIsTrimmed(t: string)
    requires t != "" ==> !IsSpace(t[0]) && !IsSpace(t[|t| - 1])
    ensures TrimSpace(t) == t
  {
    if t != "" {
      assert TrimLeft(t) == t;
      assert TrimRight(t) == t;
    }
  }

  /** A balanced text with protected separators stays so without spaces around it. */
  lemma WithoutSpaces(sep: char, left: string, t: string, right: string)
    requires IsBlank(left) && IsBlank(right) && IsBalanced(left + t + right) && IsProtected(sep, left + t + right)
    ensures IsBalanced(t) && IsProtected(sep, t)
  {
    SpacesAreBalanced(left);
    ScanAfterBalanced(left, t);
    ScanBeforeSpaces(left + t, right);
    var s := left + t + right;
    forall k | 0 <= k < |t| && t[k] == sep
      ensures Scan(t[..k]) != Some(CLEAN)
    {
      ScanAfterBalanced(left, t[..k]);
      assert s[..|left| + k] == left + t[..k] && s[|left| + k] == sep;
    }
  }

  lemma TrimmingKeepsPieces(sep: char, s: string)
    requires IsBalanced(s) && IsProtected(sep, s)
    ensures IsBalanced(TrimSpace(s)) && IsProtected(sep, TrimSpace(s))
  {
    var left, t, right := TrimSpaceLeaves(s);
    WithoutSpaces(sep, left, t, right);
  }

  /******* Splits *******/

  /** A balanced text whose separators are protected is its own only split; in general there is at
      most one. */
  lemma {:induction false} SplitIsUnique(sep: char, input: string, a: seq<string>, b: seq<string>)
    requires IsSplit(sep, input, a) && IsSplit(sep, input, b)
    ensures a == b
    decreases |a|
  {
    SameFirst(sep, input, a, b);
    SameFirst(sep, input, b, a);
    FirstIsAll(sep, input, a);
    FirstIsAll(sep, input, b);
    assert a[0] == b[0];
    if |a| > 1 {
      RestIsSplit(sep, input, a);
      RestIsSplit(sep, input, b);
      SplitIsUnique(sep, input[|a[0]| + 1..], a[1..], b[1..]);
    }
    assert a == [a[0]] + a[1..] && b == [b[0]] + b[1..];
  }

  lemma RestIsSplit(sep: char, input: string, pieces: seq<string>)
    requires IsSplit(sep, input, pieces) && |pieces| > 1
    ensures |pieces[0]| < |input| && IsSplit(sep, input[|pieces[0]| + 1..], pieces[1..])
  {
    assert input[|pieces[0]| + 1..] == Join(sep, pieces[1..]);
  }

  lemma FirstIsAll(sep: char, input: string, pieces: seq<string>)
    requires IsSplit(sep, input, pieces)
    ensures pieces[0] <= input && (|pieces| == 1 <==> |pieces[0]| == |input|)
  {
  }

  /** A text that goes on beyond the first piece holds a separator that is not protected. */
  lemma LongerIsCut(sep: char, input: string, pieces: seq<string>, longer: string)
    requires IsSplit(sep, input, pieces) && longer <= input && |pieces[0]| < |longer|
    ensures !IsProtected(sep, longer)
  {
    var n := |pieces[0]|;
    FirstIsAll(sep, input, pieces);
    assert longer[n] == input[n] == sep;
    assert longer[..n] == pieces[0];
  }

  /** The first piece of one split is no longer than that of another. */
  lemma SameFirst(sep: char, input: string, a: seq<string>, b: seq<string>)
    requires IsSplit(sep, input, a) && IsSplit(sep, input, b)
    ensures |a[0]| <= |b[0]|
  {
    FirstIsAll(sep, input, a);
    if |b[0]| < |a[0]| {
      LongerIsCut(sep, input, b, a[0]);
    }
  }

  /** Every piece, trimmed, is split into itself. */
  lemma PiecesAreStable(sep: char, input: string, pieces: seq<string>, i: nat)
    requires IsSplit(sep, input, pieces) && i < |pieces|
    ensures var t := TrimSpace(pieces[i]); IsSplit(sep, t, [t]) && Trimmed(TrimSpace, [t]) == [t]
  {
    TrimmingKeepsPieces(sep, pieces[i]);
    var left, t, right := TrimSpaceLeaves(pieces[i]);
    TrimmedIsTrimmed(t);
  }

  lemma {:induction false} JoinMore(sep: char, pieces: seq<string>, last: string, more: string)
    ensures Join(sep, pieces + [last + more]) == Join(sep, pieces + [last]) + more
  {
    if pieces != [] {
      assert (pieces + [last + more])[1..] == pieces[1..] + [last + more];
      assert (pieces + [last])[1..] == pieces[1..] + [last];
      JoinMore(sep, pieces[1..], last, more);
    }
  }

  lemma {:induction false} JoinNext(sep: char, pieces: seq<string>, last: string)
    ensures Join(sep, pieces + [last] + [""]) == Join(sep, pieces + [last]) + [sep]
  {
    if pieces == [] {
      assert ([last] + [""])[1..] == [""];
      assert [] + [last] + [""] == [last] + [""];
      assert [] + [last] == [last];
    } else {
      assert (pieces + [last] + [""])[1..] == pieces[1..] + [last] + [""];
      assert (pieces + [last])[1..] == pieces[1..] + [last];
      JoinNext(sep, pieces[1..], last);
    }
  }

  /** A text of pieces is balanced as a whole. */
  lemma {:induction false} SplitIsBalanced(sep: char, input: string, pieces: seq<string>)
    requires IsSplit(sep, input, pieces) && IsPlain(sep)
    ensures IsBalanced(input)
    decreases |pieces|
  {
    if |pieces| > 1 {
      var first, rest := pieces[0], input[|pieces[0]| + 1..];
      RestIsSplit(sep, input, pieces);
      SplitIsBalanced(sep, rest, pieces[1..]);
      ScanOne(first, sep);
      ScanAfterBalanced(first + [sep], rest);
      assert input == first + [sep] + rest;
    }
  }

  /******* The loops *******/

  datatype Failure = Unbalanced | Unterminated | EmptyItem | TrailingSeparator | NoItem

  /** The scanner's position: the pieces found so far, and the one begun at `start`. */
  ghost predicate IsAt(sep: char, input: string, i: nat, start: nat, st: Scanner, pieces: seq<string>) {
    && start <= i <= |input| && Join(sep, pieces + [input[start..i]]) == input[..i]
    && Scan(input[start..i]) == Some(st) && Scan(input[..i]) == Some(st) && IsProtected(sep, input[start..i])
    && ArePieces(sep, pieces)
  }

  /** The first character of a piece has no say in what came before it. */
  lemma BeforeInPiece(input: string, start: nat, i: nat)
    requires start < i < |input|
    ensures Before(input[start..i] + [input[i]]) == input[i - 1] == Before(input[..i + 1])
  {
  }

  /** What a character does to the scanner, as the code computes it from the byte before. */
  lemma ScanNext(sep: char, input: string, i: nat, start: nat, st: Scanner, pieces: seq<string>)
    requires IsAt(sep, input, i, start, st, pieces) && i < |input|
    ensures var before := if i == 0 then ' ' else input[i - 1];
      && Scan(input[..i + 1]) == Advance(st, before, input[i])
      && Scan(input[start..i + 1]) == Advance(st, before, input[i])
  {
    assert input[..i + 1] == input[..i] + [input[i]];
    assert input[start..i + 1] == input[start..i] + [input[i]];
    ScanOne(input[..i], input[i]);
    ScanOne(input[start..i], input[i]);
    if start < i {
      BeforeInPiece(input, start, i);
    }
  }

  lemma Protect(sep: char, s: string, c: char)
    requires IsProtected(sep, s) && (c == sep ==> Scan(s) != Some(CLEAN))
    ensures IsProtected(sep, s + [c])
  {
    forall k | 0 <= k < |s + [c]| && (s + [c])[k] == sep
      ensures Scan((s + [c])[..k]) != Some(CLEAN)
    {
      assert (s + [c])[..k] == s[..k];
      assert k == |s| ==> s[..k] == s;
    }
  }

  /** The scanner goes on within a piece. */
  lemma GoOn(sep: char, input: string, i: nat, start: nat, st: Scanner, pieces: seq<string>, st': Scanner)
    requires IsAt(sep, input, i, start, st, pieces) && i < |input| && (input[i] == sep ==> st != CLEAN)
    requires Advance(st, if i == 0 then ' ' else input[i - 1], input[i]) == Some(st')
    ensures IsAt(sep, input, i + 1, start, st', pieces)
  {
    ScanNext(sep, input, i, start, st, pieces);
    Protect(sep, input[start..i], input[i]);
    assert input[start..i + 1] == input[start..i] + [input[i]];
    JoinMore(sep, pieces, input[start..i], [input[i]]);
    assert input[..i + 1] == input[..i] + [input[i]];
  }

  /** A separator outside quotes and brackets ends the piece. */
  lemma Cut(sep: char, input: string, i: nat, start: nat, pieces: seq<string>)
    requires IsAt(sep, input, i, start, CLEAN, pieces) && i < |input| && input[i] == sep && IsPlain(sep)
    ensures IsAt(sep, input, i + 1, i + 1, CLEAN, pieces + [input[start..i]])
  {
    ScanNext(sep, input, i, start, CLEAN, pieces);
    JoinNext(sep, pieces, input[start..i]);
    assert input[i + 1..i + 1] == "";
    assert input[..i + 1] == input[..i] + [input[i]];
  }

  lemma Finish(sep: char, input: string, start: nat, pieces: seq<string>)
    requires IsAt(sep, input, |input|, start, CLEAN, pieces)
    ensures IsBalanced(input) && IsSplit(sep, input, pieces + [input[start..]])
  {
    assert input[..|input|] == input && input[start..|input|] == input[start..];
  }

  lemma TrimmedMore(trim: string -> string, pieces: seq<string>, piece: string)
    ensures Trimmed(trim, pieces + [piece]) == Trimmed(trim, pieces) + [trim(piece)]
  {
  }

  /** The part both loops share: what a character that ends no piece does to the quote and the depth. */
  method ReadChar(quote: Option<char>, depth: nat, before: char, r: char) returns (ok: bool, quote': Option<char>, depth': nat)
    ensures Advance(Scanner(quote, depth), before, r) == if ok then Some(Scanner(quote', depth')) else None
  {
    ok, quote', depth' := true, quote, depth;
    if quote.Some? {
      if r == quote.value && before != '\\' { quote' := None; }
    } else if IsQuote(r) {
      quote' := Some(r);
    } else if Opens(r) {
      depth' := depth + 1;
    } else if Closes(r) {
      if depth == 0 { return false, quote, depth; }
      depth' := depth - 1;
    }
  }

  lemma Stuck(sep: char, input: string, i: nat, start: nat, st: Scanner, pieces: seq<string>)
    requires IsAt(sep, input, i, start, st, pieces) && i < |input|
    requires Advance(st, if i == 0 then ' ' else input[i - 1], input[i]) == None
    ensures !IsBalanced(input)
  {
    ScanNext(sep, input, i, start, st, pieces);
    ScanOfPrefix(input, i + 1);
  }

  lemma Unclosed(sep: char, input: string, start: nat, st: Scanner, pieces: seq<string>)
    requires IsAt(sep, input, |input|, start, st, pieces) && st != CLEAN
    ensures !IsBalanced(input)
  {
    assert input[..|input|] == input;
  }

  lemma Start(sep: char, input: string)
    ensures IsAt(sep, input, 0, 0, CLEAN, [])
  {
  }

  method CutPipeline(trim: string -> string, input: string) returns (result: Result<seq<string>, Failure>, ghost pieces: seq<string>)
    ensures result.Ok? <==> IsBalanced(input)
    ensures result.Ok? ==> IsSplit('|', input, pieces) && result.value == Trimmed(trim, pieces)
  {
    var parts: seq<string> := [];
    var start, depth, i := 0, 0, 0;
    var quote: Option<char> := None;
    pieces := [];
    Start('|', input);
    while i < |input|
      invariant start <= i <= |input| && IsAt('|', input, i, start, Scanner(quote, depth), pieces) && parts == Trimmed(trim, pieces)
    {
      var r := input[i];
      if quote.None? && r == '|' && depth == 0 {
        Cut('|', input, i, start, pieces);
        TrimmedMore(trim, pieces, input[start..i]);
        pieces := pieces + [input[start..i]];
        parts := parts + [trim(input[start..i])];
        start := i + 1;
      } else {
        var ok, quote', depth' := ReadChar(quote, depth, if i == 0 then ' ' else input[i - 1], r);
        if !ok {
          Stuck('|', input, i, start, Scanner(quote, depth), pieces);
          return Err(Unbalanced), pieces;
        }
        GoOn('|', input, i, start, Scanner(quote, depth), pieces, Scanner(quote', depth'));
        quote, depth := quote', depth';
      }
      i := i + 1;
    }
    if quote.Some? || depth != 0 {
      Unclosed('|', input, start, Scanner(quote, depth), pieces);
      return Err(Unterminated), pieces;
    }
    Finish('|', input, start, pieces);
    TrimmedMore(trim, pieces, input[start..]);
    pieces := pieces + [input[start..]];
    result := Ok(parts + [trim(input[start..])]);
  }

  /** `splitPipeline`: succeeds exactly on balanced text, with the trimmed pieces of its split. */
  method SplitPipeline(input: string) returns (result: Result<seq<string>, Failure>, ghost pieces: seq<string>)
    ensures result.Ok? <==> IsBalanced(input)
    ensures result.Ok? ==> IsSplit('|', input, pieces) && result.value == Trimmed(TrimSpace, pieces)
  {
    result, pieces := CutPipeline(TrimSpace, input);
  }

  ghost predicate NoneIsBlank(trim: string -> string, pieces: seq<string>) { forall i :: 0 <= i < |pieces| ==> trim(pieces[i]) != "" }

  /** The text has no split, or a blank piece in it. */
  ghost predicate HasNoItems(trim: string -> string, sep: char, input: string) {
    forall all :: IsSplit(sep, input, all) ==> !NoneIsBlank(trim, all)
  }

  lemma OneMoreItem(trim: string -> string, pieces: seq<string>, piece: string)
    requires NoneIsBlank(trim, pieces) && trim(piece) != ""
    ensures NoneIsBlank(trim, pieces + [piece])
  {
  }

  lemma UnbalancedHasNoItems(trim: string -> string, sep: char, input: string)
    requires !IsBalanced(input) && IsPlain(sep)
    ensures HasNoItems(trim, sep, input)
  {
    forall all | IsSplit(sep, input, all)
      ensures false
    {
      SplitIsBalanced(sep, input, all);
    }
  }

  lemma ShorterCuts(sep: char, input: string, first: string, longer: string)
    requires first + [sep] <= input && longer <= input && |first| < |longer| && IsBalanced(first)
    ensures !IsProtected(sep, longer)
  {
    assert longer[|first|] == input[|first|] == sep;
    assert longer[..|first|] == first;
  }

  lemma FirstPieceBegins(sep: char, input: string, first: string, all: seq<string>)
    requires first + [sep] <= input && IsBalanced(first) && IsProtected(sep, first) && IsSplit(sep, input, all)
    ensures |all| > 1 && all[0] == first
  {
    FirstIsAll(sep, input, all);
    if |first| < |all[0]| {
      ShorterCuts(sep, input, first, all[0]);
    } else if |all[0]| < |first| {
      LongerIsCut(sep, input, all, first);
    }
  }

  /** Pieces found up to a separator are the first pieces of the split. */
  lemma {:induction false} PiecesBegin(sep: char, input: string, pieces: seq<string>, all: seq<string>)
    requires pieces != [] && ArePieces(sep, pieces) && Join(sep, pieces) + [sep] <= input && IsSplit(sep, input, all)
    ensures pieces <= all
    decreases |pieces|
  {
    var joined := Join(sep, pieces) + [sep];
    assert pieces[0] + [sep] == joined[..|pieces[0]| + 1];
    FirstPieceBegins(sep, input, pieces[0], all);
    if |pieces| > 1 {
      RestIsSplit(sep, input, all);
      assert Join(sep, pieces[1..]) + [sep] == joined[|pieces[0]| + 1..];
      PiecesBegin(sep, input[|pieces[0]| + 1..], pieces[1..], all[1..]);
      assert all == [all[0]] + all[1..] && pieces == [pieces[0]] + pieces[1..];
    }
  }

  lemma BlankPieceIsInSplit(trim: string -> string, sep: char, input: string, i: nat, start: nat, pieces: seq<string>)
    requires IsAt(sep, input, i, start, CLEAN, pieces) && i < |input| && input[i] == sep && trim(input[start..i]) == ""
    ensures HasNoItems(trim, sep, input)
  {
    var found := pieces + [input[start..i]];
    assert Join(sep, found) + [sep] == input[..i + 1];
    forall all | IsSplit(sep, input, all)
      ensures !NoneIsBlank(trim, all)
    {
      PiecesBegin(sep, input, found, all);
      assert all[|pieces|] == found[|pieces|];
    }
  }

  lemma BlankLastIsInSplit(trim: string -> string, sep: char, input: string, pieces: seq<string>)
    requires IsSplit(sep, input, pieces) && trim(pieces[|pieces| - 1]) == ""
    ensures HasNoItems(trim, sep, input)
  {
    forall all | IsSplit(sep, input, all)
      ensures !NoneIsBlank(trim, all)
    {
      SplitIsUnique(sep, input, all, pieces);
    }
  }

  /** The loop's state: where it is, and the items so far, none of them blank. */
  ghost predicate ItemsAt(trim: string -> string, input: string, i: nat, start: nat, st: Scanner, parts: seq<string>, pieces: seq<string>) {
    IsAt(',', input, i, start, st, pieces) && parts == Trimmed(trim, pieces) && NoneIsBlank(trim, pieces)
  }

  /** A comma outside quotes and brackets: the item before it is taken, unless it is blank. */
  method TakeItem(trim: string -> string, input: string, i: nat, start: nat, parts: seq<string>, ghost pieces: seq<string>)
    returns (item: string, ghost more: seq<string>)
    requires ItemsAt(trim, input, i, start, CLEAN, parts, pieces) && i < |input| && input[i] == ','
    ensures item != "" ==> ItemsAt(trim, input, i + 1, i + 1, CLEAN, parts + [item], more)
    ensures item == "" ==> HasNoItems(trim, ',', input)
  {
    item := trim(input[start..i]);
    more := pieces + [input[start..i]];
    if item == "" {
      BlankPieceIsInSplit(trim, ',', input, i, start, pieces);
    } else {
      Cut(',', input, i, start, pieces);
      TrimmedMore(trim, pieces, input[start..i]);
      OneMoreItem(trim, pieces, input[start..i]);
    }
  }

  lemma StuckHasNoItems(trim: string -> string, input: string, i: nat, start: nat, st: Scanner, parts: seq<string>, pieces: seq<string>)
    requires ItemsAt(trim, input, i, start, st, parts, pieces)
    requires if i < |input| then Advance(st, if i == 0 then ' ' else input[i - 1], input[i]) == None else st != CLEAN
    ensures HasNoItems(trim, ',', input)
  {
    if i < |input| {
      Stuck(',', input, i, start, st, pieces);
    } else {
      Unclosed(',', input, start, st, pieces);
    }
    UnbalancedHasNoItems(trim, ',', input);
  }

  method CutItems(trim: string -> string, input: string) returns (result: Result<seq<string>, Failure>, ghost pieces: seq<string>)
    ensures result.Ok? ==> IsSplit(',', input, pieces) && NoneIsBlank(trim, pieces) && result.value == Trimmed(trim, pieces)
    ensures result.Err? ==> HasNoItems(trim, ',', input)
  {
    var parts: seq<string> := [];
    var start, depth, i := 0, 0, 0;
    var quote: Option<char> := None;
    pieces := [];
    Start(',', input);
    while i < |input|
      invariant start <= i <= |input| && ItemsAt(trim, input, i, start, Scanner(quote, depth), parts, pieces)
    {
      if quote.None? && input[i] == ',' && depth == 0 {
        var item;
        item, pieces := TakeItem(trim, input, i, start, parts, pieces);
        if item == "" { return Err(EmptyItem), pieces; }
        parts := parts + [item];
        start := i + 1;
      } else {
        var ok, quote', depth' := ReadChar(quote, depth, if i == 0 then ' ' else input[i - 1], input[i]);
        if !ok {
          StuckHasNoItems(trim, input, i, start, Scanner(quote, depth), parts, pieces);
          return Err(Unbalanced), pieces;
        }
        GoOn(',', input, i, start, Scanner(quote, depth), pieces, Scanner(quote', depth'));
        quote, depth := quote', depth';
      }
      i := i + 1;
    }
    if quote.Some? || depth != 0 {
      StuckHasNoItems(trim, input, i, start, Scanner(quote, depth), parts, pieces);
      return Err(Unterminated), pieces;
    }
    result, pieces := LastItem(trim, input, start, parts, pieces);
  }

  /** What follows the last separator is an item, too. */
  method LastItem(trim: string -> string, input: string, start: nat, parts: seq<string>, ghost pieces: seq<string>)
    returns (result: Result<seq<string>, Failure>, ghost all: seq<string>)
    requires ItemsAt(trim, input, |input|, start, CLEAN, parts, pieces)
    ensures result.Ok? ==> IsSplit(',', input, all) && NoneIsBlank(trim, all) && result.value == Trimmed(trim, all)
    ensures result.Err? ==> HasNoItems(trim, ',', input)
  {
    Finish(',', input, start, pieces);
    TrimmedMore(trim, pieces, input[start..]);
    all := pieces + [input[start..]];
    var last := trim(input[start..]);
    if last == "" {
      BlankLastIsInSplit(trim, ',', input, all);
      return Err(if |parts| > 0 then TrailingSeparator else NoItem), all;
    }
    OneMoreItem(trim, pieces, input[start..]);
    result := Ok(parts + [last]);
  }

  /** `splitComma`: succeeds exactly if the text has a split without blank pieces. */
  method SplitComma(input: string) returns (result: Result<seq<string>, Failure>, ghost pieces: seq<string>)
    ensures result.Ok? ==> IsSplit(',', input, pieces) && NoneIsBlank(TrimSpace, pieces) && result.value == Trimmed(TrimSpace, pieces)
    ensures result.Err? ==> HasNoItems(TrimSpace, ',', input)
  {
    result, pieces := CutItems(TrimSpace, input);
  }
}
