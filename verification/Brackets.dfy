/**
 What balanced text is, stated without the scanner: quoted texts with plain text between them, whose
 brackets are never closed before they are opened and are all closed in the end.
*/
module Brackets {
  import opened Wrappers
  import opened Segmentation

  /** A stretch without quotes, or a quoted text between its quotes. */
  datatype Segment = Plain(text: string) | Quoted(quote: char, body: string)

  /** Inside a quoted text its quote stands only after a backslash. */
  ghost predicate HidesQuotes(quote: char, body: string) {
    forall i :: 0 <= i < |body| && body[i] == quote ==> i > 0 && body[i - 1] == '\\'
  }

  ghost predicate IsSegment(g: Segment) {
    match g
    case Plain(text) => '\'' !in text && '"' !in text
    case Quoted(quote, body) => (quote == '\'' || quote == '"') && HidesQuotes(quote, body) && (body != "" ==> body[|body| - 1] != '\\')
  }

  ghost predicate AreSegments(gs: seq<Segment>) { forall i :: 0 <= i < |gs| ==> IsSegment(gs[i]) }

  function TextOf(g: Segment): string {
    match g
    case Plain(text) => text
    case Quoted(quote, body) => [quote] + body + [quote]
  }

  function Whole(gs: seq<Segment>): string { if gs == [] then "" else Whole(gs[..|gs| - 1]) + TextOf(gs[|gs| - 1]) }

  function PlainOf(g: Segment): string { if g.Plain? then g.text else "" }

  /** What stands outside quotes. */
  function PlainText(gs: seq<Segment>): string { if gs == [] then "" else PlainText(gs[..|gs| - 1]) + PlainOf(gs[|gs| - 1]) }

  function Opened(t: string): nat {
    if t == "" then 0 else Opened(t[..|t| - 1]) + (if t[|t| - 1] == '(' || t[|t| - 1] == '[' then 1 else 0)
  }

  function Closed(t: string): nat {
    if t == "" then 0 else Closed(t[..|t| - 1]) + (if t[|t| - 1] == ')' || t[|t| - 1] == ']' then 1 else 0)
  }

  /** Nothing is closed before it is opened. */
  ghost predicate NeverBelow(t: string) { forall k :: 0 <= k <= |t| ==> Closed(t[..k]) <= Opened(t[..k]) }

  /** The text is made of such segments, and the brackets between the quoted texts are nested. */
  ghost predicate IsNested(s: string, gs: seq<Segment>) {
    AreSegments(gs) && s == Whole(gs) && NeverBelow(PlainText(gs)) && Opened(PlainText(gs)) == Closed(PlainText(gs))
  }

  /******* From segments to the scanner *******/

  lemma CountOne(t: string, c: char)
    ensures Opened(t + [c]) == Opened(t) + (if c == '(' || c == '[' then 1 else 0)
    ensures Closed(t + [c]) == Closed(t) + (if c == ')' || c == ']' then 1 else 0)
    ensures NeverBelow(t + [c]) <==> NeverBelow(t) && Closed(t + [c]) <= Opened(t + [c])
  {
    var more := t + [c];
    assert more[..|t|] == t && more[..|more|] == more;
    assert forall k :: 0 <= k <= |t| ==> more[..k] == t[..k];
  }

  /** The scanner outside quotes, `plain` being what stood outside quotes so far. */
  ghost predicate ScansTo(s: string, plain: string) {
    Closed(plain) <= Opened(plain) && Scan(s) == Some(Scanner(None, Opened(plain) - Closed(plain)))
  }

  lemma DepthIsNatural(plain: string)
    requires NeverBelow(plain)
    ensures Closed(plain) <= Opened(plain)
  {
    assert plain[..|plain|] == plain;
  }

  lemma CharIsScanned(s: string, plain: string, c: char)
    requires ScansTo(s, plain) && NeverBelow(plain + [c]) && c != '\'' && c != '"'
    ensures ScansTo(s + [c], plain + [c])
  {
    CountOne(plain, c);
    ScanOne(s, c);
  }

  lemma {:induction false} PlainIsScanned(s: string, plain: string, text: string)
    requires ScansTo(s, plain) && NeverBelow(plain + text) && '\'' !in text && '"' !in text
    ensures ScansTo(s + text, plain + text)
    decreases |text|
  {
    if text == "" {
      assert s + text == s && plain + text == plain;
    } else {
      var n := |text| - 1;
      var some, c := text[..n], text[n];
      assert c in text && plain + text == (plain + some) + [c] && s + text == (s + some) + [c];
      NeverBelowBefore(plain + some, [c]);
      PlainIsScanned(s, plain, some);
      CharIsScanned(s + some, plain + some, c);
    }
  }

  lemma {:induction false} BodyIsScanned(s: string, depth: nat, quote: char, body: string)
    requires Scan(s) == Some(Scanner(None, depth)) && (quote == '\'' || quote == '"') && HidesQuotes(quote, body)
    ensures Scan(s + [quote] + body) == Some(Scanner(Some(quote), depth))
  {
    if body == "" {
      ScanOne(s, quote);
      assert s + [quote] + body == s + [quote];
    } else {
      var n := |body| - 1;
      BodyIsScanned(s, depth, quote, body[..n]);
      ScanOne(s + [quote] + body[..n], body[n]);
      assert s + [quote] + body[..n] + [body[n]] == s + [quote] + body;
    }
  }

  /** A quoted text leaves the scanner as it was. */
  lemma QuotedIsSkipped(s: string, depth: nat, quote: char, body: string)
    requires Scan(s) == Some(Scanner(None, depth)) && IsSegment(Quoted(quote, body))
    ensures Scan(s + ([quote] + body + [quote])) == Some(Scanner(None, depth))
  {
    BodyIsScanned(s, depth, quote, body);
    ScanOne(s + [quote] + body, quote);
    assert s + [quote] + body + [quote] == s + ([quote] + body + [quote]);
  }

  lemma NeverBelowBefore(a: string, b: string)
    requires NeverBelow(a + b)
    ensures NeverBelow(a)
  {
    assert forall k :: 0 <= k <= |a| ==> (a + b)[..k] == a[..k];
  }

  lemma SegmentIsScanned(s: string, plain: string, g: Segment)
    requires ScansTo(s, plain) && IsSegment(g) && NeverBelow(plain + PlainOf(g))
    ensures ScansTo(s + TextOf(g), plain + PlainOf(g))
  {
    if g.Plain? {
      PlainIsScanned(s, plain, g.text);
    } else {
      assert plain + "" == plain;
      QuotedIsSkipped(s, Opened(plain) - Closed(plain), g.quote, g.body);
    }
  }

  lemma {:induction false} SegmentsAreScanned(gs: seq<Segment>)
    requires AreSegments(gs) && NeverBelow(PlainText(gs))
    ensures ScansTo(Whole(gs), PlainText(gs))
  {
    if gs != [] {
      var some, g := gs[..|gs| - 1], gs[|gs| - 1];
      NeverBelowBefore(PlainText(some), PlainOf(g));
      SegmentsAreScanned(some);
      SegmentIsScanned(Whole(some), PlainText(some), g);
    }
  }

  /******* From the scanner to segments *******/

  /** The segments before an open quote, and what was read of the quoted text. */
  ghost predicate IsRead(s: string, st: Scanner, gs: seq<Segment>, body: string) {
    && AreSegments(gs) && NeverBelow(PlainText(gs)) && st.depth == Opened(PlainText(gs)) - Closed(PlainText(gs))
    && match st.quote
       case None => s == Whole(gs) && body == ""
       case Some(quote) => (quote == '\'' || quote == '"') && HidesQuotes(quote, body) && s == Whole(gs) + ([quote] + body)
  }

  lemma OneMoreSegment(gs: seq<Segment>, g: Segment)
    requires AreSegments(gs) && IsSegment(g)
    ensures AreSegments(gs + [g]) && Whole(gs + [g]) == Whole(gs) + TextOf(g) && PlainText(gs + [g]) == PlainText(gs) + PlainOf(g)
  {
    assert (gs + [g])[..|gs|] == gs;
  }

  lemma LastIsBefore(s: string, quote: char, body: string, c: char)
    ensures Before(s + ([quote] + body) + [c]) == if body == "" then quote else body[|body| - 1]
  {
    var read := [quote] + body;
    assert (s + read + [c])[|s + read + [c]| - 2] == read[|read| - 1];
  }

  lemma ReadClosing(gs: seq<Segment>, quote: char, body: string)
    requires AreSegments(gs) && IsSegment(Quoted(quote, body))
    ensures var more := gs + [Quoted(quote, body)];
      AreSegments(more) && Whole(more) == Whole(gs) + ([quote] + body) + [quote] && PlainText(more) == PlainText(gs)
  {
    OneMoreSegment(gs, Quoted(quote, body));
    assert PlainText(gs) + "" == PlainText(gs);
    assert Whole(gs) + ([quote] + body + [quote]) == Whole(gs) + ([quote] + body) + [quote];
  }

  lemma ReadInQuote(s: string, some: string, c: char, st: Scanner, next: Scanner, gs: seq<Segment>, body: string) returns (gs': seq<Segment>, body': string)
    requires s == some + [c] && IsRead(some, st, gs, body) && st.quote.Some? && Advance(st, Before(s), c) == Some(next)
    ensures IsRead(s, next, gs', body')
  {
    var quote := st.quote.value;
    LastIsBefore(Whole(gs), quote, body, c);
    if c == quote && Before(s) != '\\' {
      gs', body' := gs + [Quoted(quote, body)], "";
      ReadClosing(gs, quote, body);
    } else {
      gs', body' := gs, body + [c];
      assert Whole(gs) + ([quote] + body) + [c] == Whole(gs) + ([quote] + (body + [c]));
      MoreHidden(quote, body, c);
    }
  }

  lemma MoreHidden(quote: char, body: string, c: char)
    requires HidesQuotes(quote, body) && (c == quote ==> body != "" && body[|body| - 1] == '\\')
    ensures HidesQuotes(quote, body + [c])
  {
  }

  lemma ReadOutside(s: string, some: string, c: char, st: Scanner, next: Scanner, gs: seq<Segment>, body: string) returns (gs': seq<Segment>, body': string)
    requires s == some + [c] && IsRead(some, st, gs, body) && st.quote.None? && Advance(st, Before(s), c) == Some(next)
    ensures IsRead(s, next, gs', body')
  {
    if IsQuote(c) {
      gs', body' := gs, "";
      assert some + [c] == Whole(gs) + ([c] + "");
    } else {
      gs', body' := gs + [Plain([c])], "";
      OneMoreSegment(gs, Plain([c]));
      CountOne(PlainText(gs), c);
    }
  }

  lemma LastOf(s: string)
    requires s != ""
    ensures s == s[..|s| - 1] + [s[|s| - 1]]
  {
  }

  lemma ReadOne(s: string, some: string, st: Scanner, next: Scanner, gs: seq<Segment>, body: string) returns (gs': seq<Segment>, body': string)
    requires s != "" && some == s[..|s| - 1] && IsRead(some, st, gs, body) && Advance(st, Before(s), s[|s| - 1]) == Some(next)
    ensures IsRead(s, next, gs', body')
  {
    var c := s[|s| - 1];
    LastOf(s);
    if st.quote.Some? {
      gs', body' := ReadInQuote(s, some, c, st, next, gs, body);
    } else {
      gs', body' := ReadOutside(s, some, c, st, next, gs, body);
    }
  }

  lemma NothingIsRead()
    ensures IsRead("", CLEAN, [], "")
  {
  }

  lemma {:induction false} ScannedIsRead(s: string, st: Scanner) returns (gs: seq<Segment>, body: string)
    requires Scan(s) == Some(st)
    ensures IsRead(s, st, gs, body)
    decreases |s|
  {
    if s == "" {
      NothingIsRead();
      gs, body := [], "";
    } else {
      var some := s[..|s| - 1];
      var before := Scan(some).value;
      gs, body := ScannedIsRead(some, before);
      gs, body := ReadOne(s, some, before, st, gs, body);
    }
  }

  lemma ReadIsNested(s: string, gs: seq<Segment>, body: string)
    requires IsRead(s, CLEAN, gs, body)
    ensures IsNested(s, gs)
  {
  }

  lemma NestedIsBalanced(s: string, gs: seq<Segment>)
    requires IsNested(s, gs)
    ensures IsBalanced(s)
  {
    SegmentsAreScanned(gs);
  }

  /** A text is balanced exactly if it is made of quoted texts and plain text with nested brackets. */
  lemma BalancedExactlyWhen(s: string)
    ensures IsBalanced(s) <==> exists gs: seq<Segment> :: IsNested(s, gs)
  {
    if IsBalanced(s) {
      var gs, body := ScannedIsRead(s, CLEAN);
      ReadIsNested(s, gs, body);
    }
    if gs: seq<Segment> :| IsNested(s, gs) {
      NestedIsBalanced(s, gs);
    }
  }
}
