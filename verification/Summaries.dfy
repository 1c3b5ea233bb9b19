/**
 The `summarize` stage: `parseSummarize` of internal/dsl/parser.go and the
 checks of `Validate` that concern aggregates.  What they accept, streaming aggregation may
 rely on: outputs have distinct names, and none is a group key.
*/
module Summaries {
  import opened Wrappers
  import opened Texts
  import opened Values
  import opened Expressions
  import opened Aggregation
  import opened Aliases

  /******* One item *******/

  function FunctionName(fn: Function): string {
    match fn
    case Counting => "count"
    case Summing => "sum"
    case Averaging => "avg"
    case Least => "min"
    case Greatest => "max"
  }

  function FunctionOf(name: string): Option<Function> {
    if name == "count" then Some(Counting) else if name == "sum" then Some(Summing) else if name == "avg" then Some(Averaging)
    else if name == "min" then Some(Least) else if name == "max" then Some(Greatest) else None
  }

  function AliasOf(fn: Function, field: string): string {
    if field == "*" then FunctionName(fn) else FunctionName(fn) + "_" + SanitizeAlias(field)
  }

  /** `strings.Index` of a character; `None` for -1. */
  function IndexOf(s: string, c: char): (i: Option<nat>)
    ensures i.Some? ==> i.value < |s| && s[i.value] == c
  {
    if s == "" then None else if s[0] == c then Some(0) else
    match IndexOf(s[1..], c)
    case None => None
    case Some(i) => Some(i + 1)
  }

  /** The function's name and the field of an item `fn(field)`. */
  function CutItem(item: string): Option<(string, string)> {
    match (IndexOf(item, '('), IndexOf(item, ')'))
    case (Some(open), Some(close)) =>
      if open == 0 || close < open || TrimSpace(item[close + 1..]) != "" then None
      else Some((TrimSpace(item[..open]), TrimSpace(item[open + 1..close])))
    case _ => None
  }

  function AggregateOf(fn: Function, written: string): Option<Aggregate> {
    var field := if fn == Counting && written == "" then "*" else written;
    if field != "*" && !FieldAllowed(field) then None else Some(Aggregate(fn, field, AliasOf(fn, field)))
  }

  /** `fn(field)`, without the check for duplicate outputs. */
  function ParseItem(item: string): Option<Aggregate> {
    match CutItem(item)
    case None => None
    case Some((name, written)) =>
      match FunctionOf(ToLower(name))
      case None => None
      case Some(fn) => AggregateOf(fn, written)
  }

  predicate HasAlias(aggregates: seq<Aggregate>, alias: string) {
    exists i :: 0 <= i < |aggregates| && aggregates[i].alias == alias
  }

  /** The items between commas, each read by `parse`, after `done`; an output may not appear twice. */
  function ParseItems(parse: string -> Option<Aggregate>, items: seq<string>, done: seq<Aggregate>): Option<seq<Aggregate>>
    decreases |items|
  {
    if items == [] then Some(done) else
    match parse(items[0])
    case None => None
    case Some(a) => if HasAlias(done, a.alias) then None else ParseItems(parse, items[1..], done + [a])
  }

  /** The loop of `parseSummarize`. */
  method ParseAggregates(parse: string -> Option<Aggregate>, items: seq<string>) returns (r: Option<seq<Aggregate>>)
    ensures r == ParseItems(parse, items, [])
  {
    var aggregates: seq<Aggregate> := [];
    var aliases: set<string> := {};
    for i := 0 to |items|
      invariant ParseItems(parse, items, []) == ParseItems(parse, items[i..], aggregates)
      invariant forall alias :: alias in aliases <==> HasAlias(aggregates, alias)
    {
      assert items[i..][1..] == items[i + 1..];
      var a := parse(items[i]);
      if a.None? || a.value.alias in aliases {
        return None;
      }
      OneMoreAlias(aggregates, a.value);
      aliases := aliases + {a.value.alias};
      aggregates := aggregates + [a.value];
    }
    return Some(aggregates);
  }

  /** An item is read after it is trimmed. */
  function Trimming(trim: string -> string, parse: string -> Option<Aggregate>): string -> Option<Aggregate> {
    (item: string) => parse(trim(item))
  }

  /** The aggregates of a `summarize` stage. */
  function SummarizedBy(items: seq<string>): Option<seq<Aggregate>> { ParseItems(Trimming(TrimSpace, ParseItem), items, []) }

  lemma OneMoreAlias(aggregates: seq<Aggregate>, a: Aggregate)
    ensures forall alias :: HasAlias(aggregates + [a], alias) <==> HasAlias(aggregates, alias) || alias == a.alias
  {
    var more := aggregates + [a];
    assert more[|aggregates|] == a;
    forall alias
      ensures HasAlias(more, alias) <==> HasAlias(aggregates, alias) || alias == a.alias
    {
      if i :| 0 <= i < |aggregates| && aggregates[i].alias == alias {
        assert more[i].alias == alias;
      }
    }
  }

  ghost predicate AliasesDistinct(aggregates: seq<Aggregate>) {
    forall i, j :: 0 <= i < j < |aggregates| ==> aggregates[i].alias != aggregates[j].alias
  }

  predicate IsItem(a: Aggregate) {
    (a.field == "*" || FieldAllowed(a.field)) && a.alias == AliasOf(a.fn, a.field)
  }

  ghost predicate ParsesItems(parse: string -> Option<Aggregate>, ok: Aggregate -> bool) {
    forall item :: parse(item).Some? ==> ok(parse(item).value)
  }

  lemma ItemShape(item: string, parsed: Option<Aggregate>)
    requires parsed == ParseItem(item)
    ensures parsed.Some? ==> IsItem(parsed.value)
  {
  }

  lemma ParseShape()
    ensures ParsesItems(ParseItem, IsItem)
  {
    forall item: string
      ensures ParseItem(item).Some? ==> IsItem(ParseItem(item).value)
    {
      ItemShape(item, ParseItem(item));
    }
  }

  lemma TrimmingKeepsShape(trim: string -> string, parse: string -> Option<Aggregate>, ok: Aggregate -> bool)
    requires ParsesItems(parse, ok)
    ensures ParsesItems(Trimming(trim, parse), ok)
  {
  }

  lemma {:induction false} ItemsShape(parse: string -> Option<Aggregate>, ok: Aggregate -> bool, items: seq<string>, done: seq<Aggregate>)
    requires ParseItems(parse, items, done).Some? && AliasesDistinct(done)
    requires (forall a :: a in done ==> ok(a)) && ParsesItems(parse, ok)
    ensures AliasesDistinct(ParseItems(parse, items, done).value) && forall a :: a in ParseItems(parse, items, done).value ==> ok(a)
    decreases |items|
  {
    if items != [] {
      var a := parse(items[0]).value;
      AliasApart(done, a);
      ItemsShape(parse, ok, items[1..], done + [a]);
    }
  }

  lemma AliasApart(done: seq<Aggregate>, a: Aggregate)
    requires AliasesDistinct(done) && !HasAlias(done, a.alias)
    ensures AliasesDistinct(done + [a])
  {
  }

  /******* Validation *******/

  predicate NumericAggregateField(field: string) {
    var parts := SplitPath(field);
    parts != [] && (parts[0] == "value" || parts[0] == "amount" || (|parts| > 1 && (parts[0] == "attributes" || parts[0] == "native")))
  }

  /** The checks of `Validate` on aggregates and group keys. */
  predicate SummaryAllowed(aggregates: seq<Aggregate>, groupBy: seq<string>) {
    && (forall a :: a in aggregates && a.fn != Counting ==> NumericAggregateField(a.field))
    && (forall field :: field in groupBy ==> !AggregateOutputField(field))
  }

  lemma {:induction false} AmongHaveLetters(names: seq<string>, name: string)
    requires IsAmong(name, names) && forall n :: n in names ==> n != "" && IsAlphanumeric(n[0])
    ensures name != "" && IsAlphanumeric(name[0])
  {
    IsAmongMeansIn(name, names);
  }

  lemma RootsHaveLetters()
    ensures forall name :: name in ROOTS ==> name != "" && IsAlphanumeric(name[0])
  {
  }

  lemma {:induction false} PrefixesHaveLetters(field: string, prefixes: seq<string>)
    requires HasAggregatePrefix(field, prefixes) && forall p :: p in prefixes ==> p != "" && IsAlphanumeric(p[0])
    ensures field != "" && IsAlphanumeric(field[0])
  {
    if !(HasPrefix(field, prefixes[0]) && |field| > |prefixes[0]|) {
      assert forall p :: p in prefixes[1..] ==> p in prefixes;
      PrefixesHaveLetters(field, prefixes[1..]);
    }
  }

  lemma AllowedFieldsHaveLetters(field: string)
    requires FieldAllowed(field)
    ensures field != "" && IsAlphanumeric(field[0])
  {
    var root := Root(field);
    if IsAmong(root, ROOTS) {
      RootsHaveLetters();
      AmongHaveLetters(ROOTS, root);
    } else if root != "count" {
      PrefixesHaveLetters(root, AGGREGATE_PREFIXES);
    }
    assert root[0] == field[0];
  }

  lemma StarIsNotNumeric()
    ensures !NumericAggregateField("*")
  {
    PlainSplit("*");
    assert SplitPath("*")[0] == "*";
  }

  lemma NamedPrefix(fn: Function, rest: string)
    requires rest != "" && IsAliasText(rest)
    ensures AggregateOutputField(FunctionName(fn) + "_" + rest)
  {
    var name := FunctionName(fn) + "_";
    var field := name + rest;
    var i := match fn case Counting => 0 case Summing => 1 case Averaging => 2 case Least => 3 case Greatest => 4;
    assert AGGREGATE_PREFIXES[i] == name;
    HasListedPrefix(field, AGGREGATE_PREFIXES, i);
    assert IsAliasText(name);
  }

  lemma {:induction false} HasListedPrefix(field: string, prefixes: seq<string>, i: nat)
    requires i < |prefixes| && HasPrefix(field, prefixes[i]) && |field| > |prefixes[i]|
    ensures HasAggregatePrefix(field, prefixes)
  {
    if i > 0 {
      HasListedPrefix(field, prefixes[1..], i - 1);
    }
  }

  lemma SanitizedIsAliasText(field: string)
    requires field != "" && IsAlphanumeric(field[0])
    ensures SanitizeAlias(field) != "" && IsAliasText(SanitizeAlias(field))
  {
    AliasIsSqueezed(field);
    assert Alphanumerics(field)[0] == field[0];
  }

  /** Every output of an accepted aggregate has the form that group keys must not have. */
  lemma AliasIsOutputField(a: Aggregate)
    requires IsItem(a) && (a.fn != Counting ==> NumericAggregateField(a.field))
    ensures AggregateOutputField(a.alias)
  {
    if a.field == "*" {
      StarIsNotNumeric();
    } else {
      AllowedFieldsHaveLetters(a.field);
      SanitizedIsAliasText(a.field);
      NamedPrefix(a.fn, SanitizeAlias(a.field));
    }
  }

  lemma AllowedItemsAreApart(aggregates: seq<Aggregate>, groupBy: seq<string>)
    requires AliasesDistinct(aggregates) && SummaryAllowed(aggregates, groupBy) && forall a :: a in aggregates ==> IsItem(a)
    ensures NamesApart(aggregates, groupBy)
  {
    forall i | 0 <= i < |aggregates|
      ensures aggregates[i].alias !in groupBy
    {
      assert aggregates[i] in aggregates;
      AliasIsOutputField(aggregates[i]);
    }
  }

  /** What the parser and the validator accept has outputs that are distinct and are no group keys:
      the precondition under which streaming aggregation is grouping. */
  lemma AcceptedSummariesHaveNamesApart(items: seq<string>, groupBy: seq<string>)
    requires SummarizedBy(items).Some? && SummaryAllowed(SummarizedBy(items).value, groupBy)
    ensures NamesApart(SummarizedBy(items).value, groupBy)
  {
    ParseShape();
    TrimmingKeepsShape(TrimSpace, ParseItem, IsItem);
    ItemsShape(Trimming(TrimSpace, ParseItem), IsItem, items, []);
    AllowedItemsAreApart(SummarizedBy(items).value, groupBy);
  }
}
