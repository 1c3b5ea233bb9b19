/** Which texts are items of a `summarize` stage, and which names are fields, stated by their shape. */
module SummaryItems {
  import opened Wrappers
  import opened Texts
  import opened TextLaws
  import opened Expressions
  import opened Aggregation
  import opened Aliases
  import opened Summaries

  /******* Fields *******/

  /** A name and a rest that is empty or begins with a dot or a bracket. */
  ghost predicate IsRootOf(field: string, root: string) {
    exists rest: string :: field == root + rest && (rest != "" ==> rest[0] == '.' || rest[0] == '[') && '.' !in root && '[' !in root
  }

  /** A prefix of outputs, and after it at least one letter, digit or underscore and nothing else. */
  ghost predicate IsOutputName(name: string) {
    || name == "count"
    || exists i: nat, rest: string :: i < |AGGREGATE_PREFIXES| && name == AGGREGATE_PREFIXES[i] + rest && IsRestOfName(rest)
  }

  predicate IsRestOfName(rest: string) { rest != "" && forall c :: c in rest ==> c == '_' || IsAlphanumeric(c) }

  lemma {:induction false} RootLeavesRest(field: string) returns (rest: string)
    ensures field == Root(field) + rest && (rest != "" ==> rest[0] == '.' || rest[0] == '[')
  {
    if field == "" || field[0] == '.' || field[0] == '[' {
      rest := field;
      assert Root(field) + rest == rest;
    } else {
      rest := RootLeavesRest(field[1..]);
      assert field == [field[0]] + field[1..] && [field[0]] + (Root(field[1..]) + rest) == [field[0]] + Root(field[1..]) + rest;
    }
  }

  lemma {:induction false} RootOfJoined(root: string, rest: string)
    requires '.' !in root && '[' !in root && (rest != "" ==> rest[0] == '.' || rest[0] == '[')
    ensures Root(root + rest) == root
  {
    if root == "" {
      assert root + rest == rest;
    } else {
      assert root[0] in root && (root + rest)[1..] == root[1..] + rest;
      RootOfJoined(root[1..], rest);
      assert root == [root[0]] + root[1..];
    }
  }

  lemma RootExactlyWhen(field: string, root: string)
    ensures Root(field) == root <==> IsRootOf(field, root)
  {
    var rest := RootLeavesRest(field);
    if IsRootOf(field, root) {
      var other: string :| field == root + other && (other != "" ==> other[0] == '.' || other[0] == '[') && '.' !in root && '[' !in root;
      RootOfJoined(root, other);
    }
  }

  lemma {:induction false} PrefixExactlyWhenListed(name: string, prefixes: seq<string>)
    ensures HasAggregatePrefix(name, prefixes) <==> exists i: nat :: i < |prefixes| && prefixes[i] <= name && |name| > |prefixes[i]|
  {
    if prefixes != [] {
      PrefixExactlyWhenListed(name, prefixes[1..]);
      if i: nat :| i < |prefixes[1..]| && prefixes[1..][i] <= name && |name| > |prefixes[1..][i]| {
        assert prefixes[i + 1] == prefixes[1..][i];
      }
      if i: nat :| i < |prefixes| && prefixes[i] <= name && |name| > |prefixes[i]| {
        assert i > 0 ==> prefixes[1..][i - 1] == prefixes[i];
      }
    }
  }

  lemma PrefixesArePlain()
    ensures forall i :: 0 <= i < |AGGREGATE_PREFIXES| ==> IsRestOfName(AGGREGATE_PREFIXES[i])
  {
  }

  lemma OutputNameExactlyWhen(name: string)
    ensures AggregateOutputField(name) <==> IsOutputName(name)
  {
    PrefixExactlyWhenListed(name, AGGREGATE_PREFIXES);
    if AggregateOutputField(name) && name != "count" {
      var i: nat :| i < |AGGREGATE_PREFIXES| && AGGREGATE_PREFIXES[i] <= name && |name| > |AGGREGATE_PREFIXES[i]|;
      var rest := name[|AGGREGATE_PREFIXES[i]|..];
      assert name == AGGREGATE_PREFIXES[i] + rest && IsRestOfName(rest);
    }
    if IsOutputName(name) && name != "count" {
      var i: nat, rest: string :| i < |AGGREGATE_PREFIXES| && name == AGGREGATE_PREFIXES[i] + rest && IsRestOfName(rest);
      PrefixesArePlain();
    }
  }

  /** A field is allowed exactly if the name it begins with is a column or an output of an aggregate. */
  lemma FieldAllowedExactlyWhen(field: string)
    ensures FieldAllowed(field) <==> field != "" && exists root: string :: IsRootOf(field, root) && (root in ROOTS || IsOutputName(root))
  {
    var root := Root(field);
    RootExactlyWhen(field, root);
    IsAmongMeansIn(root, ROOTS);
    OutputNameExactlyWhen(root);
    if other: string :| IsRootOf(field, other) && (other in ROOTS || IsOutputName(other)) {
      RootExactlyWhen(field, other);
    }
  }

  /******* Items *******/

  /** How an item is cut: a name, an opening bracket, a field, a closing bracket, and spaces. */
  datatype Parts = Parts(name: string, field: string, rest: string)

  ghost predicate AreParts(item: string, p: Parts) {
    && item == p.name + "(" + p.field + ")" + p.rest && IsBlank(p.rest) && p.name != ""
    && '(' !in p.name && ')' !in p.name && ')' !in p.field
  }

  /** The field that is meant: a count of nothing counts rows. */
  predicate IsFieldMeant(fn: Function, written: string, field: string) {
    if fn.Counting? && written == "" then field == "*" else field == written
  }

  /** The name of the output: the function's, and the words of the field, with underscores between them. */
  function OutputOf(fn: Function, field: string): string {
    if field == "*" then FunctionName(fn) else FunctionName(fn) + "_" + Joined(Words(field))
  }

  ghost predicate IsItemOf(item: string, a: Aggregate, p: Parts, name: string, written: string) {
    IsCut(item, p, name, written) && EqualFold(name, FunctionName(a.fn)) && IsAggregateOf(a, written)
  }

  lemma {:induction false} IndexOfExactlyWhen(s: string, c: char, i: nat)
    ensures IndexOf(s, c) == Some(i) <==> i < |s| && s[i] == c && c !in s[..i]
  {
    if s != "" && s[0] != c {
      if i == 0 {
      } else {
        IndexOfExactlyWhen(s[1..], c, i - 1);
        if i <= |s| {
          assert s[..i] == [s[0]] + s[1..][..i - 1];
        }
      }
    }
  }

  lemma PartsAreIndexed(item: string, p: Parts)
    requires AreParts(item, p)
    ensures IndexOf(item, '(') == Some(|p.name|) && IndexOf(item, ')') == Some(|p.name| + 1 + |p.field|)
    ensures item[..|p.name|] == p.name && item[|p.name| + 1..|p.name| + 1 + |p.field|] == p.field
    ensures item[|p.name| + 2 + |p.field|..] == p.rest
  {
    var open, close := |p.name|, |p.name| + 1 + |p.field|;
    assert item[..close] == p.name + "(" + p.field;
    IndexOfExactlyWhen(item, '(', open);
    IndexOfExactlyWhen(item, ')', close);
  }

  lemma IndexedAreParts(item: string, open: nat, close: nat) returns (p: Parts)
    requires IndexOf(item, '(') == Some(open) && IndexOf(item, ')') == Some(close) && 0 < open <= close && IsBlank(item[close + 1..])
    ensures AreParts(item, p) && |p.name| == open && |p.field| == close - open - 1
  {
    IndexOfExactlyWhen(item, '(', open);
    IndexOfExactlyWhen(item, ')', close);
    p := Parts(item[..open], item[open + 1..close], item[close + 1..]);
    assert item[..close] == p.name + "(" + p.field;
    assert item == item[..close] + ")" + p.rest;
  }

  lemma FunctionExactlyWhen(name: string, fn: Function)
    ensures FunctionOf(ToLower(name)) == Some(fn) <==> EqualFold(name, FunctionName(fn))
  {
    LowerNames();
  }

  lemma LowerNames()
    ensures forall fn: Function :: ToLower(FunctionName(fn)) == FunctionName(fn)
  {
    assert ToLower("count") == "count" && ToLower("sum") == "sum" && ToLower("avg") == "avg" && ToLower("min") == "min" && ToLower("max") == "max";
  }

  ghost predicate IsCut(item: string, p: Parts, name: string, written: string) {
    AreParts(item, p) && IsTrimOf(p.name, name) && IsTrimOf(p.field, written)
  }

  lemma CutIsRead(item: string, p: Parts, name: string, written: string)
    requires IsCut(item, p, name, written)
    ensures CutItem(item) == Some((name, written))
  {
    PartsAreIndexed(item, p);
    TrimExactlyWhen(p.name, name);
    TrimExactlyWhen(p.field, written);
    BlankTrimsToNothing(p.rest);
  }

  lemma ReadIsCut(item: string, name: string, written: string) returns (p: Parts)
    requires CutItem(item) == Some((name, written))
    ensures IsCut(item, p, name, written)
  {
    var open, close := IndexOf(item, '(').value, IndexOf(item, ')').value;
    BlankTrimsToNothing(item[close + 1..]);
    IndexOfExactlyWhen(item, '(', open);
    p := IndexedAreParts(item, open, close);
    PartsAreIndexed(item, p);
    TrimExactlyWhen(p.name, name);
    TrimExactlyWhen(p.field, written);
  }

  ghost predicate IsAggregateOf(a: Aggregate, written: string) {
    IsFieldMeant(a.fn, written, a.field) && (a.field == "*" || FieldAllowed(a.field)) && a.alias == OutputOf(a.fn, a.field)
  }

  lemma AggregateExactlyWhen(fn: Function, written: string, a: Aggregate)
    ensures AggregateOf(fn, written) == Some(a) <==> a.fn == fn && IsAggregateOf(a, written)
  {
    AliasJoinsWords(a.field);
    AliasJoinsWords(written);
  }

  lemma ReadExactlyWhen(item: string, a: Aggregate, name: string, written: string)
    requires CutItem(item) == Some((name, written))
    ensures ParseItem(item) == Some(a) <==> EqualFold(name, FunctionName(a.fn)) && IsAggregateOf(a, written)
  {
    FunctionExactlyWhen(name, a.fn);
    var fn := FunctionOf(ToLower(name));
    if fn.Some? {
      AggregateExactlyWhen(fn.value, written, a);
    }
  }

  /** An item is read as this aggregate exactly if it has this shape. */
  lemma ItemExactlyWhen(item: string, a: Aggregate)
    ensures ParseItem(item) == Some(a) <==> exists p: Parts, name: string, written: string :: IsItemOf(item, a, p, name, written)
  {
    if p: Parts, name: string, written: string :| IsItemOf(item, a, p, name, written) {
      CutIsRead(item, p, name, written);
      ReadExactlyWhen(item, a, name, written);
    }
    if ParseItem(item) == Some(a) {
      var (name, written) := CutItem(item).value;
      var p := ReadIsCut(item, name, written);
      ReadExactlyWhen(item, a, name, written);
      assert IsItemOf(item, a, p, name, written);
    }
  }

  /******* All items *******/

  ghost predicate AreRead(parse: string -> Option<Aggregate>, items: seq<string>, aggregates: seq<Aggregate>) {
    |aggregates| == |items| && forall i :: 0 <= i < |items| ==> parse(items[i]) == Some(aggregates[i])
  }

  lemma {:induction false} ItemsFrom(parse: string -> Option<Aggregate>, items: seq<string>, done: seq<Aggregate>, rest: seq<Aggregate>)
    requires AliasesDistinct(done)
    ensures ParseItems(parse, items, done) == Some(done + rest) <==> AreRead(parse, items, rest) && AliasesDistinct(done + rest)
    decreases |items|
  {
    if items == [] {
      assert done + rest == done <==> rest == [];
    } else if parse(items[0]).Some? {
      var a := parse(items[0]).value;
      OneMoreApart(done, a);
      if HasAlias(done, a.alias) {
        RepeatedIsNotApart(done, a, rest);
      } else {
        FirstOfRest(parse, items, done, a, rest);
        if rest != [] && rest[0] == a {
          ItemsFrom(parse, items[1..], done + [a], rest[1..]);
          assert done + [a] + rest[1..] == done + rest;
        }
      }
    }
  }

  lemma OneMoreApart(done: seq<Aggregate>, a: Aggregate)
    requires AliasesDistinct(done)
    ensures HasAlias(done, a.alias) <==> !AliasesDistinct(done + [a])
  {
    var more := done + [a];
    if i :| 0 <= i < |done| && done[i].alias == a.alias {
      assert more[i].alias == more[|done|].alias;
    } else {
      assert AliasesDistinct(more);
    }
  }

  lemma RepeatedIsNotApart(done: seq<Aggregate>, a: Aggregate, rest: seq<Aggregate>)
    requires HasAlias(done, a.alias)
    ensures rest != [] && rest[0] == a ==> !AliasesDistinct(done + rest)
  {
    var i :| 0 <= i < |done| && done[i].alias == a.alias;
    if rest != [] {
      assert (done + rest)[i] == done[i] && (done + rest)[|done|] == rest[0];
    }
  }

  /** What is read begins with the first item's aggregate. */
  lemma FirstOfRest(parse: string -> Option<Aggregate>, items: seq<string>, done: seq<Aggregate>, a: Aggregate, rest: seq<Aggregate>)
    requires items != [] && parse(items[0]) == Some(a) && !HasAlias(done, a.alias)
    ensures ParseItems(parse, items, done) == Some(done + rest) || AreRead(parse, items, rest) ==> rest != [] && rest[0] == a
    ensures rest != [] && rest[0] == a ==> (AreRead(parse, items, rest) <==> AreRead(parse, items[1..], rest[1..]))
  {
    ReadKeepsDone(parse, items[1..], done + [a]);
    if ParseItems(parse, items, done) == Some(done + rest) {
      assert (done + rest)[|done|] == a;
    }
    if rest != [] && rest[0] == a && AreRead(parse, items[1..], rest[1..]) {
      forall i | 0 <= i < |items|
        ensures parse(items[i]) == Some(rest[i])
      {
        assert i > 0 ==> items[1..][i - 1] == items[i] && rest[1..][i - 1] == rest[i];
      }
    }
  }

  lemma {:induction false} ReadKeepsDone(parse: string -> Option<Aggregate>, items: seq<string>, done: seq<Aggregate>)
    ensures ParseItems(parse, items, done).Some? ==> done <= ParseItems(parse, items, done).value
    decreases |items|
  {
    if items != [] && parse(items[0]).Some? {
      ReadKeepsDone(parse, items[1..], done + [parse(items[0]).value]);
    }
  }

  /** The items of a stage are accepted exactly if each is read and no output repeats. */
  lemma ItemsExactlyWhen(parse: string -> Option<Aggregate>, items: seq<string>, aggregates: seq<Aggregate>)
    ensures ParseItems(parse, items, []) == Some(aggregates) <==> AreRead(parse, items, aggregates) && AliasesDistinct(aggregates)
  {
    ItemsFrom(parse, items, [], aggregates);
    assert [] + aggregates == aggregates;
  }
}
