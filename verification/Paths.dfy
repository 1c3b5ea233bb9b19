/**
 What a path names: how its text is cut into parts, whichever of the three ways each part is written
 in, and where a walk along the parts leads.
*/
module Paths {
  import opened Wrappers
  import opened Texts
  import opened TextLaws
  import opened Values

  /******* The walk *******/

  /** Values nested in one another along the parts, each a field of the one before. */
  ghost predicate IsTrace(v: Value, parts: seq<string>, trace: seq<Value>) {
    && |trace| == |parts| + 1 && trace[0] == v
    && forall i :: 0 <= i < |parts| ==> trace[i].Object? && parts[i] in trace[i].fields && trace[i].fields[parts[i]] == trace[i + 1]
  }

  lemma {:induction false} WalkExactlyWhen(v: Value, parts: seq<string>, w: Value)
    ensures Walk(v, parts) == Some(w) <==> exists trace: seq<Value> :: IsTrace(v, parts, trace) && trace[|parts|] == w
  {
    if parts == [] {
      assert IsTrace(v, parts, [v]);
    } else {
      if v.Object? && parts[0] in v.fields {
        var next := v.fields[parts[0]];
        WalkExactlyWhen(next, parts[1..], w);
        if trace: seq<Value> :| IsTrace(next, parts[1..], trace) && trace[|parts| - 1] == w {
          LongerTrace(v, parts, trace);
        }
        if trace: seq<Value> :| IsTrace(v, parts, trace) && trace[|parts|] == w {
          assert IsTrace(next, parts[1..], trace[1..]);
        }
      }
    }
  }

  lemma LongerTrace(v: Value, parts: seq<string>, trace: seq<Value>)
    requires parts != [] && v.Object? && parts[0] in v.fields && IsTrace(v.fields[parts[0]], parts[1..], trace)
    ensures IsTrace(v, parts, [v] + trace)
  {
    var longer := [v] + trace;
    forall i | 0 <= i < |parts|
      ensures longer[i].Object? && parts[i] in longer[i].fields && longer[i].fields[parts[i]] == longer[i + 1]
    {
      if i > 0 {
        assert parts[1..][i - 1] == parts[i] && longer[i] == trace[i - 1];
      }
    }
  }

  /** A path names a row's own field of that name if there is one, and otherwise the end of a trace. */
  lemma NamesExactlyWhen(row: Row, path: string, w: Value)
    ensures ValueAt(row, path) == Some(w) <==>
      if path in row then row[path] == w
      else exists trace: seq<Value> :: IsTrace(Object(row), SplitPath(path), trace) && trace[|SplitPath(path)|] == w
  {
    WalkExactlyWhen(Object(row), SplitPath(path), w);
  }

  /** The text of what a path names, or of nil if it names nothing. */
  function TextAt(num: Numerals, row: Row, path: string): string {
    match ValueAt(row, path)
    case Some(v) => Sprint(num, v)
    case None => "<nil>"
  }

  /******* The parts *******/

  /** A part after the first: `.name`, `["name"]` or `['name']`. */
  datatype Step = Dotted(name: string) | Double(name: string) | Single(name: string)

  predicate IsPlain(name: string) { name != "" && forall c :: c in name ==> c !in "[]\"'." }

  predicate ArePlain(steps: seq<Step>) { forall i :: 0 <= i < |steps| ==> IsPlain(steps[i].name) }

  /** A step when the first `stage` of the four replacements are done. */
  function Written(step: Step, stage: nat): string {
    match step
    case Dotted(name) => "." + name
    case Double(name) => (if stage < 1 then "[\"" else ".") + (name + (if stage < 3 then "\"]" else ""))
    case Single(name) => (if stage < 2 then "['" else ".") + (name + (if stage < 4 then "']" else ""))
  }

  function AllWritten(steps: seq<Step>, stage: nat): string {
    if steps == [] then "" else Written(steps[0], stage) + AllWritten(steps[1..], stage)
  }

  function Names(steps: seq<Step>): seq<string> { seq(|steps|, i requires 0 <= i < |steps| => steps[i].name) }

  lemma {:induction false} ReplaceAfter(plain: string, rest: string, old_: string, new_: string)
    requires old_ != "" && old_[0] !in plain
    ensures ReplaceAll(plain + rest, old_, new_) == plain + ReplaceAll(rest, old_, new_)
  {
    if plain == "" {
      assert plain + rest == rest;
    } else {
      assert plain[0] in plain && (plain + rest)[1..] == plain[1..] + rest;
      ReplaceAfter(plain[1..], rest, old_, new_);
    }
  }

  lemma ReplaceFirst(rest: string, old_: string, new_: string)
    requires old_ != ""
    ensures ReplaceAll(old_ + rest, old_, new_) == new_ + ReplaceAll(rest, old_, new_)
  {
    assert (old_ + rest)[|old_|..] == rest;
  }

  /** The other bracket and quote are no place for a replacement that begins alike. */
  lemma ReplaceOther(a: char, b: char, rest: string, old_: string, new_: string)
    requires |old_| == 2 && old_[0] == a && old_[1] != b && old_[0] != b
    ensures ReplaceAll([a, b] + rest, old_, new_) == [a, b] + ReplaceAll(rest, old_, new_)
  {
    var s := [a, b] + rest;
    assert s[1] != old_[1];
    assert s[1..] == [b] + rest && ([b] + rest)[1..] == rest;
  }

  const OLD: seq<string> := ["[\"", "['", "\"]", "']"]
  const NEW: seq<string> := [".", ".", "", ""]

  lemma ReplaceStep(step: Step, rest: string, stage: nat)
    requires stage < 4 && IsPlain(step.name)
    ensures ReplaceAll(Written(step, stage) + rest, OLD[stage], NEW[stage]) == Written(step, stage + 1) + ReplaceAll(rest, OLD[stage], NEW[stage])
  {
    var old_, new_, name := OLD[stage], NEW[stage], step.name;
    match step
    case Dotted(_) =>
      ReplaceAfter("." + name, rest, old_, new_);
    case Double(_) =>
      var head, tail := if stage < 1 then "[\"" else ".", if stage < 3 then "\"]" else "";
      ReplaceQuoted(head, name, tail, rest, stage);
    case Single(_) =>
      var head, tail := if stage < 2 then "['" else ".", if stage < 4 then "']" else "";
      ReplaceQuoted(head, name, tail, rest, stage);
  }

  function Head(head: string, stage: nat): string { if stage < 2 && head == OLD[stage] then "." else head }

  function Tail(tail: string, stage: nat): string { if 2 <= stage < 4 && tail == OLD[stage] then "" else tail }

  lemma ReplaceHead(head: string, after: string, stage: nat)
    requires stage < 4 && (head == "." || (stage == 0 && head == "[\"") || (stage < 2 && head == "['"))
    ensures ReplaceAll(head + after, OLD[stage], NEW[stage]) == Head(head, stage) + ReplaceAll(after, OLD[stage], NEW[stage])
  {
    if head == OLD[stage] {
      ReplaceFirst(after, OLD[stage], NEW[stage]);
    } else if head == "." {
      ReplaceAfter(head, after, OLD[stage], NEW[stage]);
    } else {
      ReplaceOther('[', head[1], after, OLD[stage], NEW[stage]);
    }
  }

  lemma ReplaceQuoted(head: string, name: string, tail: string, rest: string, stage: nat)
    requires stage < 4 && IsPlain(name) && tail in {"\"]", "']", ""}
    requires head == "." || (stage == 0 && head == "[\"") || (stage < 2 && head == "['")
    ensures ReplaceAll(head + (name + tail) + rest, OLD[stage], NEW[stage])
      == Head(head, stage) + (name + Tail(tail, stage)) + ReplaceAll(rest, OLD[stage], NEW[stage])
  {
    var after := name + (tail + rest);
    assert head + (name + tail) + rest == head + after;
    ReplaceHead(head, after, stage);
    ReplaceAfter(name, tail + rest, OLD[stage], NEW[stage]);
    ReplaceTail(tail, rest, stage);
    Regroup(Head(head, stage), name, Tail(tail, stage), ReplaceAll(rest, OLD[stage], NEW[stage]));
  }

  lemma Regroup(a: string, b: string, c: string, d: string)
    ensures a + (b + c) + d == a + (b + (c + d))
  {
  }

  lemma ReplaceTail(tail: string, rest: string, stage: nat)
    requires stage < 4 && tail in {"\"]", "']", ""}
    ensures ReplaceAll(tail + rest, OLD[stage], NEW[stage]) == Tail(tail, stage) + ReplaceAll(rest, OLD[stage], NEW[stage])
  {
    var old_, new_ := OLD[stage], NEW[stage];
    if tail == old_ {
      ReplaceFirst(rest, old_, new_);
    } else {
      ReplaceAfter(tail, rest, old_, new_);
    }
  }

  lemma {:induction false} ReplaceStage(steps: seq<Step>, stage: nat)
    requires stage < 4 && ArePlain(steps)
    ensures ReplaceAll(AllWritten(steps, stage), OLD[stage], NEW[stage]) == AllWritten(steps, stage + 1)
  {
    if steps != [] {
      ReplaceStage(steps[1..], stage);
      ReplaceStep(steps[0], AllWritten(steps[1..], stage), stage);
    }
  }

  lemma ReplaceWhole(root: string, steps: seq<Step>, stage: nat)
    requires stage < 4 && IsPlain(root) && ArePlain(steps)
    ensures ReplaceAll(root + AllWritten(steps, stage), OLD[stage], NEW[stage]) == root + AllWritten(steps, stage + 1)
  {
    ReplaceStage(steps, stage);
    ReplaceAfter(root, AllWritten(steps, stage), OLD[stage], NEW[stage]);
  }

  lemma WrittenAtLast(step: Step)
    ensures Written(step, 4) == "." + step.name
  {
    assert step.name + "" == step.name;
  }

  lemma SeparatedMore(root: string, names: seq<string>)
    requires names != []
    ensures Separated([root] + names, '.') == root + ("." + Separated(names, '.'))
  {
    assert ([root] + names)[1..] == names;
    assert root + "." + Separated(names, '.') == root + ("." + Separated(names, '.'));
  }

  lemma {:induction false} WrittenIsSeparated(root: string, steps: seq<Step>)
    ensures root + AllWritten(steps, 4) == Separated([root] + Names(steps), '.')
    decreases |steps|
  {
    if steps == [] {
      assert [root] + Names(steps) == [root];
    } else {
      var name, rest := steps[0].name, AllWritten(steps[1..], 4);
      WrittenIsSeparated(name, steps[1..]);
      assert Names(steps) == [name] + Names(steps[1..]);
      SeparatedMore(root, Names(steps));
      WrittenAtLast(steps[0]);
      assert "." + name + rest == "." + (name + rest);
    }
  }

  lemma NamesAreParts(root: string, steps: seq<Step>)
    requires IsPlain(root) && ArePlain(steps)
    ensures AreParts([root] + Names(steps), '.')
  {
  }

  lemma SplitAfterReplacing(path: string, t1: string, t2: string, t3: string, t4: string)
    requires t1 == ReplaceAll(path, OLD[0], NEW[0]) && t2 == ReplaceAll(t1, OLD[1], NEW[1])
    requires t3 == ReplaceAll(t2, OLD[2], NEW[2]) && t4 == ReplaceAll(t3, OLD[3], NEW[3])
    ensures SplitPath(path) == Fields(t4, '.')
  {
  }

  /** The parts of a path come back in order, whichever way each is written. */
  lemma SplitInvertsWriting(root: string, steps: seq<Step>)
    requires IsPlain(root) && ArePlain(steps)
    ensures SplitPath(root + AllWritten(steps, 0)) == [root] + Names(steps)
  {
    ReplaceWhole(root, steps, 0);
    ReplaceWhole(root, steps, 1);
    ReplaceWhole(root, steps, 2);
    ReplaceWhole(root, steps, 3);
    var t4 := root + AllWritten(steps, 4);
    SplitAfterReplacing(root + AllWritten(steps, 0), root + AllWritten(steps, 1), root + AllWritten(steps, 2), root + AllWritten(steps, 3), t4);
    NamesAreParts(root, steps);
    FieldsInvertSeparated([root] + Names(steps), '.');
    WrittenIsSeparated(root, steps);
  }
}
