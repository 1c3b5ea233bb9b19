/** One page of target bindings, nested in listeners and rules: internal/providers/tencent_targets.go. */
module Targets {
  import opened Wrappers
  import opened Texts
  import opened Codecs
  import opened KeySets
  import opened StableSorting

  /** A target with the identity `tencentTargetIdentity` gives it, empty if it has none. */
  datatype Target = Target(ref: string, port: Option<int>, group: string)

  /** A forwarding rule; `unsupported` counts its function and Polaris targets. */
  datatype Rule = Rule(locationID: string, targets: seq<Target>, unsupported: nat)

  datatype Listener = Listener(listenerID: string, targets: seq<Target>, rules: seq<Rule>, unsupported: nat)

  datatype Binding = Binding(listenerID: string, locationID: string, target: Target)

  datatype Scope = Scope(profile: string, account: string, region: string, loadBalancer: string, operation: string)

  /** The digest that names a binding: any function, collisions included. */
  type Digest = Binding -> string

  predicate ValidTarget(target: Target) {
    target.ref != "" && target.port.Some? && 1 <= target.port.value <= 65535
  }

  function BindingsAt(key: Digest, listenerID: string, locationID: string, targets: seq<Target>): (items: seq<Item<Binding>>)
    ensures |items| == |targets|
  {
    if targets == [] then []
    else
      var n := |targets| - 1;
      var b := Binding(listenerID, locationID, targets[n]);
      BindingsAt(key, listenerID, locationID, targets[..n]) + [Item(key(b), b)]
  }

  function BindingsOfRules(key: Digest, listenerID: string, rules: seq<Rule>): seq<Item<Binding>> {
    if rules == [] then []
    else
      var n := |rules| - 1;
      BindingsOfRules(key, listenerID, rules[..n]) + BindingsAt(key, listenerID, rules[n].locationID, rules[n].targets)
  }

  function BindingsOfListener(key: Digest, l: Listener): seq<Item<Binding>> {
    BindingsAt(key, l.listenerID, "", l.targets) + BindingsOfRules(key, l.listenerID, l.rules)
  }

  /** All bindings, in the order in which the listing nests them. */
  function BindingsOf(key: Digest, listeners: seq<Listener>): seq<Item<Binding>> {
    if listeners == [] then []
    else
      var n := |listeners| - 1;
      BindingsOf(key, listeners[..n]) + BindingsOfListener(key, listeners[n])
  }

  predicate AllValid(targets: seq<Target>) { forall i :: 0 <= i < |targets| ==> ValidTarget(targets[i]) }

  predicate RuleIsValid(r: Rule) { r.unsupported == 0 && AllValid(r.targets) }

  predicate RulesAreValid(rules: seq<Rule>) { forall j :: 0 <= j < |rules| ==> RuleIsValid(rules[j]) }

  predicate RulesAreUnsupported(rules: seq<Rule>) { exists j :: 0 <= j < |rules| && rules[j].unsupported > 0 }

  predicate ListenerIsValid(l: Listener) {
    l.listenerID != "" && l.unsupported == 0 && AllValid(l.targets) && RulesAreValid(l.rules)
  }

  predicate ListenersAreValid(listeners: seq<Listener>) { forall i :: 0 <= i < |listeners| ==> ListenerIsValid(listeners[i]) }

  ghost predicate ListingIsValid(key: Digest, listeners: seq<Listener>) {
    ListenersAreValid(listeners) && DistinctKeys(BindingsOf(key, listeners))
  }

  predicate IsUnsupported(l: Listener) {
    l.unsupported > 0 || RulesAreUnsupported(l.rules)
  }

  predicate HasUnsupported(listeners: seq<Listener>) {
    exists i :: 0 <= i < |listeners| && IsUnsupported(listeners[i])
  }

  /******* Collecting the bindings *******/

  lemma {:induction false} RulesGrow(key: Digest, listenerID: string, rules: seq<Rule>, k: nat)
    requires k <= |rules|
    ensures BindingsOfRules(key, listenerID, rules[..k]) <= BindingsOfRules(key, listenerID, rules)
  {
    if k == |rules| {
      assert rules[..k] == rules;
    } else {
      var n := |rules| - 1;
      assert rules[..n][..k] == rules[..k];
      RulesGrow(key, listenerID, rules[..n], k);
    }
  }

  lemma {:induction false} BindingsGrow(key: Digest, listeners: seq<Listener>, k: nat)
    requires k <= |listeners|
    ensures BindingsOf(key, listeners[..k]) <= BindingsOf(key, listeners)
  {
    if k == |listeners| {
      assert listeners[..k] == listeners;
    } else {
      var n := |listeners| - 1;
      assert listeners[..n][..k] == listeners[..k];
      BindingsGrow(key, listeners[..n], k);
    }
  }

  lemma RuleStep(key: Digest, listenerID: string, rules: seq<Rule>, k: nat)
    requires k < |rules|
    ensures BindingsOfRules(key, listenerID, rules[..k + 1]) ==
      BindingsOfRules(key, listenerID, rules[..k]) + BindingsAt(key, listenerID, rules[k].locationID, rules[k].targets)
  {
    assert rules[..k + 1][..k] == rules[..k];
  }

  lemma ListenerStep(key: Digest, listeners: seq<Listener>, k: nat)
    requires k < |listeners|
    ensures BindingsOf(key, listeners[..k + 1]) == BindingsOf(key, listeners[..k]) + BindingsOfListener(key, listeners[k])
  {
    assert listeners[..k + 1][..k] == listeners[..k];
  }

  /** Keys that clash among the first items clash among all. */
  lemma PrefixIsDistinct<T>(part: seq<Item<T>>, all: seq<Item<T>>)
    requires part <= all && DistinctKeys(all)
    ensures DistinctKeys(part)
  {
    assert forall i :: 0 <= i < |part| ==> part[i] == all[i];
  }

  ghost predicate SeenKeys<T>(rows: seq<Item<T>>, seen: set<string>) {
    DistinctKeys(rows) && forall k :: k in seen <==> Holds(k, rows)
  }

  lemma SeeOne<T>(rows: seq<Item<T>>, seen: set<string>, item: Item<T>)
    requires SeenKeys(rows, seen)
    ensures item.key !in seen ==> SeenKeys(rows + [item], seen + {item.key})
    ensures item.key in seen ==> !DistinctKeys(rows + [item])
  {
    var all := rows + [item];
    if item.key in seen {
      var i :| 0 <= i < |rows| && rows[i].key == item.key;
      assert all[i].key == all[|rows|].key;
    } else {
      forall k
        ensures k in seen + {item.key} <==> Holds(k, all)
      {
        if k in seen {
          var i :| 0 <= i < |rows| && rows[i].key == k;
          assert all[i].key == k;
        }
        assert all[|rows|].key == item.key;
      }
      forall i | 0 <= i < |rows|
        ensures rows[i].key != item.key
      {
        assert rows[i].key == item.key ==> Holds(item.key, rows);
      }
    }
  }

  /** The closure `add`: appends the bindings of some targets, or fails. */
  method Add(key: Digest, listenerID: string, locationID: string, targets: seq<Target>, rows: seq<Item<Binding>>, seen: set<string>)
    returns (ok: bool, rows': seq<Item<Binding>>, seen': set<string>)
    requires SeenKeys(rows, seen)
    ensures ok <==> AllValid(targets) && DistinctKeys(rows + BindingsAt(key, listenerID, locationID, targets))
    ensures ok ==> rows' == rows + BindingsAt(key, listenerID, locationID, targets) && SeenKeys(rows', seen')
  {
    rows', seen' := rows, seen;
    var i := 0;
    while i < |targets|
      invariant 0 <= i <= |targets| && AllValid(targets[..i])
      invariant rows' == rows + BindingsAt(key, listenerID, locationID, targets[..i]) && SeenKeys(rows', seen')
    {
      var target := targets[i];
      if !ValidTarget(target) { return false, rows', seen'; }
      var b := Binding(listenerID, locationID, target);
      TargetStep(key, listenerID, locationID, targets, i);
      TargetsGrow(key, listenerID, locationID, targets, i + 1);
      SeeOne(rows', seen', Item(key(b), b));
      assert rows' + [Item(key(b), b)] == rows + BindingsAt(key, listenerID, locationID, targets[..i + 1]);
      if key(b) in seen' {
        Failed(rows, BindingsAt(key, listenerID, locationID, targets[..i + 1]), BindingsAt(key, listenerID, locationID, targets));
        return false, rows', seen';
      }
      seen' := seen' + {key(b)};
      rows' := rows' + [Item(key(b), b)];
      i := i + 1;
    }
    assert targets[..i] == targets;
    ok := true;
  }

  lemma TargetStep(key: Digest, listenerID: string, locationID: string, targets: seq<Target>, k: nat)
    requires k < |targets|
    ensures var b := Binding(listenerID, locationID, targets[k]);
      BindingsAt(key, listenerID, locationID, targets[..k + 1]) == BindingsAt(key, listenerID, locationID, targets[..k]) + [Item(key(b), b)]
  {
    assert targets[..k + 1][..k] == targets[..k];
  }

  lemma {:induction false} TargetsGrow(key: Digest, listenerID: string, locationID: string, targets: seq<Target>, k: nat)
    requires k <= |targets|
    ensures BindingsAt(key, listenerID, locationID, targets[..k]) <= BindingsAt(key, listenerID, locationID, targets)
  {
    if k == |targets| {
      assert targets[..k] == targets;
    } else {
      var n := |targets| - 1;
      assert targets[..n][..k] == targets[..k];
      TargetsGrow(key, listenerID, locationID, targets[..n], k);
    }
  }

  lemma Failed<T>(rows: seq<Item<T>>, part: seq<Item<T>>, all: seq<Item<T>>)
    requires part <= all && !DistinctKeys(rows + part)
    ensures !DistinctKeys(rows + all)
  {
    if DistinctKeys(rows + all) {
      PrefixIsDistinct(rows + part, rows + all);
    }
  }

  /** Appending the bindings of the first rules, then those of the next. */
  lemma JoinRules(key: Digest, listenerID: string, rules: seq<Rule>, k: nat, rows: seq<Item<Binding>>)
    requires k < |rules|
    ensures var next := BindingsAt(key, listenerID, rules[k].locationID, rules[k].targets);
      && rows + BindingsOfRules(key, listenerID, rules[..k]) + next == rows + BindingsOfRules(key, listenerID, rules[..k + 1])
      && (DistinctKeys(rows + BindingsOfRules(key, listenerID, rules)) ==> DistinctKeys(rows + BindingsOfRules(key, listenerID, rules[..k]) + next))
  {
    RuleStep(key, listenerID, rules, k);
    RulesGrow(key, listenerID, rules, k + 1);
    var part, next := BindingsOfRules(key, listenerID, rules[..k]), BindingsAt(key, listenerID, rules[k].locationID, rules[k].targets);
    assert rows + part + next == rows + (part + next);
    if DistinctKeys(rows + BindingsOfRules(key, listenerID, rules)) {
      PrefixIsDistinct(rows + (part + next), rows + BindingsOfRules(key, listenerID, rules));
    }
  }

  method AddRules(key: Digest, listenerID: string, rules: seq<Rule>, rows: seq<Item<Binding>>, seen: set<string>)
    returns (failure: Option<Failure>, rows': seq<Item<Binding>>, seen': set<string>)
    requires SeenKeys(rows, seen)
    ensures failure.None? <==> RulesAreValid(rules) && DistinctKeys(rows + BindingsOfRules(key, listenerID, rules))
    ensures failure.None? ==> rows' == rows + BindingsOfRules(key, listenerID, rules) && SeenKeys(rows', seen')
    ensures failure.Some? ==> failure.value in {InvalidResponse, UnsupportedTarget}
    ensures failure == Some(UnsupportedTarget) ==> RulesAreUnsupported(rules)
  {
    rows', seen' := rows, seen;
    var j := 0;
    while j < |rules|
      invariant 0 <= j <= |rules| && RulesAreValid(rules[..j])
      invariant rows' == rows + BindingsOfRules(key, listenerID, rules[..j]) && SeenKeys(rows', seen')
    {
      var rule := rules[j];
      if rule.unsupported > 0 { return Some(UnsupportedTarget), rows', seen'; }
      JoinRules(key, listenerID, rules, j, rows);
      var ok;
      ok, rows', seen' := Add(key, listenerID, rule.locationID, rule.targets, rows', seen');
      if !ok { return Some(InvalidResponse), rows', seen'; }
      j := j + 1;
    }
    assert rules[..j] == rules;
    failure := None;
  }

  /** The bindings of one listener: its own, then those of its rules. */
  method AddListener(key: Digest, l: Listener, rows: seq<Item<Binding>>, seen: set<string>)
    returns (failure: Option<Failure>, rows': seq<Item<Binding>>, seen': set<string>)
    requires SeenKeys(rows, seen)
    ensures failure.None? <==> ListenerIsValid(l) && DistinctKeys(rows + BindingsOfListener(key, l))
    ensures failure.None? ==> rows' == rows + BindingsOfListener(key, l) && SeenKeys(rows', seen')
    ensures failure.Some? ==> failure.value in {InvalidResponse, UnsupportedTarget}
    ensures failure == Some(UnsupportedTarget) ==> IsUnsupported(l)
  {
    if l.listenerID == "" { return Some(InvalidResponse), rows, seen; }
    if l.unsupported > 0 { return Some(UnsupportedTarget), rows, seen; }
    var ok;
    ok, rows', seen' := Add(key, l.listenerID, "", l.targets, rows, seen);
    ghost var first, rest := BindingsAt(key, l.listenerID, "", l.targets), BindingsOfRules(key, l.listenerID, l.rules);
    if !ok {
      if DistinctKeys(rows + (first + rest)) { PrefixIsDistinct(rows + first, rows + (first + rest)); }
      return Some(InvalidResponse), rows', seen';
    }
    assert rows + first + rest == rows + (first + rest);
    failure, rows', seen' := AddRules(key, l.listenerID, l.rules, rows', seen');
  }

  /** Appending the bindings of the first listeners, then those of the next. */
  lemma JoinListeners(key: Digest, listeners: seq<Listener>, k: nat)
    requires k < |listeners|
    ensures BindingsOf(key, listeners[..k]) + BindingsOfListener(key, listeners[k]) == BindingsOf(key, listeners[..k + 1])
    ensures DistinctKeys(BindingsOf(key, listeners)) ==> DistinctKeys(BindingsOf(key, listeners[..k + 1]))
  {
    ListenerStep(key, listeners, k);
    BindingsGrow(key, listeners, k + 1);
    if DistinctKeys(BindingsOf(key, listeners)) {
      PrefixIsDistinct(BindingsOf(key, listeners[..k + 1]), BindingsOf(key, listeners));
    }
  }

  lemma NextIsValid(listeners: seq<Listener>, k: nat)
    requires k < |listeners| && ListenersAreValid(listeners[..k]) && ListenerIsValid(listeners[k])
    ensures ListenersAreValid(listeners[..k + 1])
  {
  }

  method Collect(key: Digest, listeners: seq<Listener>) returns (failure: Option<Failure>, rows: seq<Item<Binding>>)
    ensures failure.None? <==> ListingIsValid(key, listeners)
    ensures failure.None? ==> rows == BindingsOf(key, listeners)
    ensures failure.Some? ==> failure.value in {InvalidResponse, UnsupportedTarget}
    ensures failure == Some(UnsupportedTarget) ==> HasUnsupported(listeners)
  {
    rows := [];
    var seen: set<string> := {};
    var i := 0;
    while i < |listeners|
      invariant 0 <= i <= |listeners| && ListenersAreValid(listeners[..i])
      invariant rows == BindingsOf(key, listeners[..i]) && SeenKeys(rows, seen)
    {
      JoinListeners(key, listeners, i);
      failure, rows, seen := AddListener(key, listeners[i], rows, seen);
      if failure.Some? {
        return;
      }
      NextIsValid(listeners, i);
      i := i + 1;
    }
    assert listeners[..i] == listeners;
    failure := None;
  }

  /******* The page *******/

  function KeyOrder(): Order<Item<Binding>> { (a: Item<Binding>, b: Item<Binding>) => Compare(a.key, b.key) <= 0 }

  lemma KeysAreOrdered(items: seq<Item<Binding>>)
    requires DistinctKeys(items)
    ensures var sorted := Sort(KeyOrder(), items);
      Increasing(sorted) && |sorted| == |items| && Within(sorted, items) && Within(items, sorted)
  {
    var le := KeyOrder();
    forall a: Item<Binding>, b: Item<Binding>
      ensures (le(a, b) || le(b, a)) && (le(a, b) && le(b, a) ==> a.key == b.key) && (!le(b, a) ==> Less(a.key, b.key))
    {
      CompareIsAntisymmetric(a.key, b.key);
    }
    forall a: Item<Binding>, b: Item<Binding>, c: Item<Binding> | le(a, b) && le(b, c)
      ensures le(a, c)
    {
      LessIsTransitive(a.key, b.key, c.key);
    }
    SortIsStrict(le, items);
  }

  method SortRows(items: seq<Item<Binding>>) returns (sorted: seq<Item<Binding>>)
    ensures sorted == Sort(KeyOrder(), items)
  {
    sorted := [];
    var i := |items|;
    while i > 0
      invariant 0 <= i <= |items| && sorted == Sort(KeyOrder(), items[i..])
    {
      i := i - 1;
      assert items[i..][1..] == items[i + 1..];
      sorted := Insert(KeyOrder(), items[i], sorted);
    }
  }

  /** The rows beyond `last`, cut off at the limit. */
  method FirstRows(sorted: seq<Item<Binding>>, last: string, limit: nat) returns (rows: seq<Item<Binding>>, more: bool)
    requires Increasing(sorted) && 0 < limit
    ensures IsPage(sorted, last, limit, rows, more)
  {
    rows, more := [], false;
    var k := 0;
    while k < |sorted|
      invariant 0 <= k <= |sorted| && |rows| <= limit && !more
      invariant IsPage(sorted[..k], last, k + limit, rows, false)
    {
      var row := sorted[k];
      SkipOne(sorted, k, last, k + limit, rows);
      if !Less(last, row.key) {
        k := k + 1;
        continue;
      }
      if |rows| == limit {
        RestIsBeyond(sorted, k, last, k + limit, rows);
        return rows, true;
      }
      rows := rows + [row];
      k := k + 1;
    }
    assert sorted[..k] == sorted;
  }

  lemma SkipOne(sorted: seq<Item<Binding>>, k: nat, last: string, limit: nat, rows: seq<Item<Binding>>)
    requires Increasing(sorted) && k < |sorted| && IsPage(sorted[..k], last, limit, rows, false)
    ensures !Less(last, sorted[k].key) ==> IsPage(sorted[..k + 1], last, limit + 1, rows, false)
    ensures Less(last, sorted[k].key) && |rows| <= limit ==> IsPage(sorted[..k + 1], last, limit + 1, rows + [sorted[k]], false)
    ensures forall i :: 0 <= i < |rows| ==> Less(rows[i].key, sorted[k].key)
  {
    assert sorted[..k + 1] == sorted[..k] + [sorted[k]];
    forall i | 0 <= i < |rows|
      ensures Less(rows[i].key, sorted[k].key)
    {
      assert rows[i] in sorted[..k];
      var j :| 0 <= j < k && sorted[j] == rows[i];
    }
  }

  lemma RestIsBeyond(sorted: seq<Item<Binding>>, k: nat, last: string, limit: nat, rows: seq<Item<Binding>>)
    requires Increasing(sorted) && k < |sorted| && IsPage(sorted[..k], last, limit, rows, false) && rows != []
    requires forall i :: 0 <= i < |rows| ==> Less(rows[i].key, sorted[k].key)
    ensures IsPage(sorted, last, |rows|, rows, true)
  {
    assert sorted[k] in sorted;
    forall item | item in sorted && Less(last, item.key)
      ensures item in rows || Less(rows[|rows| - 1].key, item.key)
    {
      var j :| 0 <= j < |sorted| && sorted[j] == item;
      if j < k {
        assert sorted[..k][j] == item;
        assert item in sorted[..k];
      } else if j > k {
        Below(rows[|rows| - 1].key, sorted[k].key, item.key);
      }
    }
    forall i | 0 <= i < |rows|
      ensures rows[i] in sorted
    {
      assert rows[i] in sorted[..k];
    }
  }

  lemma SameListing<T>(a: seq<Item<T>>, b: seq<Item<T>>, last: string, limit: nat, rows: seq<Item<T>>, more: bool)
    requires Within(a, b) && Within(b, a) && IsPage(a, last, limit, rows, more)
    ensures IsPage(b, last, limit, rows, more)
  {
  }

  /** Sorts the bindings, and takes the rows of the page after the cursor. */
  method RowsAfter(items: seq<Item<Binding>>, last: string, limit: nat) returns (rows: seq<Item<Binding>>, more: bool)
    requires DistinctKeys(items) && 0 < limit
    ensures IsPage(items, last, limit, rows, more)
  {
    KeysAreOrdered(items);
    var sorted := SortRows(items);
    rows, more := FirstRows(sorted, last, limit);
    SameListing(sorted, items, last, limit, rows, more);
  }

  lemma PageAnswers<S(!new), T>(codec: Codec<Cursor<S>>, scope: S, items: seq<Item<T>>, limit: int, token: string, rows: seq<Item<T>>, more: bool, page: Page<T>)
    requires IsCodec(codec) && DecodeLast(codec, scope, token).Some?
    requires IsPage(items, DecodeLast(codec, scope, token).value, PageLimit(limit), rows, more)
    requires page == Page(rows, |items|, if more then codec.encode(Cursor(scope, rows[|rows| - 1].key)) else "")
    ensures Answers(codec, scope, items, limit, token, page)
  {
    assert more ==> codec.encode(Cursor(scope, rows[|rows| - 1].key)) != "";
  }

  /** `tencentTargetPage`: flattens the listing, and answers with the page after the cursor. */
  method TargetPage(codec: Codec<Cursor<Scope>>, key: Digest, scope: Scope, listeners: seq<Listener>, token: string, limit: int)
    returns (result: Result<Page<Binding>, Failure>)
    requires IsCodec(codec)
    ensures result.Ok? <==> DecodeLast(codec, scope, token).Some? && ListingIsValid(key, listeners)
    ensures result.Ok? ==> Answers(codec, scope, BindingsOf(key, listeners), limit, token, result.value)
    ensures result == Err(InvalidCursor) <==> DecodeLast(codec, scope, token).None?
    ensures result == Err(UnsupportedTarget) ==> HasUnsupported(listeners)
  {
    var decoded := DecodeLast(codec, scope, token);
    if decoded.None? { return Err(InvalidCursor); }
    var failure, items := Collect(key, listeners);
    if failure.Some? { return Err(failure.value); }
    var rows, more := RowsAfter(items, decoded.value, PageLimit(limit));
    var nextToken := if more then codec.encode(Cursor(scope, rows[|rows| - 1].key)) else "";
    PageAnswers(codec, scope, items, limit, token, rows, more, Page(rows, |items|, nextToken));
    result := Ok(Page(rows, |items|, nextToken));
  }
}
