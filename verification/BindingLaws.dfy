/** Which bindings a listing of target groups holds, one by one, and which listings are accepted. */
module BindingLaws {
  import opened KeySets
  import opened Targets

  /** The listener or one of its rules forwards to the target; a rule gives the location. */
  ghost predicate IsBoundBy(b: Binding, l: Listener) {
    && b.listenerID == l.listenerID
    && ((b.locationID == "" && b.target in l.targets)
        || exists j :: 0 <= j < |l.rules| && b.locationID == l.rules[j].locationID && b.target in l.rules[j].targets)
  }

  ghost predicate IsBound(b: Binding, listeners: seq<Listener>) { exists i :: 0 <= i < |listeners| && IsBoundBy(b, listeners[i]) }

  lemma {:induction false} AtExactlyWhen(key: Digest, listenerID: string, locationID: string, targets: seq<Target>, item: Item<Binding>)
    ensures item in BindingsAt(key, listenerID, locationID, targets) <==>
      item.key == key(item.value) && item.value.listenerID == listenerID && item.value.locationID == locationID && item.value.target in targets
  {
    if targets != [] {
      var n := |targets| - 1;
      AtExactlyWhen(key, listenerID, locationID, targets[..n], item);
      assert targets == targets[..n] + [targets[n]];
    }
  }

  lemma {:induction false} OfRulesExactlyWhen(key: Digest, listenerID: string, rules: seq<Rule>, item: Item<Binding>)
    ensures item in BindingsOfRules(key, listenerID, rules) <==>
      item.key == key(item.value) && item.value.listenerID == listenerID
      && exists j :: 0 <= j < |rules| && item.value.locationID == rules[j].locationID && item.value.target in rules[j].targets
  {
    if rules != [] {
      var n := |rules| - 1;
      OfRulesExactlyWhen(key, listenerID, rules[..n], item);
      AtExactlyWhen(key, listenerID, rules[n].locationID, rules[n].targets, item);
    }
  }

  /** The items of a listing are exactly its bindings, each under its digest. */
  lemma {:induction false} ListedExactlyWhen(key: Digest, listeners: seq<Listener>, item: Item<Binding>)
    ensures item in BindingsOf(key, listeners) <==> item.key == key(item.value) && IsBound(item.value, listeners)
  {
    if listeners != [] {
      var n := |listeners| - 1;
      var l := listeners[n];
      ListedExactlyWhen(key, listeners[..n], item);
      AtExactlyWhen(key, l.listenerID, "", l.targets, item);
      OfRulesExactlyWhen(key, l.listenerID, l.rules, item);
      OneMoreListener(item.value, listeners);
    }
  }

  lemma OneMoreListener(b: Binding, listeners: seq<Listener>)
    requires listeners != []
    ensures IsBound(b, listeners) <==> IsBound(b, listeners[..|listeners| - 1]) || IsBoundBy(b, listeners[|listeners| - 1])
  {
    var n := |listeners| - 1;
    if i :| 0 <= i < |listeners[..n]| && IsBoundBy(b, listeners[..n][i]) {
      assert listeners[..n][i] == listeners[i];
    }
    if i :| 0 <= i < |listeners| && IsBoundBy(b, listeners[i]) {
      assert i < n ==> listeners[..n][i] == listeners[i];
    }
  }

  /** A target can be named, and has a port from 1 to 65535. */
  predicate IsReachable(t: Target) { t.ref != "" && t.port.Some? && 0 < t.port.value < 65536 }

  /** A listing is accepted exactly if every listener has an id, nothing in it is unsupported, every bound
      target is reachable, and no two bindings have the same digest. */
  lemma AcceptedExactlyWhen(key: Digest, listeners: seq<Listener>)
    ensures ListingIsValid(key, listeners) <==>
      && (forall i :: 0 <= i < |listeners| ==> listeners[i].listenerID != "" && !IsUnsupported(listeners[i]))
      && (forall b :: IsBound(b, listeners) ==> IsReachable(b.target))
      && DistinctKeys(BindingsOf(key, listeners))
  {
    forall i | 0 <= i < |listeners|
      ensures ListenerIsValid(listeners[i]) <==> listeners[i].listenerID != "" && !IsUnsupported(listeners[i]) && AllReachable(listeners[i])
    {
      ListenerExactlyWhen(listeners[i]);
    }
  }

  ghost predicate AllReachable(l: Listener) { forall b :: IsBoundBy(b, l) ==> IsReachable(b.target) }

  lemma ListenerExactlyWhen(l: Listener)
    ensures ListenerIsValid(l) <==> l.listenerID != "" && !IsUnsupported(l) && AllReachable(l)
  {
    if AllReachable(l) {
      forall i | 0 <= i < |l.targets|
        ensures ValidTarget(l.targets[i])
      {
        assert IsBoundBy(Binding(l.listenerID, "", l.targets[i]), l);
      }
      forall j, i | 0 <= j < |l.rules| && 0 <= i < |l.rules[j].targets|
        ensures ValidTarget(l.rules[j].targets[i])
      {
        assert l.rules[j].targets[i] in l.rules[j].targets;
        assert IsBoundBy(Binding(l.listenerID, l.rules[j].locationID, l.rules[j].targets[i]), l);
      }
    }
    if ListenerIsValid(l) {
      forall b | IsBoundBy(b, l)
        ensures IsReachable(b.target)
      {
        ValidIsReachable(l, b);
      }
    }
  }

  lemma ValidIsReachable(l: Listener, b: Binding)
    requires ListenerIsValid(l) && IsBoundBy(b, l)
    ensures IsReachable(b.target)
  {
    if b.locationID == "" && b.target in l.targets {
    } else {
      var j :| 0 <= j < |l.rules| && b.locationID == l.rules[j].locationID && b.target in l.rules[j].targets;
      assert RuleIsValid(l.rules[j]);
    }
  }
}
