/** One page of load-balancer listeners: internal/providers/tencent_listeners.go. */
module Listeners {
  import opened Wrappers
  import opened Texts
  import opened Values
  import opened Codecs
  import opened KeySets
  import opened StableSorting

  datatype Scope = Scope(profile: string, account: string, region: string, loadBalancer: string)

  /** The listener's own id, if it has one. */
  function ListenerID(d: Row): string {
    if "ListenerId" in d && d["ListenerId"].Text? then d["ListenerId"].s else ""
  }

  function Listed(resources: seq<Row>): (items: seq<Item<Row>>)
    ensures |items| == |resources|
  {
    seq(|resources|, i requires 0 <= i < |resources| => Item(ListenerID(resources[i]), resources[i]))
  }

  ghost predicate WellFormed(items: seq<Item<Row>>) {
    DistinctKeys(items) && forall i :: 0 <= i < |items| ==> items[i].key != ""
  }

  function TextOrder(): Order<string> { (a, b) => Compare(a, b) <= 0 }

  /** The same ids, ascending. */
  ghost predicate Ascending(sorted: seq<string>, ids: seq<string>) {
    && |sorted| == |ids| && Within(sorted, ids) && Within(ids, sorted)
    && forall i, j :: 0 <= i < j < |sorted| ==> Less(sorted[i], sorted[j])
  }

  lemma TextsAreOrdered(ids: seq<string>)
    requires NoDuplicates(ids)
    ensures Ascending(Sort(TextOrder(), ids), ids)
  {
    var le := TextOrder();
    forall a, b
      ensures (le(a, b) || le(b, a)) && (le(a, b) && le(b, a) ==> a == b) && (!le(b, a) ==> Less(a, b))
    {
      CompareIsAntisymmetric(a, b);
    }
    forall a, b, c | le(a, b) && le(b, c)
      ensures le(a, c)
    {
      LessIsTransitive(a, b, c);
    }
    SortIsStrict(le, ids);
  }

  /** The ids seen so far, indexed, and those beyond the cursor. */
  ghost predicate Indexed(items: seq<Item<Row>>, last: string, byID: map<string, Row>, ids: seq<string>) {
    && WellFormed(items)
    && (forall id :: id in byID ==> Item(id, byID[id]) in items)
    && (forall i :: 0 <= i < |items| ==> items[i].key in byID)
    && NoDuplicates(ids) && (forall id :: id in ids <==> id in byID && Less(last, id))
  }

  lemma IndexOne(items: seq<Item<Row>>, last: string, byID: map<string, Row>, ids: seq<string>, d: Row)
    requires Indexed(items, last, byID, ids) && ListenerID(d) != "" && ListenerID(d) !in byID
    ensures var key := ListenerID(d);
      Indexed(items + [Item(key, d)], last, byID[key := d], if Less(last, key) then ids + [key] else ids)
  {
  }

  lemma ListedOneMore(resources: seq<Row>, k: nat)
    requires k < |resources|
    ensures Listed(resources[..k + 1]) == Listed(resources[..k]) + [Item(ListenerID(resources[k]), resources[k])]
    ensures Listed(resources[..k]) == Listed(resources)[..k]
  {
  }

  method SortStrings(ids: seq<string>) returns (sorted: seq<string>)
    ensures sorted == Sort(TextOrder(), ids)
  {
    sorted := [];
    var i := |ids|;
    while i > 0
      invariant 0 <= i <= |ids| && sorted == Sort(TextOrder(), ids[i..])
    {
      i := i - 1;
      assert ids[i..][1..] == ids[i + 1..];
      sorted := Insert(TextOrder(), ids[i], sorted);
    }
  }

  /** The rows of the first ids. */
  ghost predicate RowsFor(byID: map<string, Row>, sorted: seq<string>, rows: seq<Item<Row>>) {
    |rows| <= |sorted| && forall i :: 0 <= i < |rows| ==> sorted[i] in byID && rows[i] == Item(sorted[i], byID[sorted[i]])
  }

  lemma RowsAreListed(items: seq<Item<Row>>, last: string, byID: map<string, Row>, ids: seq<string>, sorted: seq<string>, rows: seq<Item<Row>>)
    requires Indexed(items, last, byID, ids) && Ascending(sorted, ids) && RowsFor(byID, sorted, rows)
    ensures Increasing(rows) && AllBeyond(last, rows) && forall i :: 0 <= i < |rows| ==> rows[i] in items
  {
    forall i | 0 <= i < |rows|
      ensures rows[i] in items && Less(last, rows[i].key)
    {
      assert sorted[i] in ids;
    }
  }

  lemma ListedIsSorted(items: seq<Item<Row>>, last: string, byID: map<string, Row>, ids: seq<string>, sorted: seq<string>, item: Item<Row>)
    returns (k: nat)
    requires Indexed(items, last, byID, ids) && Ascending(sorted, ids) && item in items && Less(last, item.key)
    ensures k < |sorted| && sorted[k] == item.key && item.key in byID && byID[item.key] == item.value
  {
    assert item.key in byID && Item(item.key, byID[item.key]) in items;
    var i :| 0 <= i < |ids| && ids[i] == item.key;
    assert ids[i] in sorted;
    k :| 0 <= k < |sorted| && sorted[k] == item.key;
  }

  /** The page after `last`, as the sorted ids give it. */
  lemma FirstIDsArePage(items: seq<Item<Row>>, last: string, byID: map<string, Row>, ids: seq<string>, sorted: seq<string>,
                        limit: nat, rows: seq<Item<Row>>)
    requires Indexed(items, last, byID, ids) && Ascending(sorted, ids) && 0 < limit
    requires |rows| == (if |sorted| > limit then limit else |sorted|) && RowsFor(byID, sorted, rows)
    ensures IsPage(items, last, limit, rows, |sorted| > limit)
  {
    RowsAreListed(items, last, byID, ids, sorted, rows);
    forall item | item in items && Less(last, item.key)
      ensures item in rows || (|sorted| > limit && Less(rows[limit - 1].key, item.key))
    {
      var k := ListedIsSorted(items, last, byID, ids, sorted, item);
      if k < |rows| {
        assert rows[k] == item;
      }
    }
    if |sorted| > limit {
      assert sorted[limit] in ids;
      assert Item(sorted[limit], byID[sorted[limit]]) in items;
    }
  }

  method IndexListeners(resources: seq<Row>, last: string) returns (ok: bool, byID: map<string, Row>, ids: seq<string>)
    ensures ok <==> WellFormed(Listed(resources))
    ensures ok ==> Indexed(Listed(resources), last, byID, ids)
  {
    ok, byID, ids := true, map[], [];
    var i := 0;
    while i < |resources|
      invariant 0 <= i <= |resources|
      invariant Indexed(Listed(resources[..i]), last, byID, ids)
    {
      var d := resources[i];
      var key := ListenerID(d);
      ListedOneMore(resources, i);
      assert Listed(resources)[i] == Item(key, d);
      if key == "" { return false, byID, ids; }
      if key in byID {
        assert Item(key, byID[key]) in Listed(resources)[..i];
        return false, byID, ids;
      }
      IndexOne(Listed(resources[..i]), last, byID, ids, d);
      byID := byID[key := d];
      if Less(last, key) { ids := ids + [key]; }
      i := i + 1;
    }
    assert resources[..i] == resources;
  }

  method FirstListeners(byID: map<string, Row>, ids: seq<string>, sorted: seq<string>, count: nat) returns (rows: seq<Item<Row>>)
    requires Ascending(sorted, ids) && count <= |sorted| && forall id :: id in ids ==> id in byID
    ensures |rows| == count && RowsFor(byID, sorted, rows)
  {
    rows := [];
    while |rows| < count
      invariant |rows| <= count && RowsFor(byID, sorted, rows)
    {
      var key := sorted[|rows|];
      assert key in ids;
      rows := rows + [Item(key, byID[key])];
    }
  }

  /** `tencentListenerPage`: rejects a cursor of another scope, a listener without id and a
      duplicate id, and otherwise answers with the page after the cursor. */
  method ListenerPage(codec: Codec<Cursor<Scope>>, scope: Scope, resources: seq<Row>, token: string, limit: int)
    returns (result: Result<Page<Row>, Failure>)
    requires IsCodec(codec)
    ensures result.Ok? <==> DecodeLast(codec, scope, token).Some? && WellFormed(Listed(resources))
    ensures result.Ok? ==> Answers(codec, scope, Listed(resources), limit, token, result.value)
    ensures result.Err? ==> result.error == (if DecodeLast(codec, scope, token).None? then InvalidCursor else InvalidResponse)
  {
    var decoded := DecodeLast(codec, scope, token);
    if decoded.None? { return Err(InvalidCursor); }
    var last := decoded.value;
    var ok, byID, ids := IndexListeners(resources, last);
    if !ok { return Err(InvalidResponse); }
    var n := PageLimit(limit);
    TextsAreOrdered(ids);
    var sorted := SortStrings(ids);
    var count := if |sorted| > n then n else |sorted|;
    var rows := FirstListeners(byID, ids, sorted, count);
    FirstIDsArePage(Listed(resources), last, byID, ids, sorted, n, rows);
    var nextToken := "";
    if |sorted| > count {
      nextToken := codec.encode(Cursor(scope, sorted[count - 1]));
    }
    result := Ok(Page(rows, |resources|, nextToken));
  }

  /** The rows of a page are listeners as they were listed, each under its own id. */
  lemma RowsCarryTheirIDs(codec: Codec<Cursor<Scope>>, scope: Scope, resources: seq<Row>, token: string, limit: int, page: Page<Row>, i: nat)
    requires Answers(codec, scope, Listed(resources), limit, token, page) && WellFormed(Listed(resources)) && i < |page.rows|
    ensures var item := page.rows[i];
      item.value in resources && "ListenerId" in item.value && item.value["ListenerId"] == Text(item.key) && item.key != ""
  {
    assert page.rows[i] in Listed(resources);
    var k :| 0 <= k < |resources| && Listed(resources)[k] == page.rows[i];
    assert resources[k] in resources;
  }
}
