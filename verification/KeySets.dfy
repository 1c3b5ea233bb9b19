/**
 Key-set paging: a listing is taken anew on every call, sorted by key, and cut after the last
 key of the previous page.  The cursor holds that key, so nothing is said about the listing
 staying the same between calls.
*/
module KeySets {
  import opened Wrappers
  import opened Texts
  import opened Codecs

  datatype Item<+T> = Item(key: string, value: T)

  datatype Page<+T> = Page(rows: seq<Item<T>>, scanned: nat, nextToken: string)

  /** The last key delivered, bound to the scope of the query. */
  datatype Cursor<+S> = Cursor(scope: S, lastID: string)

  datatype Failure = InvalidCursor | InvalidResponse | UnsupportedTarget

  function DecodeLast<S(==)>(codec: Codec<Cursor<S>>, scope: S, token: string): Option<string> {
    if token == "" then Some("")
    else match codec.decode(token)
      case None => None
      case Some(c) => if c.lastID == "" || c.scope != scope then None else Some(c.lastID)
  }

  function PageLimit(limit: int): (n: nat)
    ensures 1 <= n <= 100
  {
    if limit <= 0 || limit > 100 then 100 else limit
  }

  ghost predicate Increasing<T>(rows: seq<Item<T>>) {
    forall i, j :: 0 <= i < j < |rows| ==> Less(rows[i].key, rows[j].key)
  }

  ghost predicate DistinctKeys<T>(items: seq<Item<T>>) {
    forall i, j :: 0 <= i < j < |items| ==> items[i].key != items[j].key
  }

  ghost predicate AllBeyond<T>(last: string, rows: seq<Item<T>>) {
    forall i :: 0 <= i < |rows| ==> Less(last, rows[i].key)
  }

  /** The page after `last`: the smallest keys beyond it, as many as the limit allows, and
      whether any are left. */
  ghost predicate IsPage<T>(items: seq<Item<T>>, last: string, limit: nat, rows: seq<Item<T>>, more: bool) {
    && Increasing(rows) && AllBeyond(last, rows)
    && (forall i :: 0 <= i < |rows| ==> rows[i] in items)
    && |rows| <= limit
    && (more ==> |rows| == limit > 0 && exists item :: item in items && Less(rows[limit - 1].key, item.key))
    && (forall item :: item in items && Less(last, item.key) ==>
          item in rows || (more && Less(rows[limit - 1].key, item.key)))
  }

  /** What a call answers, given the listing it sees. */
  ghost predicate Answers<S, T>(codec: Codec<Cursor<S>>, scope: S, items: seq<Item<T>>, limit: int, token: string, page: Page<T>) {
    var last := DecodeLast(codec, scope, token);
    && last.Some? && page.scanned == |items|
    && IsPage(items, last.value, PageLimit(limit), page.rows, page.nextToken != "")
    && (page.nextToken != "" ==> page.nextToken == codec.encode(Cursor(scope, page.rows[|page.rows| - 1].key)))
  }

  /** A cursor is accepted exactly in the scope it was made for, and gives back its key; a cursor of another
      profile, account, region or resource is rejected. */
  lemma AcceptedExactlyWhen<S(!new)>(codec: Codec<Cursor<S>>, scope: S, c: Cursor<S>)
    requires IsCodec(codec)
    ensures DecodeLast(codec, scope, codec.encode(c)) == if c.scope == scope && c.lastID != "" then Some(c.lastID) else None
  {
    assert codec.encode(c) != "" && codec.decode(codec.encode(c)) == Some(c);
  }

  /** A page that is not the last has as many rows as were asked for, or a hundred if that was no number
      from one to a hundred; no page has more. */
  lemma PagesAreFull<S, T>(codec: Codec<Cursor<S>>, scope: S, items: seq<Item<T>>, limit: int, token: string, page: Page<T>)
    requires Answers(codec, scope, items, limit, token, page)
    ensures var n := if 1 <= limit <= 100 then limit else 100; |page.rows| <= n && (page.nextToken != "" ==> |page.rows| == n)
  {
  }

  /******* Chains of calls *******/

  /** A call with the listing it happened to see. */
  datatype Call<+T> = Call(items: seq<Item<T>>, limit: int, token: string, page: Page<T>)

  /** The calls of a caller who follows the cursors, beginning with `token`. */
  ghost predicate Linked<S, T>(codec: Codec<Cursor<S>>, scope: S, token: string, calls: seq<Call<T>>)
    decreases |calls|
  {
    calls == [] ||
    (&& calls[0].token == token && Answers(codec, scope, calls[0].items, calls[0].limit, token, calls[0].page)
     && (calls[0].page.nextToken == "" ==> |calls| == 1)
     && Linked(codec, scope, calls[0].page.nextToken, calls[1..]))
  }

  ghost predicate Finished<T>(calls: seq<Call<T>>) { calls != [] && calls[|calls| - 1].page.nextToken == "" }

  function RowsOf<T>(calls: seq<Call<T>>): seq<Item<T>> {
    if calls == [] then [] else calls[0].page.rows + RowsOf(calls[1..])
  }

  /** Every emitted cursor is accepted, and stands for a larger key than the one before. */
  lemma CursorAdvances<S(!new), T>(codec: Codec<Cursor<S>>, scope: S, items: seq<Item<T>>, limit: int, token: string, page: Page<T>)
    requires IsCodec(codec) && Answers(codec, scope, items, limit, token, page) && page.nextToken != ""
    ensures var rows := page.rows;
      && rows != [] && DecodeLast(codec, scope, page.nextToken) == Some(rows[|rows| - 1].key)
      && Less(DecodeLast(codec, scope, token).value, rows[|rows| - 1].key)
  {
    var c := Cursor(scope, page.rows[|page.rows| - 1].key);
    assert codec.decode(codec.encode(c)) == Some(c);
    assert Less(DecodeLast(codec, scope, token).value, c.lastID);
  }

  lemma Below(a: string, b: string, c: string)
    requires Less(a, b) && Less(b, c)
    ensures Less(a, c)
  {
    LessIsTransitive(a, b, c);
  }

  lemma JoinIncreasing<T>(last: string, a: seq<Item<T>>, b: seq<Item<T>>)
    requires Increasing(a) && AllBeyond(last, a) && Increasing(b)
    requires b != [] ==> a != [] && AllBeyond(a[|a| - 1].key, b)
    ensures Increasing(a + b) && AllBeyond(last, a + b)
  {
    var all := a + b;
    forall i, j | 0 <= i < j < |all|
      ensures Less(all[i].key, all[j].key)
    {
      if i < |a| <= j && i < |a| - 1 {
        Below(a[i].key, a[|a| - 1].key, b[j - |a|].key);
      }
    }
    forall j | 0 <= j < |all|
      ensures Less(last, all[j].key)
    {
      if |a| <= j {
        Below(last, a[|a| - 1].key, b[j - |a|].key);
      }
    }
  }

  /** Along a chain the keys only grow, whatever happens to the listing between calls: no key is
      delivered twice. */
  lemma {:induction false} ChainsIncrease<S(!new), T>(codec: Codec<Cursor<S>>, scope: S, token: string, calls: seq<Call<T>>)
    requires IsCodec(codec) && Linked(codec, scope, token, calls) && DecodeLast(codec, scope, token).Some?
    ensures Increasing(RowsOf(calls)) && AllBeyond(DecodeLast(codec, scope, token).value, RowsOf(calls))
    decreases |calls|
  {
    if calls != [] {
      var page, rest := calls[0].page, calls[1..];
      if page.nextToken != "" {
        CursorAdvances(codec, scope, calls[0].items, calls[0].limit, token, page);
        ChainsIncrease(codec, scope, page.nextToken, rest);
      } else {
        assert RowsOf(rest) == [];
      }
      JoinIncreasing(DecodeLast(codec, scope, token).value, page.rows, RowsOf(rest));
    }
  }

  ghost predicate Holds<T>(key: string, items: seq<Item<T>>) {
    exists i :: 0 <= i < |items| && items[i].key == key
  }

  /** The key was listed on every call. */
  ghost predicate AlwaysListed<T>(key: string, calls: seq<Call<T>>) {
    forall i :: 0 <= i < |calls| ==> Holds(key, calls[i].items)
  }

  lemma HoldsJoin<T>(key: string, a: seq<Item<T>>, b: seq<Item<T>>)
    requires Holds(key, a) || Holds(key, b)
    ensures Holds(key, a + b)
  {
    var all := a + b;
    if Holds(key, a) {
      var i :| 0 <= i < |a| && a[i].key == key;
      assert all[i].key == key;
    } else {
      var i :| 0 <= i < |b| && b[i].key == key;
      assert all[|a| + i].key == key;
    }
  }

  /** A listed key beyond the cursor is on the page or beyond it. */
  lemma ListedIsOnPageOrLater<T>(items: seq<Item<T>>, last: string, limit: nat, rows: seq<Item<T>>, more: bool, key: string)
    requires IsPage(items, last, limit, rows, more) && Holds(key, items) && Less(last, key)
    ensures Holds(key, rows) || (more && Less(rows[|rows| - 1].key, key))
  {
    var k :| 0 <= k < |items| && items[k].key == key;
    assert items[k] in items;
    if items[k] in rows {
      var i :| 0 <= i < |rows| && rows[i] == items[k];
    }
  }

  lemma {:induction false} ListedIsDelivered<S(!new), T>(codec: Codec<Cursor<S>>, scope: S, token: string, calls: seq<Call<T>>, key: string)
    requires IsCodec(codec) && Linked(codec, scope, token, calls) && Finished(calls) && AlwaysListed(key, calls)
    requires DecodeLast(codec, scope, token).Some? && Less(DecodeLast(codec, scope, token).value, key)
    ensures Holds(key, RowsOf(calls))
    decreases |calls|
  {
    var page, rest := calls[0].page, calls[1..];
    ListedIsOnPageOrLater(calls[0].items, DecodeLast(codec, scope, token).value, PageLimit(calls[0].limit), page.rows, page.nextToken != "", key);
    if !Holds(key, page.rows) {
      CursorAdvances(codec, scope, calls[0].items, calls[0].limit, token, page);
      assert forall i :: 0 <= i < |rest| ==> rest[i] == calls[i + 1];
      ListedIsDelivered(codec, scope, page.nextToken, rest, key);
    }
    HoldsJoin(key, page.rows, RowsOf(rest));
  }

  /** A finished chain delivers exactly once every key that was listed on all its calls, even if
      the listing changed arbitrarily otherwise. */
  lemma StableKeysComeOnce<S(!new), T>(codec: Codec<Cursor<S>>, scope: S, calls: seq<Call<T>>, key: string)
    requires IsCodec(codec) && Linked(codec, scope, "", calls) && Finished(calls)
    requires key != "" && AlwaysListed(key, calls)
    ensures exists i :: 0 <= i < |RowsOf(calls)| && RowsOf(calls)[i].key == key
    ensures forall i, j :: 0 <= i < |RowsOf(calls)| && 0 <= j < |RowsOf(calls)| && RowsOf(calls)[i].key == key == RowsOf(calls)[j].key ==> i == j
  {
    ListedIsDelivered(codec, scope, "", calls, key);
    ChainsIncrease(codec, scope, "", calls);
    CompareIsAntisymmetric(key, key);
  }

  /** Nothing is delivered that no call listed. */
  lemma {:induction false} DeliveredIsListed<S(!new), T>(codec: Codec<Cursor<S>>, scope: S, token: string, calls: seq<Call<T>>, row: Item<T>)
    requires Linked(codec, scope, token, calls) && row in RowsOf(calls)
    ensures exists i :: 0 <= i < |calls| && row in calls[i].items
    decreases |calls|
  {
    var page, rest := calls[0].page, calls[1..];
    if row !in page.rows {
      DeliveredIsListed(codec, scope, page.nextToken, rest, row);
      var i :| 0 <= i < |rest| && row in rest[i].items;
      assert rest[i] == calls[i + 1];
    } else {
      assert row in calls[0].items;
    }
  }

  /** If the listing never changes, a finished chain delivers all of it, sorted by key. */
  lemma UnchangedListingIsDelivered<S(!new), T>(codec: Codec<Cursor<S>>, scope: S, calls: seq<Call<T>>, items: seq<Item<T>>)
    requires IsCodec(codec) && Linked(codec, scope, "", calls) && Finished(calls)
    requires DistinctKeys(items) && forall i :: 0 <= i < |items| ==> items[i].key != ""
    requires forall i :: 0 <= i < |calls| ==> calls[i].items == items
    ensures Increasing(RowsOf(calls)) && forall item :: item in items <==> item in RowsOf(calls)
  {
    ChainsIncrease(codec, scope, "", calls);
    forall item | item in RowsOf(calls)
      ensures item in items
    {
      DeliveredIsListed(codec, scope, "", calls, item);
    }
    forall item | item in items
      ensures item in RowsOf(calls)
    {
      StableKeysComeOnce(codec, scope, calls, item.key);
      var i :| 0 <= i < |RowsOf(calls)| && RowsOf(calls)[i].key == item.key;
      assert RowsOf(calls)[i] in items;
    }
  }
}
