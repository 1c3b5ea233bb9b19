/** One product listed by offset: internal/providers/tencent_product_lists.go. */
module ProductLists {
  import opened Wrappers
  import opened Codecs

  datatype Scope = Scope(profile: string, account: string, region: string, operation: string)

  datatype Cursor = Cursor(scope: Scope, offset: int, total: int)

  /** A listed resource: its id, empty if there is none that is not blank, and the row its fields
      make, if they have the right types. */
  datatype Resource<+T> = Resource(id: string, row: Option<T>)

  /** What a provider may reply; the total and the list may be missing or of the wrong type. */
  datatype Reply<+T> = Malformed | Refused(code: string) | Listing(total: Option<int>, resources: Option<seq<Resource<T>>>)

  datatype Page<+T> = Page(rows: seq<T>, nextToken: string, scanned: nat)

  datatype Failure = InvalidCursor | InvalidResponse | InventoryChanged | ProviderRefused(code: string)

  /** `decodeTencentProductListCursor`. */
  function DecodeCursor(codec: Codec<Cursor>, scope: Scope, token: string): (result: Option<Cursor>)
    ensures result.Some? ==> result.value.scope == scope && 0 <= result.value.offset
  {
    if token == "" then Some(Cursor(scope, 0, 0))
    else match codec.decode(token)
      case None => None
      case Some(c) => if c.scope != scope || c.offset <= 0 || c.total <= c.offset then None else Some(c)
  }

  function PageLimit(limit: int): (n: nat)
    ensures 1 <= n <= 100
  {
    if limit <= 0 || limit > 100 then 100 else limit
  }

  /******* One page *******/

  ghost predicate AreUsable<T>(resources: seq<Resource<T>>) {
    && (forall i :: 0 <= i < |resources| ==> resources[i].id != "" && resources[i].row.Some?)
    && (forall i, j :: 0 <= i < j < |resources| ==> resources[i].id != resources[j].id)
  }

  function RowsOf<T>(resources: seq<Resource<T>>): (rows: seq<T>)
    requires forall i :: 0 <= i < |resources| ==> resources[i].row.Some?
    ensures |rows| == |resources|
  {
    seq(|resources|, i requires 0 <= i < |resources| => resources[i].row.value)
  }

  predicate IsListing<T>(reply: Reply<T>) {
    reply.Listing? && reply.total.Some? && 0 <= reply.total.value && reply.resources.Some?
  }

  /** The list fits between the offset and the total, and is not empty before the total. */
  predicate FitsTotal<T>(reply: Reply<T>, cursor: Cursor, limit: nat)
    requires IsListing(reply)
  {
    var n, total := |reply.resources.value|, reply.total.value;
    n <= limit && cursor.offset + n <= total && (n == 0 ==> cursor.offset == total)
  }

  /** Whether a page is an answer to this reply at this cursor. */
  ghost predicate IsPageOf<T>(codec: Codec<Cursor>, reply: Reply<T>, cursor: Cursor, limit: nat, page: Page<T>) {
    && IsListing(reply) && AreUsable(reply.resources.value)
    && (cursor.offset > 0 ==> reply.total.value == cursor.total)
    && FitsTotal(reply, cursor, limit)
    && page.rows == RowsOf(reply.resources.value) && page.scanned == |reply.resources.value|
    && var next := cursor.offset + page.scanned;
       page.nextToken == if next < reply.total.value then codec.encode(cursor.(offset := next, total := reply.total.value)) else ""
  }

  /** The loop over the resources: a row for each, unless an id is missing or repeated. */
  method ReadResources<T>(resources: seq<Resource<T>>) returns (result: Option<seq<T>>)
    ensures result.Some? <==> AreUsable(resources)
    ensures result.Some? ==> result.value == RowsOf(resources)
  {
    var rows: seq<T> := [];
    var seen: set<string> := {};
    var i := 0;
    while i < |resources|
      invariant 0 <= i <= |resources| && AreUsable(resources[..i])
      invariant rows == RowsOf(resources[..i])
      invariant forall id :: id in seen <==> exists j :: 0 <= j < i && resources[j].id == id
    {
      var resource := resources[i];
      if resource.id == "" || resource.id in seen { return None; }
      seen := seen + {resource.id};
      if resource.row.None? { return None; }
      rows := rows + [resource.row.value];
      assert resources[..i + 1] == resources[..i] + [resource];
      i := i + 1;
    }
    assert resources[..i] == resources;
    result := Some(rows);
  }

  /** `tencentProductListPage`. */
  method ProductListPage<T>(codec: Codec<Cursor>, reply: Reply<T>, cursor: Cursor, limit: nat) returns (result: Result<Page<T>, Failure>)
    requires 0 <= cursor.offset
    ensures result.Ok? ==> IsPageOf(codec, reply, cursor, limit, result.value)
    ensures result.Err? ==> forall page :: !IsPageOf(codec, reply, cursor, limit, page)
    ensures result == Err(InventoryChanged) <==> IsListing(reply) && cursor.offset > 0 && reply.total.value != cursor.total
    ensures forall code :: result == Err(ProviderRefused(code)) <==> reply == Refused(code) && code != ""
    ensures result != Err(InvalidCursor)
  {
    if reply.Malformed? { return Err(InvalidResponse); }
    if reply.Refused? {
      if reply.code == "" { return Err(InvalidResponse); }
      return Err(ProviderRefused(reply.code));
    }
    if reply.total.None? || reply.total.value < 0 || reply.resources.None? { return Err(InvalidResponse); }
    var total, resources := reply.total.value, reply.resources.value;
    if cursor.offset > 0 && total != cursor.total { return Err(InventoryChanged); }
    if |resources| > limit || cursor.offset > total || |resources| > total - cursor.offset || (|resources| == 0 && cursor.offset < total) {
      return Err(InvalidResponse);
    }
    var rows := ReadResources(resources);
    if rows.None? { return Err(InvalidResponse); }
    var next := cursor.offset + |resources|;
    var nextToken := "";
    if next < total {
      nextToken := codec.encode(cursor.(offset := next, total := total));
    }
    result := Ok(Page(rows.value, nextToken, |resources|));
  }

  /** A cursor is accepted exactly in the scope it was made for, if its offset lies inside its total. */
  lemma AcceptedExactlyWhen(codec: Codec<Cursor>, scope: Scope, c: Cursor)
    requires IsCodec(codec)
    ensures DecodeCursor(codec, scope, codec.encode(c)) == if c.scope == scope && 0 < c.offset < c.total then Some(c) else None
  {
    assert codec.encode(c) != "" && codec.decode(codec.encode(c)) == Some(c);
  }

  /** A page has no more rows than were asked for, or than a hundred if that was no number from one to a
      hundred. */
  lemma PagesAreBounded<T>(codec: Codec<Cursor>, reply: Reply<T>, cursor: Cursor, limit: int, page: Page<T>)
    requires IsPageOf(codec, reply, cursor, PageLimit(limit), page)
    ensures |page.rows| == page.scanned <= if 1 <= limit <= 100 then limit else 100
    ensures 1 <= limit <= 100 ==> PageLimit(limit) == limit
    ensures !(1 <= limit <= 100) ==> PageLimit(limit) == 100
  {
  }

  /** A page has a row for each resource that was listed, all of which have an id that is not empty and no
      other has; they are not more than the total leaves, and not none before it is reached. */
  lemma PagesAreUsable<T>(codec: Codec<Cursor>, reply: Reply<T>, cursor: Cursor, limit: nat, page: Page<T>)
    requires IsPageOf(codec, reply, cursor, limit, page)
    ensures reply.Listing? && reply.total.Some? && reply.resources.Some?
    ensures var resources, left := reply.resources.value, reply.total.value - cursor.offset;
      && |page.rows| == |resources| <= left && (left > 0 ==> |resources| > 0)
      && (forall i :: 0 <= i < |resources| ==> |resources[i].id| > 0 && resources[i].row == Some(page.rows[i]))
      && (forall i, j :: 0 <= i < |resources| && 0 <= j < |resources| && resources[i].id == resources[j].id ==> i == j)
  {
  }

  /******* Chains *******/

  /** A call with the reply it happened to get. */
  datatype Call<+T> = Call(reply: Reply<T>, limit: int, page: Page<T>)

  /** The calls, none of them failing, of a caller who follows the cursors from `token`. */
  ghost predicate Linked<T>(codec: Codec<Cursor>, scope: Scope, token: string, calls: seq<Call<T>>)
    decreases |calls|
  {
    calls == [] ||
    (&& DecodeCursor(codec, scope, token).Some?
     && IsPageOf(codec, calls[0].reply, DecodeCursor(codec, scope, token).value, PageLimit(calls[0].limit), calls[0].page)
     && (calls[0].page.nextToken == "" ==> |calls| == 1)
     && Linked(codec, scope, calls[0].page.nextToken, calls[1..]))
  }

  ghost predicate Finished<T>(calls: seq<Call<T>>) { calls != [] && calls[|calls| - 1].page.nextToken == "" }

  function Scanned<T>(calls: seq<Call<T>>): nat { if calls == [] then 0 else calls[0].page.scanned + Scanned(calls[1..]) }

  function Rows<T>(calls: seq<Call<T>>): seq<T> { if calls == [] then [] else calls[0].page.rows + Rows(calls[1..]) }

  /** The cursor a page emits is accepted, and stands where the page stopped. */
  lemma CursorAdvances<T>(codec: Codec<Cursor>, reply: Reply<T>, cursor: Cursor, limit: nat, page: Page<T>)
    requires IsCodec(codec) && 0 <= cursor.offset && IsPageOf(codec, reply, cursor, limit, page) && page.nextToken != ""
    ensures 0 < page.scanned
    ensures DecodeCursor(codec, cursor.scope, page.nextToken)
      == Some(Cursor(cursor.scope, cursor.offset + page.scanned, reply.total.value))
  {
    var next := cursor.(offset := cursor.offset + page.scanned, total := reply.total.value);
    assert codec.decode(codec.encode(next)) == Some(next);
  }

  lemma LastPageReachesTotal<T>(codec: Codec<Cursor>, reply: Reply<T>, cursor: Cursor, limit: nat, page: Page<T>)
    requires IsCodec(codec) && 0 <= cursor.offset && IsPageOf(codec, reply, cursor, limit, page) && page.nextToken == ""
    ensures cursor.offset + page.scanned == reply.total.value
  {
    var next := cursor.(offset := cursor.offset + page.scanned, total := reply.total.value);
    assert codec.encode(next) != "";
  }

  ghost predicate Reports<T>(total: int, calls: seq<Call<T>>) {
    forall i :: 0 <= i < |calls| ==> IsListing(calls[i].reply) && calls[i].reply.total.value == total
  }

  lemma {:induction false} ChainFrom<T>(codec: Codec<Cursor>, scope: Scope, token: string, calls: seq<Call<T>>)
    requires IsCodec(codec) && Linked(codec, scope, token, calls) && calls != []
    ensures var c := DecodeCursor(codec, scope, token).value;
      && IsListing(calls[0].reply)
      && var total := calls[0].reply.total.value;
         && Reports(total, calls) && (c.offset > 0 ==> total == c.total)
         && c.offset + Scanned(calls) <= total && |calls| - 1 <= total - c.offset
         && (Finished(calls) ==> c.offset + Scanned(calls) == total)
    decreases |calls|
  {
    var c, page, rest := DecodeCursor(codec, scope, token).value, calls[0].page, calls[1..];
    if page.nextToken == "" {
      LastPageReachesTotal(codec, calls[0].reply, c, PageLimit(calls[0].limit), page);
      assert Scanned(rest) == 0;
    } else {
      CursorAdvances(codec, calls[0].reply, c, PageLimit(calls[0].limit), page);
      if rest != [] {
        ChainFrom(codec, scope, page.nextToken, rest);
        assert forall i :: 1 <= i < |calls| ==> calls[i] == rest[i - 1];
      }
    }
  }

  /** Whatever the provider replied: a chain that ends without an error was told one total all
      along, has scanned exactly that many resources, and has delivered a row for each; and no
      chain is longer than that total, plus one. */
  lemma FinishedChainsScanTheTotal<T>(codec: Codec<Cursor>, scope: Scope, calls: seq<Call<T>>)
    requires IsCodec(codec) && Linked(codec, scope, "", calls) && calls != []
    ensures IsListing(calls[0].reply)
    ensures var total := calls[0].reply.total.value;
      && Reports(total, calls) && Scanned(calls) <= total && |calls| <= total + 1
      && |Rows(calls)| == Scanned(calls) && (Finished(calls) ==> Scanned(calls) == total)
  {
    ChainFrom(codec, scope, "", calls);
    RowsAreScanned(codec, scope, "", calls);
  }

  lemma {:induction false} RowsAreScanned<T>(codec: Codec<Cursor>, scope: Scope, token: string, calls: seq<Call<T>>)
    requires Linked(codec, scope, token, calls)
    ensures |Rows(calls)| == Scanned(calls)
    decreases |calls|
  {
    if calls != [] {
      RowsAreScanned(codec, scope, calls[0].page.nextToken, calls[1..]);
    }
  }

  /** The replies are pieces, of any size, of one list that does not change. */
  ghost predicate ServedFrom<T>(all: seq<Resource<T>>, offset: nat, calls: seq<Call<T>>)
    decreases |calls|
  {
    calls == [] ||
    (&& IsListing(calls[0].reply) && calls[0].reply.total.value == |all| && offset <= |all|
     && calls[0].reply.resources.value <= all[offset..]
     && ServedFrom(all, offset + |calls[0].reply.resources.value|, calls[1..]))
  }

  lemma JoinPieces<T>(all: seq<Resource<T>>, offset: nat, piece: seq<Resource<T>>, rest: seq<T>)
    requires (forall i :: 0 <= i < |all| ==> all[i].row.Some?) && offset <= |all| && piece <= all[offset..]
    requires rest == RowsOf(all[offset + |piece|..])
    ensures RowsOf(piece) + rest == RowsOf(all[offset..])
  {
    assert all[offset..] == piece + all[offset + |piece|..];
  }

  /** A finished chain over a list that does not change delivers the list, in order. */
  lemma {:induction false} UnchangedListIsDelivered<T>(codec: Codec<Cursor>, scope: Scope, token: string, calls: seq<Call<T>>, all: seq<Resource<T>>)
    requires IsCodec(codec) && Linked(codec, scope, token, calls) && Finished(calls)
    requires forall i :: 0 <= i < |all| ==> all[i].row.Some?
    requires DecodeCursor(codec, scope, token).value.offset <= |all| && ServedFrom(all, DecodeCursor(codec, scope, token).value.offset, calls)
    ensures Rows(calls) == RowsOf(all[DecodeCursor(codec, scope, token).value.offset..])
    decreases |calls|
  {
    var c, page, rest := DecodeCursor(codec, scope, token).value, calls[0].page, calls[1..];
    if page.nextToken == "" {
      LastPageReachesTotal(codec, calls[0].reply, c, PageLimit(calls[0].limit), page);
      assert Rows(rest) == [];
    } else {
      CursorAdvances(codec, calls[0].reply, c, PageLimit(calls[0].limit), page);
      UnchangedListIsDelivered(codec, scope, page.nextToken, rest, all);
    }
    JoinPieces(all, c.offset, calls[0].reply.resources.value, Rows(rest));
  }
}
