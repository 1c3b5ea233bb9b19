/** All products of a region, one after the other: internal/providers/tencent_inventory.go. */
module ProductChains {
  import opened Wrappers
  import opened Sequences
  import opened Codecs
  import ProductLists

  const OPERATIONS: seq<string> := [
    "tencent.cvm.list_instances", "tencent.cdb.list_instances", "tencent.redis.list_instances", "tencent.tke.list_clusters",
    "tencent.clb.list_load_balancers", "tencent.vpc.list_addresses", "tencent.vpc.list_nat_gateways", "tencent.cos.list_buckets"]

  const VERSION := 1

  datatype Scope = Scope(profile: string, account: string, region: string)

  datatype Cursor = Cursor(version: int, scope: Scope, product: int, token: string)

  type Page<+T> = ProductLists.Page<T>

  datatype Failure = InvalidCursor | Failed(operation: string)

  /** One page of one product's own listing, or a failure. */
  type Reader<!T> = (string, string, int) -> Result<Page<T>, Failure>

  predicate IsAccepted(scope: Scope, c: Cursor) {
    && c.version == VERSION && c.scope == scope && 0 <= c.product < |OPERATIONS| && (c.product == 0 ==> c.token != "")
  }

  function DecodeCursor(codec: Codec<Cursor>, scope: Scope, token: string): Option<Cursor> {
    if token == "" then Some(Cursor(VERSION, scope, 0, ""))
    else match codec.decode(token)
      case None => None
      case Some(c) => if IsAccepted(scope, c) then Some(c) else None
  }

  /** Where a page of a product leads: on in its listing, or to the next product's. */
  function After(c: Cursor, nextToken: string): Cursor {
    if nextToken != "" then c.(token := nextToken) else c.(product := c.product + 1, token := "")
  }

  function TokenFor(codec: Codec<Cursor>, c: Cursor): string {
    if c.product < |OPERATIONS| then codec.encode(c) else ""
  }

  function ReadAt<T>(codec: Codec<Cursor>, read: Reader<T>, c: Cursor, limit: int): Result<Page<T>, Failure> {
    if !(0 <= c.product < |OPERATIONS|) then Err(InvalidCursor)
    else match read(OPERATIONS[c.product], c.token, limit)
      case Err(e) => Err(e)
      case Ok(page) => Ok(page.(nextToken := TokenFor(codec, After(c, page.nextToken))))
  }

  /** `queryDirectResourcesWithReader`: one page of one product per call. */
  method QueryDirectResources<T>(codec: Codec<Cursor>, read: Reader<T>, scope: Scope, token: string, limit: int)
    returns (result: Result<Page<T>, Failure>)
    ensures result == match DecodeCursor(codec, scope, token)
      case None => Err(InvalidCursor)
      case Some(c) => ReadAt(codec, read, c, limit)
  {
    var cursor := Cursor(VERSION, scope, 0, "");
    if token != "" {
      var decoded := codec.decode(token);
      if decoded.None? || !IsAccepted(scope, decoded.value) { return Err(InvalidCursor); }
      cursor := decoded.value;
    }
    var answer := read(OPERATIONS[cursor.product], cursor.token, limit);
    if answer.Err? { return answer; }
    var page := answer.value;
    if page.nextToken != "" {
      cursor := cursor.(token := page.nextToken);
    } else {
      cursor := cursor.(product := cursor.product + 1, token := "");
    }
    page := page.(nextToken := "");
    if cursor.product < |OPERATIONS| {
      page := page.(nextToken := codec.encode(cursor));
    }
    result := Ok(page);
  }

  /** A cursor is accepted exactly in the scope it was made for, if it has the current version and stands at
      one of the eight products, past the beginning of the first. */
  lemma AcceptedExactlyWhen(codec: Codec<Cursor>, scope: Scope, c: Cursor)
    requires IsCodec(codec)
    ensures DecodeCursor(codec, scope, codec.encode(c)) ==
      if c.version == 1 && c.scope == scope && 0 <= c.product < 8 && !(c.product == 0 && c.token == "") then Some(c) else None
  {
    assert codec.encode(c) != "" && codec.decode(codec.encode(c)) == Some(c);
  }

  /******* Chains *******/

  /** A call: the cursor it was made at and the page the product's reader answered with. */
  datatype Call<+T> = Call(product: int, token: string, page: Page<T>)

  /** The calls, none of them failing, of a caller who follows the cursors from `token`; what the
      readers answer may change from call to call. */
  ghost predicate Linked<T>(codec: Codec<Cursor>, scope: Scope, token: string, calls: seq<Call<T>>)
    decreases |calls|
  {
    calls == [] ||
    (var c := DecodeCursor(codec, scope, token);
     && c.Some? && calls[0].product == c.value.product && calls[0].token == c.value.token
     && var next := TokenFor(codec, After(c.value, calls[0].page.nextToken));
        (next == "" ==> |calls| == 1) && Linked(codec, scope, next, calls[1..]))
  }

  /** The calls that page through one product's listing, from `token` to its end if `whole`. */
  ghost predicate IsListing<T>(product: int, token: string, calls: seq<Call<T>>, whole: bool)
    decreases |calls|
  {
    if calls == [] then !whole
    else
      && calls[0].product == product && calls[0].token == token
      && if calls[0].page.nextToken == "" then whole && |calls| == 1 else IsListing(product, calls[0].page.nextToken, calls[1..], whole)
  }

  /** Whole listings of the products from `product` on, in order, each from its empty token; the
      last listing may be cut short. */
  ghost predicate AreListings<T>(product: int, token: string, calls: seq<Call<T>>, parts: seq<seq<Call<T>>>, finished: bool)
    decreases |parts|
  {
    if parts == [] then calls == [] && finished && token == ""
    else
      && parts[0] <= calls
      && if |parts| == 1 && !finished then parts[0] == calls && IsListing(product, token, parts[0], false)
         else IsListing(product, token, parts[0], true) && AreListings(product + 1, "", calls[|parts[0]|..], parts[1..], finished)
  }

  function LastNext<T>(codec: Codec<Cursor>, scope: Scope, calls: seq<Call<T>>): string
    requires calls != []
  {
    var last := calls[|calls| - 1];
    TokenFor(codec, After(Cursor(VERSION, scope, last.product, last.token), last.page.nextToken))
  }

  ghost predicate Finished<T>(codec: Codec<Cursor>, scope: Scope, calls: seq<Call<T>>) {
    calls != [] && LastNext(codec, scope, calls) == ""
  }

  /** Every emitted cursor is accepted, and is the one that was meant. */
  lemma CursorIsAccepted(codec: Codec<Cursor>, scope: Scope, c: Cursor, nextToken: string)
    requires IsCodec(codec) && c.version == VERSION && c.scope == scope && 0 <= c.product < |OPERATIONS|
    ensures var next := After(c, nextToken);
      if next.product < |OPERATIONS| then TokenFor(codec, next) != "" && DecodeCursor(codec, scope, TokenFor(codec, next)) == Some(next)
      else TokenFor(codec, next) == "" && nextToken == "" && c.product == |OPERATIONS| - 1
  {
    var next := After(c, nextToken);
    assert codec.encode(next) != "" && codec.decode(codec.encode(next)) == Some(next);
  }

  lemma NewListing<T>(product: int, token: string, first: Call<T>, rest: seq<Call<T>>, parts: seq<seq<Call<T>>>, finished: bool)
    requires first.product == product && first.token == token && first.page.nextToken == ""
    requires AreListings(product + 1, "", rest, parts, finished) && (parts == [] ==> finished)
    ensures AreListings(product, token, [first] + rest, [[first]] + parts, finished)
  {
    assert ([first] + rest)[1..] == rest;
    assert ([[first]] + parts)[1..] == parts;
  }

  lemma LongerListing<T>(product: int, token: string, first: Call<T>, rest: seq<Call<T>>, parts: seq<seq<Call<T>>>, finished: bool)
    requires first.product == product && first.token == token && first.page.nextToken != ""
    requires AreListings(product, first.page.nextToken, rest, parts, finished) && parts != []
    ensures AreListings(product, token, [first] + rest, [[first] + parts[0]] + parts[1..], finished)
  {
    var calls, all := [first] + rest, [[first] + parts[0]] + parts[1..];
    assert all[1..] == parts[1..];
    assert all[0][1..] == parts[0];
    assert calls[|all[0]|..] == rest[|parts[0]|..];
  }

  /** The calls at a cursor split into listings: the rest of the product's own, then those of the
      products after it. */
  lemma {:induction false} SplitListings<T>(codec: Codec<Cursor>, scope: Scope, token: string, calls: seq<Call<T>>) returns (parts: seq<seq<Call<T>>>)
    requires IsCodec(codec) && Linked(codec, scope, token, calls) && calls != []
    ensures var c := DecodeCursor(codec, scope, token).value;
      && AreListings(c.product, c.token, calls, parts, Finished(codec, scope, calls))
      && 0 < |parts| && c.product + |parts| <= |OPERATIONS|
      && (Finished(codec, scope, calls) ==> c.product + |parts| == |OPERATIONS|)
    decreases |calls|
  {
    var c := DecodeCursor(codec, scope, token).value;
    var first, rest, finished := calls[0], calls[1..], Finished(codec, scope, calls);
    var next := TokenFor(codec, After(c, first.page.nextToken));
    CursorIsAccepted(codec, scope, c, first.page.nextToken);
    assert calls == [first] + rest;
    if rest == [] {
      parts := if finished then [] else [[]];
    } else {
      parts := SplitListings(codec, scope, next, rest);
    }
    if first.page.nextToken == "" {
      NewListing(c.product, c.token, first, rest, parts, finished);
      parts := [[first]] + parts;
    } else {
      LongerListing(c.product, c.token, first, rest, parts, finished);
      parts := [[first] + parts[0]] + parts[1..];
    }
  }

  lemma {:induction false} ListingsJoin<T>(product: int, token: string, calls: seq<Call<T>>, parts: seq<seq<Call<T>>>, finished: bool)
    requires AreListings(product, token, calls, parts, finished)
    ensures Flatten(parts) == calls
    decreases |parts|
  {
    if parts != [] {
      if |parts| == 1 && !finished {
        FlattenOne(parts[0]);
        assert parts == [parts[0]];
      } else {
        ListingsJoin(product + 1, "", calls[|parts[0]|..], parts[1..], finished);
      }
    }
  }

  lemma {:induction false} ListingAt<T>(product: int, token: string, calls: seq<Call<T>>, parts: seq<seq<Call<T>>>, finished: bool, p: nat)
    requires AreListings(product, token, calls, parts, finished) && p < |parts|
    ensures IsListing(product + p, if p == 0 then token else "", parts[p], finished || p < |parts| - 1)
    decreases |parts|
  {
    if p > 0 {
      ListingAt(product + 1, "", calls[|parts[0]|..], parts[1..], finished, p - 1);
    }
  }

  function Rows<T>(calls: seq<Call<T>>): seq<T> { if calls == [] then [] else calls[0].page.rows + Rows(calls[1..]) }

  /** A chain from the empty token pages through the listings of the products, in order and each from
      its beginning; only the last of them may be cut short.  A finished chain has gone through all
      eight to their ends. */
  lemma ChainsGoThroughAllProducts<T>(codec: Codec<Cursor>, scope: Scope, calls: seq<Call<T>>) returns (parts: seq<seq<Call<T>>>)
    requires IsCodec(codec) && Linked(codec, scope, "", calls) && calls != []
    ensures Flatten(parts) == calls && 0 < |parts| <= |OPERATIONS|
    ensures forall p :: 0 <= p < |parts| ==> IsListing(p, "", parts[p], Finished(codec, scope, calls) || p < |parts| - 1)
    ensures Finished(codec, scope, calls) ==> |parts| == |OPERATIONS| == 8
  {
    parts := SplitListings(codec, scope, "", calls);
    var finished := Finished(codec, scope, calls);
    ListingsJoin(0, "", calls, parts, finished);
    forall p | 0 <= p < |parts|
      ensures IsListing(p, "", parts[p], finished || p < |parts| - 1)
    {
      ListingAt(0, "", calls, parts, finished, p);
    }
  }

  lemma {:induction false} RowsJoin<T>(a: seq<Call<T>>, b: seq<Call<T>>)
    ensures Rows(a + b) == Rows(a) + Rows(b)
  {
    if a == [] {
      assert a + b == b;
    } else {
      assert (a + b)[1..] == a[1..] + b;
      RowsJoin(a[1..], b);
    }
  }

  function RowsOfParts<T>(parts: seq<seq<Call<T>>>): seq<seq<T>> {
    if parts == [] then [] else [Rows(parts[0])] + RowsOfParts(parts[1..])
  }

  /** The rows delivered are those of the listings, one listing after the other. */
  lemma {:induction false} RowsOfListings<T>(parts: seq<seq<Call<T>>>)
    ensures Rows(Flatten(parts)) == Flatten(RowsOfParts(parts))
  {
    if parts != [] {
      RowsJoin(parts[0], Flatten(parts[1..]));
      RowsOfListings(parts[1..]);
      assert RowsOfParts(parts)[1..] == RowsOfParts(parts[1..]);
    }
  }

  /******* The chain ends if each listing does *******/

  function SumOf(bounds: seq<nat>): nat { if bounds == [] then 0 else bounds[0] + SumOf(bounds[1..]) }

  /** No stretch of the calls that pages through the listing of product `p` is longer than `bounds[p]`. */
  ghost predicate IsBounded<T>(calls: seq<Call<T>>, bounds: seq<nat>) {
    |bounds| == |OPERATIONS| && forall p, lo, hi, whole :: 0 <= p < |bounds| && 0 <= lo <= hi <= |calls| && IsListing(p, "", calls[lo..hi], whole) ==> hi - lo <= bounds[p]
  }

  lemma {:induction false} ListingsAreBounded<T>(product: nat, all: seq<Call<T>>, lo: nat, parts: seq<seq<Call<T>>>, finished: bool, bounds: seq<nat>)
    requires IsBounded(all, bounds) && lo <= |all| && AreListings(product, "", all[lo..], parts, finished)
    requires product + |parts| <= |bounds|
    ensures |all| - lo <= SumOf(bounds[product..])
    decreases |parts|
  {
    if parts != [] {
      var hi := lo + |parts[0]|;
      assert all[lo..hi] == parts[0];
      if |parts| > 1 || finished {
        assert all[lo..][|parts[0]|..] == all[hi..];
        ListingsAreBounded(product + 1, all, hi, parts[1..], finished, bounds);
        assert bounds[product..][1..] == bounds[product + 1..];
      }
    }
  }

  /** A chain is no longer than the listings of the eight products together. */
  lemma ChainsEnd<T>(codec: Codec<Cursor>, scope: Scope, calls: seq<Call<T>>, bounds: seq<nat>)
    requires IsCodec(codec) && Linked(codec, scope, "", calls) && IsBounded(calls, bounds)
    ensures |calls| <= SumOf(bounds)
  {
    if calls != [] {
      var parts := SplitListings(codec, scope, "", calls);
      assert calls[0..] == calls && bounds[0..] == bounds;
      ListingsAreBounded(0, calls, 0, parts, Finished(codec, scope, calls), bounds);
    }
  }

  /** The pages of a part are those that the offset list of its product makes of some replies. */
  ghost predicate IsReadFrom<T>(codec: Codec<ProductLists.Cursor>, scope: ProductLists.Scope, part: seq<Call<T>>, listed: seq<ProductLists.Call<T>>) {
    |listed| == |part| && forall i :: 0 <= i < |part| ==> IsPageFrom(codec, scope, part[i], listed[i])
  }

  ghost predicate IsPageFrom<T>(codec: Codec<ProductLists.Cursor>, scope: ProductLists.Scope, call: Call<T>, listed: ProductLists.Call<T>) {
    var c := ProductLists.DecodeCursor(codec, scope, call.token);
    && listed.page == call.page && c.Some?
    && ProductLists.IsPageOf(codec, listed.reply, c.value, ProductLists.PageLimit(listed.limit), call.page)
  }

  lemma {:induction false} PartIsChain<T>(codec: Codec<ProductLists.Cursor>, scope: ProductLists.Scope, product: int, token: string,
                                          part: seq<Call<T>>, whole: bool, listed: seq<ProductLists.Call<T>>)
    requires IsListing(product, token, part, whole) && IsReadFrom(codec, scope, part, listed)
    ensures ProductLists.Linked(codec, scope, token, listed) && (whole ==> ProductLists.Finished(listed))
    decreases |part|
  {
    if part != [] {
      assert IsPageFrom(codec, scope, part[0], listed[0]);
      if part[0].page.nextToken != "" {
        assert forall i :: 0 <= i < |part[1..]| ==> part[1..][i] == part[i + 1] && listed[1..][i] == listed[i + 1];
        PartIsChain(codec, scope, product, part[0].page.nextToken, part[1..], whole, listed[1..]);
      }
    }
  }

  /** The part of a product that is listed by offset has at most one call more than the total that
      the provider reports, and if it is whole it has scanned exactly that total. */
  lemma PartScansTheTotal<T>(codec: Codec<ProductLists.Cursor>, scope: ProductLists.Scope, product: int, part: seq<Call<T>>, whole: bool,
                             listed: seq<ProductLists.Call<T>>)
    requires IsCodec(codec) && part != [] && IsListing(product, "", part, whole) && IsReadFrom(codec, scope, part, listed)
    ensures ProductLists.IsListing(listed[0].reply)
    ensures var total := listed[0].reply.total.value;
      |part| <= total + 1 && (whole ==> ProductLists.Scanned(listed) == |ProductLists.Rows(listed)| == total)
  {
    PartIsChain(codec, scope, product, "", part, whole, listed);
    ProductLists.FinishedChainsScanTheTotal(codec, scope, listed);
  }
}
