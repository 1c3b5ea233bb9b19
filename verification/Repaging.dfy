/**
 Small pages cut from the larger ones of a provider that will not list fewer than it likes: the
 cursor holds the provider's token and an offset into its page.  internal/providers/aws_raw_services.go.
*/
module Repaging {
  import opened Wrappers
  import opened Sequences
  import opened Codecs

  datatype Cursor = Cursor(token: string, offset: int)

  /** A page of the provider: its rows and the token of the next, empty on the last. */
  datatype ProviderPage<+T> = ProviderPage(rows: seq<T>, next: string)

  type Source<!T> = string -> ProviderPage<T>

  datatype Page<+T> = Page(rows: seq<T>, nextToken: string, scanned: nat)

  datatype Failure = InvalidCursor | InvalidResponse

  /** The two services differ in which cursors they accept, and only one notices a repeated token.
      `size` is the number of bytes of a cursor text, once it is out of base64. */
  datatype Service = ElastiCache | ECS(size: string -> nat)

  const MAX_SIZE := 4096

  predicate IsAccepted(service: Service, token: string, c: Cursor) {
    && 0 <= c.offset
    && match service
       case ElastiCache => c.token != "" || c.offset != 0
       case ECS(size) => size(token) <= MAX_SIZE
  }

  /** A cursor whose text is not too long to be accepted when it comes back; nothing looks at that
      when it is handed out. */
  predicate Fits(service: Service, codec: Codec<Cursor>, c: Cursor) {
    match service
    case ElastiCache => true
    case ECS(size) => size(codec.encode(c)) <= MAX_SIZE
  }

  function DecodeCursor(service: Service, codec: Codec<Cursor>, token: string): Option<Cursor> {
    if token == "" then Some(Cursor("", 0))
    else match codec.decode(token)
      case None => None
      case Some(c) => if IsAccepted(service, token, c) then Some(c) else None
  }

  predicate IsInside<T>(c: Cursor, page: ProviderPage<T>) { c.offset == 0 || 0 < c.offset < |page.rows| }

  function EndOf<T>(c: Cursor, page: ProviderPage<T>, limit: nat): (end: nat)
    requires IsInside(c, page)
    ensures c.offset <= end <= |page.rows|
  {
    Min(c.offset + limit, |page.rows|)
  }

  predicate RepeatsToken<T>(service: Service, c: Cursor, page: ProviderPage<T>, end: int) {
    service.ECS? && end == |page.rows| && page.next != "" && page.next == c.token
  }

  function NextToken<T>(codec: Codec<Cursor>, c: Cursor, page: ProviderPage<T>, end: int): string {
    if end < |page.rows| then codec.encode(Cursor(c.token, end))
    else if page.next != "" then codec.encode(Cursor(page.next, 0))
    else ""
  }

  /** What either service answers at a cursor, given the provider's page. */
  function Repage<T>(service: Service, codec: Codec<Cursor>, c: Cursor, page: ProviderPage<T>, limit: nat): Result<Page<T>, Failure> {
    if !IsInside(c, page) then Err(if service.ElastiCache? then InvalidCursor else InvalidResponse)
    else
      var end := EndOf(c, page, limit);
      if RepeatsToken(service, c, page, end) then Err(InvalidResponse)
      else Ok(Page(page.rows[c.offset..end], NextToken(codec, c, page, end), end - c.offset))
  }

  /** What a call with a token is answered. */
  function Respond<T>(service: Service, codec: Codec<Cursor>, source: Source<T>, token: string, limit: nat): Result<Page<T>, Failure> {
    match DecodeCursor(service, codec, token)
    case None => Err(InvalidCursor)
    case Some(c) => Repage(service, codec, c, source(c.token), limit)
  }

  /******* ElastiCache *******/

  datatype Cluster = Cluster(id: string, engine: string, status: string, nodes: int)

  datatype Group = Group(id: string, status: string, engine: string)

  datatype CacheReply = CacheReply(clusters: seq<Cluster>, groups: seq<Group>, marker: string, groupMarker: string)

  datatype CacheRow = ClusterRow(cluster: Cluster) | GroupRow(group: Group)

  function CacheRows(reply: CacheReply): seq<CacheRow> {
    seq(|reply.clusters|, i requires 0 <= i < |reply.clusters| => ClusterRow(reply.clusters[i]))
    + seq(|reply.groups|, i requires 0 <= i < |reply.groups| => GroupRow(reply.groups[i]))
  }

  function CachePage(reply: CacheReply): ProviderPage<CacheRow> {
    ProviderPage(CacheRows(reply), if reply.marker != "" then reply.marker else reply.groupMarker)
  }

  /** The clusters come first, then the groups, each in order; the marker of the groups counts only if there
      is none of the clusters. */
  lemma CachePageHolds(reply: CacheReply)
    ensures var page, n := CachePage(reply), |reply.clusters|;
      && |page.rows| == n + |reply.groups|
      && (forall i :: 0 <= i < n ==> page.rows[i] == ClusterRow(reply.clusters[i]))
      && (forall i :: 0 <= i < |reply.groups| ==> page.rows[n + i] == GroupRow(reply.groups[i]))
      && (reply.marker != "" ==> page.next == reply.marker) && (reply.marker == "" ==> page.next == reply.groupMarker)
  {
  }

  /** `rawElastiCache`: `ask` is one call of the provider, with its marker. */
  method RawElastiCache(codec: Codec<Cursor>, ask: string -> CacheReply, token: string, limit: nat) returns (result: Result<Page<CacheRow>, Failure>)
    ensures result == match DecodeCursor(ElastiCache, codec, token)
      case None => Err(InvalidCursor)
      case Some(c) => Repage(ElastiCache, codec, c, CachePage(ask(c.token)), limit)
  {
    var decoded := DecodeCursor(ElastiCache, codec, token);
    if decoded.None? { return Err(InvalidCursor); }
    var cursor := decoded.value;
    var out := ask(cursor.token);
    var rows: seq<CacheRow> := [];
    for i := 0 to |out.clusters|
      invariant rows == CacheRows(CacheReply(out.clusters[..i], [], "", ""))
    {
      rows := rows + [ClusterRow(out.clusters[i])];
    }
    ghost var clusters := rows;
    for i := 0 to |out.groups|
      invariant rows == clusters + CacheRows(CacheReply([], out.groups[..i], "", ""))
    {
      rows := rows + [GroupRow(out.groups[i])];
    }
    assert rows == CacheRows(out);
    if cursor.offset >= |rows| && cursor.offset != 0 { return Err(InvalidCursor); }
    var end := Min(cursor.offset + limit, |rows|);
    var marker := out.marker;
    if marker == "" { marker := out.groupMarker; }
    var nextToken := "";
    if end < |rows| {
      nextToken := codec.encode(Cursor(cursor.token, end));
    } else if marker != "" {
      nextToken := codec.encode(Cursor(marker, 0));
    }
    result := Ok(Page(rows[cursor.offset..end], nextToken, end - cursor.offset));
  }

  /******* ECS *******/

  /** `rawECS`, the rows being those of the ids the provider lists. */
  method RawECS<T>(codec: Codec<Cursor>, size: string -> nat, ask: string -> ProviderPage<string>, rowOf: string -> T, token: string, limit: nat)
    returns (result: Result<Page<T>, Failure>)
    ensures result == match DecodeCursor(ECS(size), codec, token)
      case None => Err(InvalidCursor)
      case Some(c) => Repage(ECS(size), codec, c, MapPage(rowOf, ask(c.token)), limit)
  {
    var decoded := DecodeCursor(ECS(size), codec, token);
    if decoded.None? { return Err(InvalidCursor); }
    var cursor := decoded.value;
    var out := ask(cursor.token);
    var rows: seq<T> := [];
    for i := 0 to |out.rows|
      invariant rows == MapPage(rowOf, ProviderPage(out.rows[..i], out.next)).rows
    {
      rows := rows + [rowOf(out.rows[i])];
    }
    assert out.rows[..|out.rows|] == out.rows;
    if cursor.offset >= |rows| && cursor.offset != 0 { return Err(InvalidResponse); }
    var end := Min(cursor.offset + limit, |rows|);
    var next := "";
    if end < |rows| {
      next := codec.encode(Cursor(cursor.token, end));
    } else if out.next != "" {
      if out.next == cursor.token { return Err(InvalidResponse); }
      next := codec.encode(Cursor(out.next, 0));
    }
    result := Ok(Page(rows[cursor.offset..end], next, end - cursor.offset));
  }

  function MapPage<T>(rowOf: string -> T, page: ProviderPage<string>): (rows: ProviderPage<T>)
    ensures |rows.rows| == |page.rows|
  {
    ProviderPage(seq(|page.rows|, i requires 0 <= i < |page.rows| => rowOf(page.rows[i])), page.next)
  }

  /******* Chains *******/

  /** The provider's own pages from a token to the last. */
  ghost predicate IsProviderChain<T>(source: Source<T>, token: string, pages: seq<ProviderPage<T>>)
    decreases |pages|
  {
    && pages != [] && pages[0] == source(token)
    && if pages[0].next == "" then |pages| == 1 else IsProviderChain(source, pages[0].next, pages[1..])
  }

  lemma {:induction false} ChainIsUnique<T>(source: Source<T>, token: string, a: seq<ProviderPage<T>>, b: seq<ProviderPage<T>>)
    requires IsProviderChain(source, token, a) && IsProviderChain(source, token, b)
    ensures |a| == |b|
    decreases |a|
  {
    if a[0].next != "" {
      ChainIsUnique(source, a[0].next, a[1..], b[1..]);
    }
  }

  lemma NoTokenRepeats<T>(source: Source<T>, token: string, pages: seq<ProviderPage<T>>)
    requires IsProviderChain(source, token, pages)
    ensures pages[0].next != "" ==> pages[0].next != token
  {
    if pages[0].next != "" && pages[0].next == token {
      ChainIsUnique(source, token, pages, pages[1..]);
    }
  }

  function AllRows<T>(pages: seq<ProviderPage<T>>): seq<T> { if pages == [] then [] else pages[0].rows + AllRows(pages[1..]) }

  /** The cursor stands in the first of the provider's pages still to be delivered. */
  ghost predicate IsAt<T>(source: Source<T>, c: Cursor, pages: seq<ProviderPage<T>>) {
    IsProviderChain(source, c.token, pages) && IsInside(c, pages[0])
  }

  function RowsLeft<T>(c: Cursor, pages: seq<ProviderPage<T>>): seq<T>
    requires pages != [] && IsInside(c, pages[0])
  {
    pages[0].rows[c.offset..] + AllRows(pages[1..])
  }

  datatype Call<+T> = Call(limit: nat, page: Page<T>)

  /** The calls, with any limits from 1, of a caller who follows the cursors from `token`. */
  ghost predicate Linked<T>(service: Service, codec: Codec<Cursor>, source: Source<T>, token: string, calls: seq<Call<T>>)
    decreases |calls|
  {
    calls == [] ||
    (&& 1 <= calls[0].limit && Respond(service, codec, source, token, calls[0].limit) == Ok(calls[0].page)
     && (calls[0].page.nextToken == "" ==> |calls| == 1)
     && Linked(service, codec, source, calls[0].page.nextToken, calls[1..]))
  }

  ghost predicate Finished<T>(calls: seq<Call<T>>) { calls != [] && calls[|calls| - 1].page.nextToken == "" }

  function Rows<T>(calls: seq<Call<T>>): seq<T> { if calls == [] then [] else calls[0].page.rows + Rows(calls[1..]) }

  /** Where a call leads. */
  function After<T>(c: Cursor, pages: seq<ProviderPage<T>>, limit: nat): Option<(Cursor, seq<ProviderPage<T>>)>
    requires pages != [] && IsInside(c, pages[0])
  {
    var end := EndOf(c, pages[0], limit);
    if end < |pages[0].rows| then Some((Cursor(c.token, end), pages))
    else if pages[0].next != "" then Some((Cursor(pages[0].next, 0), pages[1..]))
    else None
  }

  /** One call: it does not fail, delivers the next of the rows left, at most `limit`, and its cursor,
      if any, stands before the rest, and is accepted if it fits. */
  lemma CallDelivers<T>(service: Service, codec: Codec<Cursor>, source: Source<T>, c: Cursor, pages: seq<ProviderPage<T>>, limit: nat)
    requires IsCodec(codec) && IsAt(source, c, pages) && 1 <= limit
    ensures var result, next := Repage(service, codec, c, source(c.token), limit), After(c, pages, limit);
      && result.Ok? && |result.value.rows| == result.value.scanned <= limit
      && (next.None? <==> result.value.nextToken == "")
      && (next.None? ==> RowsLeft(c, pages) == result.value.rows)
      && (next.Some? ==>
           && IsAt(source, next.value.0, next.value.1) && RowsLeft(c, pages) == result.value.rows + RowsLeft(next.value.0, next.value.1)
           && DecodeCursor(service, codec, result.value.nextToken) == if Fits(service, codec, next.value.0) then Some(next.value.0) else None)
  {
    NoTokenRepeats(source, c.token, pages);
    var end := EndOf(c, pages[0], limit);
    var next := After(c, pages, limit);
    var rows := pages[0].rows;
    assert rows[c.offset..] == rows[c.offset..end] + rows[end..];
    if next.Some? {
      var c' := next.value.0;
      assert codec.encode(c') != "" && codec.decode(codec.encode(c')) == Some(c');
      var rest := AllRows(pages[1..]);
      assert rows[c.offset..end] + rows[end..] + rest == rows[c.offset..end] + (rows[end..] + rest);
    }
  }

  lemma {:induction false} ChainFrom<T>(service: Service, codec: Codec<Cursor>, source: Source<T>, token: string, calls: seq<Call<T>>,
                                        c: Cursor, pages: seq<ProviderPage<T>>)
    requires IsCodec(codec) && IsAt(source, c, pages)
    requires DecodeCursor(service, codec, token) == Some(c) && Linked(service, codec, source, token, calls)
    ensures Rows(calls) <= RowsLeft(c, pages) && (Finished(calls) ==> Rows(calls) == RowsLeft(c, pages))
    ensures |calls| <= |RowsLeft(c, pages)| + |pages|
    decreases |calls|
  {
    if calls != [] {
      CallDelivers(service, codec, source, c, pages, calls[0].limit);
      var next, page, rest := After(c, pages, calls[0].limit), calls[0].page, calls[1..];
      if next.Some? && rest != [] {
        ChainFrom(service, codec, source, page.nextToken, rest, next.value.0, next.value.1);
      } else {
        assert Rows(calls) == page.rows + [] == page.rows;
      }
    }
  }

  /** Re-paging refines the provider's own paging: over pages whose tokens do not lead back, and for
      any limits, a chain delivers the concatenation of the provider's pages, in order and once; it
      ends, and pages are no longer than asked for. */
  lemma ChainsDeliverProviderPages<T>(service: Service, codec: Codec<Cursor>, source: Source<T>, calls: seq<Call<T>>, pages: seq<ProviderPage<T>>)
    requires IsCodec(codec) && IsProviderChain(source, "", pages) && Linked(service, codec, source, "", calls)
    ensures Rows(calls) <= AllRows(pages) && (Finished(calls) ==> Rows(calls) == AllRows(pages))
    ensures |calls| <= |AllRows(pages)| + |pages|
  {
    ChainFrom(service, codec, source, "", calls, Cursor("", 0), pages);
    assert pages[0].rows[0..] == pages[0].rows;
  }

  /** A provider that answers with the token it was asked with: ECS fails at the end of that page,
      ElastiCache hands out a cursor to the same page once more. */
  lemma RepeatedTokens<T>(codec: Codec<Cursor>, size: string -> nat, page: ProviderPage<T>, token: string, limit: nat)
    requires token != "" && page.next == token && |page.rows| <= limit
    ensures Repage(ECS(size), codec, Cursor(token, 0), page, limit) == Err(InvalidResponse)
    ensures Repage(ElastiCache, codec, Cursor(token, 0), page, limit)
      == Ok(Page(page.rows, codec.encode(Cursor(token, 0)), |page.rows|))
  {
    assert page.rows[0..|page.rows|] == page.rows;
  }
}
