/** When re-paging can come to an end, and when it goes on for ever. */
module RepagingEnds {
  import opened Wrappers
  import opened Codecs
  import opened Repaging
  import opened RepagingFailures

  /** Some chain of calls, none for more than `most` rows, reaches the end. */
  ghost predicate CanFinish<T(!new)>(service: Service, codec: Codec<Cursor>, source: Source<T>, most: nat) {
    exists calls: seq<Call<T>> :: Linked(service, codec, source, "", calls) && AreWithin(calls, most) && Finished(calls)
  }

  /** The provider's own pages come to an end. */
  ghost predicate ProviderEnds<T(!new)>(source: Source<T>) {
    exists pages: seq<ProviderPage<T>> :: IsProviderChain(source, "", pages)
  }

  /** There are chains of every length. */
  ghost predicate IsEndless<T(!new)>(service: Service, codec: Codec<Cursor>, source: Source<T>, most: nat) {
    forall n: nat :: HasChain(service, codec, source, most, n)
  }

  ghost predicate HasChain<T(!new)>(service: Service, codec: Codec<Cursor>, source: Source<T>, most: nat, n: nat) {
    exists calls: seq<Call<T>> :: Linked(service, codec, source, "", calls) && AreWithin(calls, most) && |calls| == n
  }

  /******* The provider's pages *******/

  /** The provider's pages end exactly if its tokens, followed from the empty one, reach the empty one. */
  lemma ProviderEndsExactlyWhen<T(!new)>(source: Source<T>)
    ensures ProviderEnds(source) <==> exists k: nat :: 0 < k && TokenAfter(source, "", k) == ""
  {
    if ProviderEnds(source) {
      var pages: seq<ProviderPage<T>> :| IsProviderChain(source, "", pages);
      TokensOfPages(source, "", pages);
    }
    if k: nat :| 0 < k && TokenAfter(source, "", k) == "" {
      var pages := PagesTo(source, "", k);
    }
  }

  lemma {:induction false} TokensOfPages<T>(source: Source<T>, token: string, pages: seq<ProviderPage<T>>)
    requires IsProviderChain(source, token, pages)
    ensures TokenAfter(source, token, |pages|) == ""
    decreases |pages|
  {
    TokenAfterFirst(source, token, |pages|);
    if pages[0].next != "" {
      TokensOfPages(source, pages[0].next, pages[1..]);
    }
  }

  lemma {:induction false} PagesTo<T>(source: Source<T>, token: string, k: nat) returns (pages: seq<ProviderPage<T>>)
    requires 0 < k && TokenAfter(source, token, k) == ""
    ensures IsProviderChain(source, token, pages)
    decreases k
  {
    var page := source(token);
    if page.next == "" {
      pages := [page];
    } else {
      TokenAfterFirst(source, token, k);
      var rest := PagesTo(source, page.next, k - 1);
      pages := [page] + rest;
    }
  }

  /******* Pages that can be passed *******/

  /** One of the next `most` cursors fits. */
  ghost predicate FitsWithin(service: Service, codec: Codec<Cursor>, token: string, offset: int, most: nat) {
    exists next :: offset < next <= offset + most && Fits(service, codec, Cursor(token, next))
  }

  /** From offset `from` the rest of a page can be had in steps of at most `most` rows, each to a cursor
      that fits: no row is followed by `most` offsets in the page none of which fits. */
  ghost predicate HasSteps<T>(service: Service, codec: Codec<Cursor>, source: Source<T>, token: string, from: int, most: nat) {
    forall offset :: from <= offset && offset + most < |source(token).rows| ==> FitsWithin(service, codec, token, offset, most)
  }

  /** A provider page can be come to, and can be had to its end. */
  ghost predicate CanPass<T>(service: Service, codec: Codec<Cursor>, source: Source<T>, token: string, most: nat) {
    (token != "" ==> Fits(service, codec, Cursor(token, 0))) && HasSteps(service, codec, source, token, 0, most)
  }

  ghost predicate CanPassAll<T>(service: Service, codec: Codec<Cursor>, source: Source<T>, most: nat) {
    forall k: nat :: CanPass(service, codec, source, TokenAfter(source, "", k), most)
  }

  /** ElastiCache passes them all. */
  lemma ElastiCachePasses<T>(codec: Codec<Cursor>, source: Source<T>, most: nat)
    requires 1 <= most
    ensures CanPassAll(ElastiCache, codec, source, most)
  {
    forall k: nat
      ensures CanPass(ElastiCache, codec, source, TokenAfter(source, "", k), most)
    {
      var token := TokenAfter(source, "", k);
      forall offset: int
        ensures FitsWithin(ElastiCache, codec, token, offset, most)
      {
        assert Fits(ElastiCache, codec, Cursor(token, offset + 1));
      }
    }
  }

  /******* Chains that end *******/

  /** What a finished chain shows of the provider's pages: after the first they can be passed. */
  ghost predicate PassesPages<T>(service: Service, codec: Codec<Cursor>, source: Source<T>, token: string, pages: seq<ProviderPage<T>>, most: nat)
    decreases |pages|
  {
    IsProviderChain(source, token, pages)
    && (pages[0].next != "" ==>
          CanPass(service, codec, source, pages[0].next, most) && PassesPages(service, codec, source, pages[0].next, pages[1..], most))
  }

  lemma {:induction false} FinishedPasses<T>(service: Service, codec: Codec<Cursor>, source: Source<T>, token: string, c: Cursor, calls: seq<Call<T>>, most: nat)
    returns (pages: seq<ProviderPage<T>>)
    requires IsCodec(codec) && DecodeCursor(service, codec, token) == Some(c) && IsInside(c, source(c.token))
    requires Linked(service, codec, source, token, calls) && Finished(calls) && AreWithin(calls, most)
    ensures PassesPages(service, codec, source, c.token, pages, most) && HasSteps(service, codec, source, c.token, c.offset, most)
    decreases |calls|
  {
    var page, next := source(c.token), NextCursor(source, c, calls[0].limit);
    var end := EndOf(c, page, calls[0].limit);
    CallHandsOut(service, codec, source, token, c, calls[0].limit);
    if calls[0].page.nextToken == "" {
      pages := [page];
    } else {
      pages := FinishedPasses(service, codec, source, calls[0].page.nextToken, next, calls[1..], most);
      if end < |page.rows| {
        StepToNext(service, codec, source, c, end, most);
      } else {
        pages := [page] + pages;
      }
    }
  }

  lemma StepToNext<T>(service: Service, codec: Codec<Cursor>, source: Source<T>, c: Cursor, end: int, most: nat)
    requires end <= c.offset + most && Fits(service, codec, Cursor(c.token, end)) && HasSteps(service, codec, source, c.token, end, most)
    ensures HasSteps(service, codec, source, c.token, c.offset, most)
  {
    forall offset | c.offset <= offset && offset + most < |source(c.token).rows|
      ensures FitsWithin(service, codec, c.token, offset, most)
    {
      assert offset < end ==> Fits(service, codec, Cursor(c.token, end)) && end <= offset + most;
    }
  }

  /** After the last page the tokens come again from the first, so all of them are those of the pages. */
  lemma {:induction false} PassesAll<T>(service: Service, codec: Codec<Cursor>, source: Source<T>, all: seq<ProviderPage<T>>,
                                        token: string, pages: seq<ProviderPage<T>>, k: nat, most: nat)
    requires PassesPages(service, codec, source, "", all, most) && CanPass(service, codec, source, "", most)
    requires PassesPages(service, codec, source, token, pages, most) && CanPass(service, codec, source, token, most)
    ensures CanPass(service, codec, source, TokenAfter(source, token, k), most)
    decreases k
  {
    if k > 0 {
      TokenAfterFirst(source, token, k);
      if pages[0].next == "" {
        PassesAll(service, codec, source, all, "", all, k - 1, most);
      } else {
        PassesAll(service, codec, source, all, pages[0].next, pages[1..], k - 1, most);
      }
    }
  }

  /** Later in the page, or at the beginning of the next. */
  predicate IsLater<T>(source: Source<T>, k: nat, c: Cursor, c': Cursor) {
    var page := source(c.token);
    || (c'.token == c.token && c.offset < c'.offset < |page.rows|)
    || (page.next != "" && c' == Cursor(TokenAfter(source, "", k + 1), 0))
  }

  /** A call that takes a page that can be passed to its end, or at least to a later cursor that fits. */
  lemma GoodCall<T>(service: Service, codec: Codec<Cursor>, source: Source<T>, token: string, k: nat, c: Cursor, most: nat) returns (limit: nat)
    requires IsCodec(codec) && 1 <= most && CanPassAll(service, codec, source, most)
    requires DecodeCursor(service, codec, token) == Some(c) && IsInside(c, source(c.token)) && c.token == TokenAfter(source, "", k)
    requires service.ECS? ==> !LoopsAt(source, c.token)
    ensures 1 <= limit <= most && Respond(service, codec, source, token, limit).Ok?
    ensures var next, c' := Respond(service, codec, source, token, limit).value.nextToken, NextCursor(source, c, limit);
      && (next == "" ==> source(c.token).next == "")
      && (next != "" ==> DecodeCursor(service, codec, next) == Some(c') && IsLater(source, k, c, c'))
  {
    var page := source(c.token);
    assert CanPass(service, codec, source, c.token, most) && CanPass(service, codec, source, TokenAfter(source, "", k + 1), most);
    if c.offset + most < |page.rows| {
      assert FitsWithin(service, codec, c.token, c.offset, most);
      var offset :| c.offset < offset <= c.offset + most && Fits(service, codec, Cursor(c.token, offset));
      limit := offset - c.offset;
    } else {
      limit := most;
    }
    CallHandsOut(service, codec, source, token, c, limit);
  }

  lemma {:induction false} FinishFrom<T>(service: Service, codec: Codec<Cursor>, source: Source<T>, token: string, k: nat, c: Cursor,
                                         pages: seq<ProviderPage<T>>, most: nat) returns (calls: seq<Call<T>>)
    requires IsCodec(codec) && 1 <= most && CanPassAll(service, codec, source, most)
    requires DecodeCursor(service, codec, token) == Some(c) && IsAt(source, c, pages) && c.token == TokenAfter(source, "", k)
    ensures Linked(service, codec, source, token, calls) && AreWithin(calls, most) && Finished(calls)
    decreases |pages|, |source(c.token).rows| - c.offset
  {
    NoTokenRepeats(source, c.token, pages);
    var limit := GoodCall(service, codec, source, token, k, c, most);
    var page, next := Respond(service, codec, source, token, limit).value, NextCursor(source, c, limit);
    calls := [Call(limit, page)];
    if page.nextToken != "" {
      var rest;
      if next.token == c.token {
        rest := FinishFrom(service, codec, source, page.nextToken, k, next, pages, most);
      } else {
        rest := FinishFrom(service, codec, source, page.nextToken, k + 1, next, pages[1..], most);
      }
      calls := calls + rest;
    }
  }

  /** A chain with limits up to `most` can reach its end exactly if the provider's own pages end and each
      of them can be passed. */
  lemma FinishesExactlyWhen<T(!new)>(service: Service, codec: Codec<Cursor>, source: Source<T>, most: nat)
    requires IsCodec(codec) && 1 <= most
    ensures CanFinish(service, codec, source, most) <==> ProviderEnds(source) && CanPassAll(service, codec, source, most)
  {
    if CanFinish(service, codec, source, most) {
      var calls: seq<Call<T>> :| Linked(service, codec, source, "", calls) && AreWithin(calls, most) && Finished(calls);
      var pages := FinishedPasses(service, codec, source, "", FIRST, calls, most);
      forall k: nat
        ensures CanPass(service, codec, source, TokenAfter(source, "", k), most)
      {
        PassesAll(service, codec, source, pages, "", pages, k, most);
      }
    }
    if ProviderEnds(source) && CanPassAll(service, codec, source, most) {
      var pages: seq<ProviderPage<T>> :| IsProviderChain(source, "", pages);
      var calls := FinishFrom(service, codec, source, "", 0, FIRST, pages, most);
    }
  }

  /******* Chains that go on for ever *******/

  lemma {:induction false} GoOnFrom<T(!new)>(service: Service, codec: Codec<Cursor>, source: Source<T>, token: string, k: nat, c: Cursor, most: nat, n: nat)
    returns (calls: seq<Call<T>>)
    requires IsCodec(codec) && 1 <= most && CanPassAll(service, codec, source, most)
    requires !ProviderEnds(source) && (service.ECS? ==> !ReachesLoop(source))
    requires DecodeCursor(service, codec, token) == Some(c) && IsInside(c, source(c.token)) && c.token == TokenAfter(source, "", k)
    ensures Linked(service, codec, source, token, calls) && AreWithin(calls, most) && |calls| == n
    decreases n
  {
    calls := [];
    if n > 0 {
      assert !LoopsAt(source, TokenAfter(source, "", k)) || service.ElastiCache?;
      var limit := GoodCall(service, codec, source, token, k, c, most);
      var page, next := Respond(service, codec, source, token, limit).value, NextCursor(source, c, limit);
      assert page.nextToken != "" by {
        ProviderEndsExactlyWhen(source);
        assert TokenAfter(source, "", k + 1) != "";
      }
      var rest := GoOnFrom(service, codec, source, page.nextToken, if next.token == c.token && next.offset > 0 then k else k + 1, next, most, n - 1);
      calls := [Call(limit, page)] + rest;
    }
  }

  /** No call leads past offset `last` of a page: it is too long to come to at all, or the cursors after
      `last` are too long, or the page names itself as the next. */
  ghost predicate StopsAt<T>(service: Service, codec: Codec<Cursor>, source: Source<T>, token: string, last: int, most: nat) {
    var size := |source(token).rows|;
    || (last == -1 && token != "" && !Fits(service, codec, Cursor(token, 0)))
    || (0 <= last && last + most < size && !FitsWithin(service, codec, token, last, most))
    || (last == size && service.ECS? && LoopsAt(source, token))
  }

  /** The most calls that fit before the end of the page `k` pages away. */
  function RoomTo<T>(source: Source<T>, token: string, k: nat): nat
    decreases k
  {
    |source(token).rows| + 1 + (if k == 0 then 0 else RoomTo(source, source(token).next, k - 1))
  }

  lemma {:induction false} StopBounds<T>(service: Service, codec: Codec<Cursor>, source: Source<T>, token: string, c: Cursor, calls: seq<Call<T>>,
                                         k: nat, last: int, most: nat)
    requires IsCodec(codec) && Linked(service, codec, source, token, calls) && AreWithin(calls, most)
    requires DecodeCursor(service, codec, token) == Some(c) && IsInside(c, source(c.token))
    requires StopsAt(service, codec, source, TokenAfter(source, c.token, k), last, most) && (k == 0 ==> c.offset <= last)
    ensures |calls| + c.offset <= RoomTo(source, c.token, k)
    decreases |calls|
  {
    if 1 < |calls| {
      var page, next := source(c.token), NextCursor(source, c, calls[0].limit);
      CallHandsOut(service, codec, source, token, c, calls[0].limit);
      if EndOf(c, page, calls[0].limit) < |page.rows| {
        StopBounds(service, codec, source, calls[0].page.nextToken, next, calls[1..], k, last, most);
      } else {
        assert k > 0;
        TokenAfterFirst(source, c.token, k);
        StopBounds(service, codec, source, calls[0].page.nextToken, next, calls[1..], k - 1, last, most);
      }
    }
  }

  lemma StopEnds<T(!new)>(service: Service, codec: Codec<Cursor>, source: Source<T>, k: nat, last: int, most: nat)
    requires IsCodec(codec) && StopsAt(service, codec, source, TokenAfter(source, "", k), last, most)
    ensures !IsEndless(service, codec, source, most)
  {
    var n := RoomTo(source, "", k) + 1;
    if HasChain(service, codec, source, most, n) {
      var calls: seq<Call<T>> :| Linked(service, codec, source, "", calls) && AreWithin(calls, most) && |calls| == n;
      StopBounds(service, codec, source, "", FIRST, calls, k, last, most);
    }
  }

  lemma PagesEnd<T(!new)>(service: Service, codec: Codec<Cursor>, source: Source<T>, most: nat)
    requires IsCodec(codec) && ProviderEnds(source)
    ensures !IsEndless(service, codec, source, most)
  {
    var pages: seq<ProviderPage<T>> :| IsProviderChain(source, "", pages);
    var n := |AllRows(pages)| + |pages| + 1;
    if HasChain(service, codec, source, most, n) {
      var calls: seq<Call<T>> :| Linked(service, codec, source, "", calls) && AreWithin(calls, most) && |calls| == n;
      ChainsDeliverProviderPages(service, codec, source, calls, pages);
    }
  }

  lemma StopOfPage<T>(service: Service, codec: Codec<Cursor>, source: Source<T>, token: string, most: nat) returns (last: int)
    requires !CanPass(service, codec, source, token, most)
    ensures StopsAt(service, codec, source, token, last, most)
  {
    last := -1;
    if token == "" || Fits(service, codec, Cursor(token, 0)) {
      last :| 0 <= last && last + most < |source(token).rows| && !FitsWithin(service, codec, token, last, most);
    }
  }

  /** Chains go on for ever exactly if the provider's pages do not end, each of them can be passed, and,
      for ECS, no token is answered with itself: longer cycles are not noticed. */
  lemma EndlessExactlyWhen<T(!new)>(service: Service, codec: Codec<Cursor>, source: Source<T>, most: nat)
    requires IsCodec(codec) && 1 <= most
    ensures IsEndless(service, codec, source, most) <==>
      !ProviderEnds(source) && CanPassAll(service, codec, source, most) && (service.ECS? ==> !ReachesLoop(source))
  {
    if ProviderEnds(source) {
      PagesEnd(service, codec, source, most);
    } else if !CanPassAll(service, codec, source, most) {
      var k: nat :| !CanPass(service, codec, source, TokenAfter(source, "", k), most);
      var last := StopOfPage(service, codec, source, TokenAfter(source, "", k), most);
      StopEnds(service, codec, source, k, last, most);
    } else if service.ECS? && ReachesLoop(source) {
      var k: nat :| LoopsAt(source, TokenAfter(source, "", k));
      StopEnds(service, codec, source, k, |source(TokenAfter(source, "", k)).rows|, most);
    } else {
      forall n: nat
        ensures HasChain(service, codec, source, most, n)
      {
        var calls := GoOnFrom(service, codec, source, "", 0, FIRST, most, n);
      }
    }
  }

  /** ElastiCache can finish exactly if the provider's pages end, and otherwise goes on for ever. */
  lemma ElastiCacheEndsExactlyWhen<T(!new)>(codec: Codec<Cursor>, source: Source<T>, most: nat)
    requires IsCodec(codec) && 1 <= most
    ensures CanFinish(ElastiCache, codec, source, most) <==> ProviderEnds(source)
    ensures IsEndless(ElastiCache, codec, source, most) <==> !ProviderEnds(source)
  {
    ElastiCachePasses(codec, source, most);
    FinishesExactlyWhen(ElastiCache, codec, source, most);
    EndlessExactlyWhen(ElastiCache, codec, source, most);
  }

  /******* Three providers *******/

  /** The bytes of a cursor as JSON: its token, each character taking one to six bytes, and what stands
      around it, the offset having no more than three digits. */
  ghost predicate IsSize(codec: Codec<Cursor>, size: string -> nat) {
    forall c: Cursor :: |c.token| <= size(codec.encode(c)) && (0 <= c.offset < 1000 ==> size(codec.encode(c)) <= 6 * |c.token| + 16)
  }

  /** After the first page, every page names itself. */
  function Stuck(): Source<int> { (token: string) => ProviderPage([1], "a") }

  /** After the first page, two pages name each other. */
  function Alternating(): Source<int> { (token: string) => ProviderPage([1], if token == "a" then "b" else "a") }

  /** Two pages, the second with a token that is too long. */
  function TwoPages(long: string): Source<int> {
    (token: string) => if token == "" then ProviderPage([1], long) else ProviderPage([2], "")
  }

  lemma {:induction false} StuckTokens(k: nat)
    ensures 0 < k ==> TokenAfter(Stuck(), "", k) == "a"
  {
  }

  lemma {:induction false} AlternatingTokens(k: nat)
    ensures TokenAfter(Alternating(), "", k) in {"", "a", "b"} && (0 < k ==> TokenAfter(Alternating(), "", k) != "")
  {
    if k > 0 {
      AlternatingTokens(k - 1);
    }
  }

  /** A page that names itself keeps ElastiCache going for ever and stops ECS; two pages that name each
      other keep both going. */
  lemma RepeatingProviders(codec: Codec<Cursor>, size: string -> nat, most: nat)
    requires IsCodec(codec) && IsSize(codec, size) && 1 <= most
    ensures IsEndless(ElastiCache, codec, Stuck(), most)
    ensures !IsEndless(ECS(size), codec, Stuck(), most) && !CanFinish(ECS(size), codec, Stuck(), most)
    ensures IsEndless(ElastiCache, codec, Alternating(), most) && IsEndless(ECS(size), codec, Alternating(), most)
  {
    forall k: nat
      ensures 0 < k ==> TokenAfter(Stuck(), "", k) != "" && TokenAfter(Alternating(), "", k) != ""
      ensures !LoopsAt(Alternating(), TokenAfter(Alternating(), "", k))
      ensures CanPass(ECS(size), codec, Alternating(), TokenAfter(Alternating(), "", k), most)
    {
      StuckTokens(k);
      AlternatingTokens(k);
      ShortTokenFits(codec, size, TokenAfter(Alternating(), "", k));
    }
    ProviderEndsExactlyWhen(Stuck());
    ProviderEndsExactlyWhen(Alternating());
    StuckTokens(1);
    assert LoopsAt(Stuck(), TokenAfter(Stuck(), "", 1));
    ElastiCacheEndsExactlyWhen(codec, Stuck(), most);
    EndlessExactlyWhen(ECS(size), codec, Stuck(), most);
    FinishesExactlyWhen(ECS(size), codec, Stuck(), most);
    ElastiCacheEndsExactlyWhen(codec, Alternating(), most);
    EndlessExactlyWhen(ECS(size), codec, Alternating(), most);
  }

  lemma ShortTokenFits(codec: Codec<Cursor>, size: string -> nat, token: string)
    requires IsSize(codec, size) && |token| <= 680
    ensures Fits(ECS(size), codec, Cursor(token, 0))
  {
  }

  /** A provider of two pages whose second has a token above the size of a cursor: ElastiCache delivers
      both; ECS hands out a cursor after the first and then rejects it. */
  lemma LongTokenStopsECS(codec: Codec<Cursor>, size: string -> nat, long: string, most: nat)
    requires IsCodec(codec) && IsSize(codec, size) && MAX_SIZE < |long| && 1 <= most
    ensures ProviderEnds(TwoPages(long)) && CanFinish(ElastiCache, codec, TwoPages(long), most)
    ensures !CanFinish(ECS(size), codec, TwoPages(long), most) && !IsEndless(ECS(size), codec, TwoPages(long), most)
    ensures var first := Respond(ECS(size), codec, TwoPages(long), "", most);
      first.Ok? && Respond(ECS(size), codec, TwoPages(long), first.value.nextToken, most) == Err(InvalidCursor)
  {
    var source := TwoPages(long);
    assert IsProviderChain(source, "", [source(""), source(long)]);
    assert !CanPass(ECS(size), codec, source, TokenAfter(source, "", 1), most);
    ElastiCacheEndsExactlyWhen(codec, source, most);
    FinishesExactlyWhen(ECS(size), codec, source, most);
    EndlessExactlyWhen(ECS(size), codec, source, most);
    CallHandsOut(ECS(size), codec, source, "", FIRST, most);
  }
}
