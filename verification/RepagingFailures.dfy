/** When the next call of a chain of re-paged pages fails. */
module RepagingFailures {
  import opened Wrappers
  import opened Codecs
  import opened Repaging

  const FIRST := Cursor("", 0)

  /******* Where a chain stands *******/

  /** Where a call leads that does not end the chain. */
  function NextCursor<T>(source: Source<T>, c: Cursor, limit: nat): (next: Cursor)
    requires IsInside(c, source(c.token))
    ensures IsInside(next, source(next.token))
  {
    var page := source(c.token);
    if EndOf(c, page, limit) < |page.rows| then Cursor(c.token, EndOf(c, page, limit)) else Cursor(page.next, 0)
  }

  /** Where calls lead: only the provider's pages and the limits decide. */
  function Standing<T>(source: Source<T>, c: Cursor, calls: seq<Call<T>>): (at: Cursor)
    requires IsInside(c, source(c.token))
    ensures IsInside(at, source(at.token))
    decreases |calls|
  {
    if calls == [] then c else Standing(source, NextCursor(source, c, calls[0].limit), calls[1..])
  }

  /** The token a chain has come to. */
  function LastToken<T>(token: string, calls: seq<Call<T>>): string {
    if calls == [] then token else calls[|calls| - 1].page.nextToken
  }

  /** The cursor a call hands out, if it does not end the chain. */
  lemma CallHandsOut<T>(service: Service, codec: Codec<Cursor>, source: Source<T>, token: string, c: Cursor, limit: nat)
    requires IsCodec(codec) && DecodeCursor(service, codec, token) == Some(c) && IsInside(c, source(c.token)) && 1 <= limit
    requires Respond(service, codec, source, token, limit).Ok?
    ensures var next, c' := Respond(service, codec, source, token, limit).value.nextToken, NextCursor(source, c, limit);
      && (next != "" <==> c' != FIRST)
      && (next != "" ==> next == codec.encode(c') && DecodeCursor(service, codec, next) == if Fits(service, codec, c') then Some(c') else None)
  {
    var c' := NextCursor(source, c, limit);
    assert codec.encode(c') != "" && codec.decode(codec.encode(c')) == Some(c');
  }

  /** An unfinished chain has come to the cursor where its calls lead; that cursor is accepted exactly
      if it fits. */
  lemma {:induction false} ChainStands<T>(service: Service, codec: Codec<Cursor>, source: Source<T>, token: string, calls: seq<Call<T>>, c: Cursor)
    requires IsCodec(codec) && Linked(service, codec, source, token, calls) && !Finished(calls)
    requires DecodeCursor(service, codec, token) == Some(c) && IsInside(c, source(c.token))
    ensures var at := Standing(source, c, calls);
      && (calls != [] ==> at != FIRST)
      && DecodeCursor(service, codec, LastToken(token, calls)) == if calls == [] || Fits(service, codec, at) then Some(at) else None
    decreases |calls|
  {
    if calls != [] {
      CallHandsOut(service, codec, source, token, c, calls[0].limit);
      if calls[1..] != [] {
        ChainStands(service, codec, source, calls[0].page.nextToken, calls[1..], NextCursor(source, c, calls[0].limit));
      }
    }
  }

  /******* The call that fails *******/

  /** The call reaches the end of a provider page that names itself as the next. */
  predicate MeetsLoop<T>(source: Source<T>, c: Cursor, limit: nat)
    requires IsInside(c, source(c.token))
  {
    var page := source(c.token);
    EndOf(c, page, limit) == |page.rows| && LoopsAt(source, c.token)
  }

  predicate LoopsAt<T>(source: Source<T>, token: string) { token != "" && source(token).next == token }

  /** The call after an unfinished chain fails exactly if the service is ECS and either the cursor that
      was handed out is too long, or the call reaches the end of a provider page that names itself. */
  lemma FailsExactlyWhen<T>(service: Service, codec: Codec<Cursor>, source: Source<T>, calls: seq<Call<T>>, limit: nat)
    requires IsCodec(codec) && Linked(service, codec, source, "", calls) && !Finished(calls)
    ensures var at := Standing(source, FIRST, calls);
      Respond(service, codec, source, LastToken("", calls), limit).Err? <==>
        service.ECS? && ((calls != [] && !Fits(service, codec, at)) || MeetsLoop(source, at, limit))
  {
    ChainStands(service, codec, source, "", calls, FIRST);
  }

  /** Over provider pages that end, a chain stands before those that are left. */
  lemma {:induction false} StandsInPages<T>(service: Service, codec: Codec<Cursor>, source: Source<T>, token: string, calls: seq<Call<T>>, c: Cursor,
                                            pages: seq<ProviderPage<T>>) returns (rest: seq<ProviderPage<T>>)
    requires IsCodec(codec) && Linked(service, codec, source, token, calls) && !Finished(calls)
    requires DecodeCursor(service, codec, token) == Some(c) && IsAt(source, c, pages)
    ensures IsAt(source, Standing(source, c, calls), rest)
    decreases |calls|
  {
    rest := pages;
    if calls != [] {
      CallDelivers(service, codec, source, c, pages, calls[0].limit);
      CallHandsOut(service, codec, source, token, c, calls[0].limit);
      var next := After(c, pages, calls[0].limit).value;
      rest := next.1;
      if calls[1..] != [] {
        rest := StandsInPages(service, codec, source, calls[0].page.nextToken, calls[1..], next.0, next.1);
      }
    }
  }

  lemma {:induction false} LinkedExtends<T>(service: Service, codec: Codec<Cursor>, source: Source<T>, token: string, calls: seq<Call<T>>, call: Call<T>)
    requires Linked(service, codec, source, token, calls) && !Finished(calls) && 1 <= call.limit
    requires Respond(service, codec, source, LastToken(token, calls), call.limit) == Ok(call.page)
    ensures Linked(service, codec, source, token, calls + [call])
    decreases |calls|
  {
    if calls == [] {
      assert (calls + [call])[1..] == [];
    } else {
      LinkedExtends(service, codec, source, calls[0].page.nextToken, calls[1..], call);
      assert (calls + [call])[1..] == calls[1..] + [call];
    }
  }

  /** Over provider pages that end, the call after an unfinished chain goes on exactly if the cursor
      that was handed out fits, so for ElastiCache always; it delivers no more rows than it asks for. */
  lemma ChainsGoOnExactlyWhen<T>(service: Service, codec: Codec<Cursor>, source: Source<T>, calls: seq<Call<T>>, pages: seq<ProviderPage<T>>, limit: nat)
    requires IsCodec(codec) && IsProviderChain(source, "", pages) && 1 <= limit
    requires Linked(service, codec, source, "", calls) && !Finished(calls)
    ensures var result := Respond(service, codec, source, LastToken("", calls), limit);
      && (result.Ok? <==> calls == [] || Fits(service, codec, Standing(source, FIRST, calls)))
      && (result.Ok? ==> |result.value.rows| <= limit && Linked(service, codec, source, "", calls + [Call(limit, result.value)]))
  {
    FailsExactlyWhen(service, codec, source, calls, limit);
    ChainStands(service, codec, source, "", calls, FIRST);
    var rest := StandsInPages(service, codec, source, "", calls, FIRST, pages);
    NoTokenRepeats(source, Standing(source, FIRST, calls).token, rest);
    var result := Respond(service, codec, source, LastToken("", calls), limit);
    if result.Ok? {
      LinkedExtends(service, codec, source, "", calls, Call(limit, result.value));
    }
  }

  /******* No call fails *******/

  /** The provider's token after `k` pages, from `token` on; after the last page they come again from
      the first. */
  function TokenAfter<T>(source: Source<T>, token: string, k: nat): string
    decreases k
  {
    if k == 0 then token else source(TokenAfter(source, token, k - 1)).next
  }

  lemma {:induction false} TokenAfterFirst<T>(source: Source<T>, token: string, k: nat)
    requires 0 < k
    ensures TokenAfter(source, token, k) == TokenAfter(source, source(token).next, k - 1)
  {
    if 1 < k {
      TokenAfterFirst(source, token, k - 1);
    }
  }

  /** A token that is answered with itself can be reached. */
  ghost predicate ReachesLoop<T>(source: Source<T>) { exists k: nat :: LoopsAt(source, TokenAfter(source, "", k)) }

  /** Every cursor that some limits lead to fits. */
  ghost predicate AllFit<T>(service: Service, codec: Codec<Cursor>, source: Source<T>) {
    forall k: nat, offset: nat :: FitsAt(service, codec, source, TokenAfter(source, "", k), offset)
  }

  ghost predicate FitsAt<T>(service: Service, codec: Codec<Cursor>, source: Source<T>, token: string, offset: nat) {
    var c := Cursor(token, offset);
    IsInside(c, source(token)) && c != FIRST ==> Fits(service, codec, c)
  }

  ghost predicate AreWithin<T>(calls: seq<Call<T>>, most: nat) { forall i :: 0 <= i < |calls| ==> calls[i].limit <= most }

  /** No call of any chain fails, as long as no limit is above `most`. */
  ghost predicate NeverFails<T(!new)>(service: Service, codec: Codec<Cursor>, source: Source<T>, most: nat) {
    forall calls: seq<Call<T>>, limit: nat :: IsUnfinished(service, codec, source, calls, most) && 1 <= limit <= most ==>
      Respond(service, codec, source, LastToken("", calls), limit).Ok?
  }

  ghost predicate IsUnfinished<T>(service: Service, codec: Codec<Cursor>, source: Source<T>, calls: seq<Call<T>>, most: nat) {
    Linked(service, codec, source, "", calls) && !Finished(calls) && AreWithin(calls, most)
  }

  /** The provider leads to the token where a chain stands. */
  lemma {:induction false} TokenIsReached<T>(source: Source<T>, c: Cursor, calls: seq<Call<T>>) returns (k: nat)
    requires IsInside(c, source(c.token))
    ensures Standing(source, c, calls).token == TokenAfter(source, c.token, k)
    decreases |calls|
  {
    k := 0;
    if calls != [] {
      var next := NextCursor(source, c, calls[0].limit);
      k := TokenIsReached(source, next, calls[1..]);
      if next != Cursor(c.token, EndOf(c, source(c.token), calls[0].limit)) {
        TokenAfterFirst(source, c.token, k + 1);
        k := k + 1;
      }
    }
  }

  lemma {:induction false} StandingExtends<T>(source: Source<T>, c: Cursor, calls: seq<Call<T>>, call: Call<T>)
    requires IsInside(c, source(c.token))
    ensures Standing(source, c, calls + [call]) == NextCursor(source, Standing(source, c, calls), call.limit)
    decreases |calls|
  {
    if calls == [] {
      assert (calls + [call])[1..] == [];
    } else {
      StandingExtends(source, NextCursor(source, c, calls[0].limit), calls[1..], call);
      assert (calls + [call])[1..] == calls[1..] + [call];
    }
  }

  /** One more call, for one row. */
  lemma Walk<T(!new)>(service: Service, codec: Codec<Cursor>, source: Source<T>, calls: seq<Call<T>>, most: nat) returns (more: seq<Call<T>>)
    requires IsCodec(codec) && NeverFails(service, codec, source, most) && 1 <= most
    requires IsUnfinished(service, codec, source, calls, most)
    requires NextCursor(source, Standing(source, FIRST, calls), 1) != FIRST
    ensures IsUnfinished(service, codec, source, more, most)
    ensures Standing(source, FIRST, more) == NextCursor(source, Standing(source, FIRST, calls), 1)
  {
    var at := Standing(source, FIRST, calls);
    var page := Respond(service, codec, source, LastToken("", calls), 1).value;
    ChainStands(service, codec, source, "", calls, FIRST);
    CallHandsOut(service, codec, source, LastToken("", calls), at, 1);
    more := calls + [Call(1, page)];
    LinkedExtends(service, codec, source, "", calls, Call(1, page));
    StandingExtends(source, FIRST, calls, Call(1, page));
  }

  /** Row by row, a chain in which no call fails comes to every place the provider leads to. */
  lemma {:induction false} WalkTo<T(!new)>(service: Service, codec: Codec<Cursor>, source: Source<T>, k: nat, offset: nat, most: nat) returns (calls: seq<Call<T>>)
    requires IsCodec(codec) && NeverFails(service, codec, source, most) && 1 <= most
    requires IsInside(Cursor(TokenAfter(source, "", k), offset), source(TokenAfter(source, "", k)))
    ensures IsUnfinished(service, codec, source, calls, most) && Standing(source, FIRST, calls) == Cursor(TokenAfter(source, "", k), offset)
    decreases k, offset
  {
    if offset > 0 {
      calls := WalkTo(service, codec, source, k, offset - 1, most);
      calls := Walk(service, codec, source, calls, most);
    } else if TokenAfter(source, "", k) == "" {
      calls := [];
    } else {
      var page := source(TokenAfter(source, "", k - 1));
      calls := WalkTo(service, codec, source, k - 1, if page.rows == [] then 0 else |page.rows| - 1, most);
      calls := Walk(service, codec, source, calls, most);
    }
  }

  /** Whatever the limits, no call fails exactly if, for ECS, every cursor the provider leads to fits and
      no token is answered with itself. */
  lemma NeverFailsExactlyWhen<T(!new)>(service: Service, codec: Codec<Cursor>, source: Source<T>, most: nat)
    requires IsCodec(codec) && 1 <= most
    ensures NeverFails(service, codec, source, most) <==> AllFit(service, codec, source) && (service.ECS? ==> !ReachesLoop(source))
  {
    if NeverFails(service, codec, source, most) {
      forall k: nat, offset: nat
        ensures FitsAt(service, codec, source, TokenAfter(source, "", k), offset)
      {
        PlacesFit(service, codec, source, k, offset, most);
      }
      forall k: nat | service.ECS?
        ensures !LoopsAt(source, TokenAfter(source, "", k))
      {
        NoLoopIsMet(service, codec, source, k, most);
      }
    } else {
      var calls: seq<Call<T>>, limit: nat :| IsUnfinished(service, codec, source, calls, most) && 1 <= limit <= most
        && Respond(service, codec, source, LastToken("", calls), limit).Err?;
      FailsExactlyWhen(service, codec, source, calls, limit);
      ChainStands(service, codec, source, "", calls, FIRST);
      var k := TokenIsReached(source, FIRST, calls);
      var at := Standing(source, FIRST, calls);
      assert calls != [] && !Fits(service, codec, at) ==> !FitsAt(service, codec, source, TokenAfter(source, "", k), at.offset);
    }
  }

  lemma PlacesFit<T(!new)>(service: Service, codec: Codec<Cursor>, source: Source<T>, k: nat, offset: nat, most: nat)
    requires IsCodec(codec) && NeverFails(service, codec, source, most) && 1 <= most
    ensures FitsAt(service, codec, source, TokenAfter(source, "", k), offset)
  {
    var c := Cursor(TokenAfter(source, "", k), offset);
    if IsInside(c, source(c.token)) && c != FIRST {
      var calls := WalkTo(service, codec, source, k, offset, most);
      FailsExactlyWhen(service, codec, source, calls, 1);
      assert calls != [];
    }
  }

  lemma NoLoopIsMet<T(!new)>(service: Service, codec: Codec<Cursor>, source: Source<T>, k: nat, most: nat)
    requires IsCodec(codec) && NeverFails(service, codec, source, most) && 1 <= most && service.ECS?
    ensures !LoopsAt(source, TokenAfter(source, "", k))
  {
    var page := source(TokenAfter(source, "", k));
    var calls := WalkTo(service, codec, source, k, if page.rows == [] then 0 else |page.rows| - 1, most);
    FailsExactlyWhen(service, codec, source, calls, 1);
  }
}
