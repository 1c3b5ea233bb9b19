/** Following the daily-bill cursors through a provider whose bills do not change. */
module DailyBillChains {
  import opened Wrappers
  import opened Sequences
  import opened Codecs
  import opened DailyBills

  /** The bills of every day, and the account they are billed to by default. */
  datatype Book = Book(bills: int -> seq<Bill>, account: string)

  ghost predicate IsWellFormed(book: Book) {
    forall day :: |book.bills(day)| <= MAX_TOTAL && forall k :: 0 <= k < |book.bills(day)| ==> IsGood(day, book.account, book.bills(day)[k])
  }

  function PageStart(page: int, total: nat): (k: nat)
    requires 1 <= page
    ensures k <= total
  {
    Min((page - 1) * PAGE, total)
  }

  /** What the provider answers for one page of one day. */
  function Serve(book: Book, day: int, page: int): Response
    requires 1 <= page
  {
    var all := book.bills(day);
    Response(|all|, page, PAGE, book.account, all[PageStart(page, |all|)..PageStart(page + 1, |all|)])
  }

  function Clamp(limit: int): (n: nat)
    ensures 1 <= n <= PAGE
  {
    if limit <= 0 || limit > PAGE then PAGE else limit
  }

  /** The range and scope of a query. */
  datatype Request = Request(profile: Profile, start: int, end: int)

  function PageFor(codec: Codec<Cursor>, r: Response, q: Request, place: Place, limit: nat): Result<Page, Failure>
    requires 0 <= place.cursor.offset
  {
    var c := place.cursor;
    var from, to := StartOf(r, c), StopOf(r, c, limit);
    if HasMetadata(r, c) && AllGood(r, place.day, from, to)
    then Ok(Page(RowsBetween(q.profile, r, place.day, c.page, from, to), TokenFor(codec, NextPlace(r, place.day, q.end, c.page, to)), to - from))
    else Err(InvalidResponse)
  }

  function PageAt(codec: Codec<Cursor>, book: Book, q: Request, place: Place, limit: int): Result<Page, Failure>
    requires 0 <= place.cursor.offset && 1 <= place.cursor.page
  {
    if !Before(place.day, q.end) then Ok(Page([], "", 0))
    else PageFor(codec, Serve(book, place.day, place.cursor.page), q, place, Clamp(limit))
  }

  /** `queryCosts`. */
  method QueryCosts(codec: Codec<Cursor>, book: Book, q: Request, token: string, limit: int) returns (result: Result<Page, Failure>)
    ensures match PlaceOf(codec, q.start, q.end, token)
      case None => result == Err(InvalidCursor)
      case Some(place) => 0 <= place.cursor.offset && 1 <= place.cursor.page && result == PageAt(codec, book, q, place, limit)
  {
    var position := DailyPosition(codec, q.start, q.end, token);
    if position.Err? { return Err(position.error); }
    var day, cursor := position.value.day, position.value.cursor;
    if !Before(day, q.end) { return Ok(Page([], "", 0)); }
    var n := limit;
    if n <= 0 || n > PAGE { n := PAGE; }
    result := DailyPage(codec, q.profile, Serve(book, day, cursor.page), day, q.end, cursor, n);
  }

  /******* What there is to deliver *******/

  /** The rows of the bills of a day from position `lo` to before `hi`. */
  function RowsOn(profile: Profile, book: Book, day: int, lo: nat, hi: nat): seq<BillRow>
    requires lo <= hi <= |book.bills(day)|
  {
    if lo == hi then []
    else RowsOn(profile, book, day, lo, hi - 1) + RowOf(profile, book.account, book.bills(day)[hi - 1], day, (hi - 1) / PAGE + 1, (hi - 1) % PAGE)
  }

  function TotalOn(book: Book, day: int): nat { |book.bills(day)| }

  /** Every bill of every day from `day` whose midnight is before `end`, in order. */
  function RowsFrom(profile: Profile, book: Book, day: int, end: int): seq<BillRow>
    decreases end - day * DAY
  {
    if !Before(day, end) then [] else RowsOn(profile, book, day, 0, TotalOn(book, day)) + RowsFrom(profile, book, day + 1, end)
  }

  function CountFrom(book: Book, day: int, end: int): nat
    decreases end - day * DAY
  {
    if !Before(day, end) then 0 else TotalOn(book, day) + CountFrom(book, day + 1, end)
  }

  lemma {:induction false} RowsOnSplit(profile: Profile, book: Book, day: int, lo: nat, mid: nat, hi: nat)
    requires lo <= mid <= hi <= |book.bills(day)|
    ensures RowsOn(profile, book, day, lo, hi) == RowsOn(profile, book, day, lo, mid) + RowsOn(profile, book, day, mid, hi)
  {
    if mid < hi {
      RowsOnSplit(profile, book, day, lo, mid, hi - 1);
    }
  }

  /** The rows of a provider page are those of its positions in the day. */
  lemma {:induction false} PageRows(profile: Profile, book: Book, day: int, page: int, from: nat, to: nat)
    requires 1 <= page && (page - 1) * PAGE <= TotalOn(book, day)
    requires from <= to <= |Serve(book, day, page).items|
    ensures (page - 1) * PAGE + to <= TotalOn(book, day)
    ensures RowsBetween(profile, Serve(book, day, page), day, page, from, to) ==
      RowsOn(profile, book, day, (page - 1) * PAGE + from, (page - 1) * PAGE + to)
  {
    if from < to {
      PageRows(profile, book, day, page, from, to - 1);
      var k := (page - 1) * PAGE + to - 1;
      assert k / PAGE + 1 == page && k % PAGE == to - 1;
      assert Serve(book, day, page).items[to - 1] == book.bills(day)[k];
    }
  }

  /******* Places *******/

  function PositionIn(c: Cursor): int { (c.page - 1) * PAGE + c.offset }

  /** A place a chain can be at: within the range, and either at the start of a day or at a bill. */
  ghost predicate IsPlace(book: Book, q: Request, place: Place) {
    var c := place.cursor;
    && FirstDay(q.start) <= place.day && Before(place.day, q.end) && 1 <= c.page && 0 <= c.offset < PAGE
    && (PositionIn(c) == 0 || PositionIn(c) < TotalOn(book, place.day))
  }

  function RowsLeft(book: Book, q: Request, place: Place): seq<BillRow>
    requires 0 <= PositionIn(place.cursor) <= TotalOn(book, place.day)
  {
    RowsOn(q.profile, book, place.day, PositionIn(place.cursor), TotalOn(book, place.day)) + RowsFrom(q.profile, book, place.day + 1, q.end)
  }

  function CountLeft(book: Book, q: Request, place: Place): int {
    TotalOn(book, place.day) - PositionIn(place.cursor) + CountFrom(book, place.day + 1, q.end)
  }

  /** Later: on a later day, or further on the same day. */
  predicate IsAfter(book: Book, later: Place, place: Place) {
    place.day < later.day || (place.day == later.day && PositionIn(place.cursor) < PositionIn(later.cursor))
  }

  /** A place stands before the end of its page, unless the page is empty. */
  lemma PageHasSize(book: Book, q: Request, place: Place)
    requires IsPlace(book, q, place)
    ensures var r := Serve(book, place.day, place.cursor.page);
      && (place.cursor.page - 1) * PAGE <= TotalOn(book, place.day)
      && |r.items| == Min(PAGE, TotalOn(book, place.day) - (place.cursor.page - 1) * PAGE)
      && place.cursor.offset <= |r.items| && (place.cursor.offset == |r.items| ==> r.items == [])
  {
  }

  /** The page at a place has its metadata in order and good bills only. */
  lemma PageIsServed(book: Book, q: Request, place: Place)
    requires IsWellFormed(book) && IsPlace(book, q, place)
    ensures var r := Serve(book, place.day, place.cursor.page);
      HasMetadata(r, place.cursor) && AllGood(r, place.day, 0, |r.items|)
  {
    var all := book.bills(place.day);
    var r := Serve(book, place.day, place.cursor.page);
    PageHasSize(book, q, place);
    assert |all| <= MAX_TOTAL;
    forall i | 0 <= i < |r.items|
      ensures IsGood(place.day, book.account, r.items[i])
    {
      assert r.items[i] == all[PageStart(place.cursor.page, |all|) + i];
    }
  }

  /** Where the cursor of the page at a place leads. */
  function PlaceAfter(book: Book, q: Request, place: Place, limit: int): Option<Place>
    requires 0 <= place.cursor.offset && 1 <= place.cursor.page
  {
    var r := Serve(book, place.day, place.cursor.page);
    match NextPlace(r, place.day, q.end, place.cursor.page, StopOf(r, place.cursor, Clamp(limit)))
    case None => None
    case Some(c) => if c.period.Some? then Some(Place(c.period.value, c)) else None
  }

  /** The position in the day where the page at a place stops. */
  function StopIn(book: Book, place: Place, limit: int): int
    requires 0 <= place.cursor.offset && 1 <= place.cursor.page
  {
    (place.cursor.page - 1) * PAGE + StopOf(Serve(book, place.day, place.cursor.page), place.cursor, Clamp(limit))
  }

  /** A call at a place stops at a later position, unless the day has no bills, and the next call
      goes on there or on the next day. */
  ghost predicate GoesTo(book: Book, q: Request, place: Place, stop: int, next: Option<Place>) {
    var total := TotalOn(book, place.day);
    && PositionIn(place.cursor) <= stop <= total && (PositionIn(place.cursor) < total ==> PositionIn(place.cursor) < stop)
    && match next
       case None => stop == total && !Before(place.day + 1, q.end)
       case Some(p) =>
         && p.cursor.period == Some(p.day) && 1 <= p.cursor.page && 0 <= p.cursor.offset < PAGE && 0 <= p.cursor.total
         && if p.day == place.day then PositionIn(p.cursor) == stop < total && p.cursor.total == total
            else stop == total && p.day == place.day + 1 && Before(p.day, q.end) && p.cursor.page == 1 && p.cursor.offset == 0
  }

  lemma WhereNext(book: Book, q: Request, place: Place, limit: int)
    requires IsPlace(book, q, place)
    ensures GoesTo(book, q, place, StopIn(book, place, limit), PlaceAfter(book, q, place, limit))
  {
    PageHasSize(book, q, place);
  }

  function NextToken(codec: Codec<Cursor>, next: Option<Place>): string {
    match next case None => "" case Some(p) => codec.encode(p.cursor)
  }

  /** The page delivers the next of the rows left at the place, and its cursor, if any, is accepted
      and leads to a later place, where the rest is left. */
  ghost predicate Delivers(codec: Codec<Cursor>, book: Book, q: Request, place: Place, page: Page, next: Option<Place>)
    requires IsPlace(book, q, place)
  {
    && (next.None? <==> page.nextToken == "")
    && match next
       case None => RowsLeft(book, q, place) == page.rows && CountLeft(book, q, place) == page.scanned
       case Some(p) =>
         && IsPlace(book, q, p) && IsAfter(book, p, place) && PlaceOf(codec, q.start, q.end, page.nextToken) == next
         && RowsLeft(book, q, place) == page.rows + RowsLeft(book, q, p)
         && CountLeft(book, q, place) == page.scanned + CountLeft(book, q, p)
  }

  lemma CursorIsAccepted(codec: Codec<Cursor>, book: Book, q: Request, place: Place, stop: int, next: Place)
    requires IsCodec(codec) && IsPlace(book, q, place) && GoesTo(book, q, place, stop, Some(next))
    ensures IsPlace(book, q, next) && IsAfter(book, next, place) && codec.encode(next.cursor) != ""
    ensures PlaceOf(codec, q.start, q.end, codec.encode(next.cursor)) == Some(next)
  {
    var c := next.cursor;
    assert codec.decode(codec.encode(c)) == Some(c);
  }

  /** What is left at the next place is what is left beyond the stop. */
  lemma RestIsLeft(book: Book, q: Request, place: Place, stop: int, next: Place)
    requires IsPlace(book, q, place) && GoesTo(book, q, place, stop, Some(next)) && IsPlace(book, q, next)
    ensures 0 <= stop <= TotalOn(book, place.day)
    ensures RowsOn(q.profile, book, place.day, stop, TotalOn(book, place.day)) + RowsFrom(q.profile, book, place.day + 1, q.end) == RowsLeft(book, q, next)
    ensures TotalOn(book, place.day) - stop + CountFrom(book, place.day + 1, q.end) == CountLeft(book, q, next)
  {
  }

  /** What is left at a place is what comes before the stop, and what is left beyond it. */
  lemma StopDivides(book: Book, q: Request, place: Place, stop: int)
    requires 0 <= PositionIn(place.cursor) <= stop <= TotalOn(book, place.day)
    ensures RowsLeft(book, q, place) == RowsOn(q.profile, book, place.day, PositionIn(place.cursor), stop)
      + (RowsOn(q.profile, book, place.day, stop, TotalOn(book, place.day)) + RowsFrom(q.profile, book, place.day + 1, q.end))
  {
    RowsOnSplit(q.profile, book, place.day, PositionIn(place.cursor), stop, TotalOn(book, place.day));
    Regroup(RowsOn(q.profile, book, place.day, PositionIn(place.cursor), stop), RowsOn(q.profile, book, place.day, stop, TotalOn(book, place.day)),
            RowsFrom(q.profile, book, place.day + 1, q.end));
  }

  lemma StopDelivers(codec: Codec<Cursor>, book: Book, q: Request, place: Place, stop: int, next: Option<Place>)
    requires IsCodec(codec) && IsPlace(book, q, place) && GoesTo(book, q, place, stop, next)
    ensures var position := PositionIn(place.cursor);
      Delivers(codec, book, q, place, Page(RowsOn(q.profile, book, place.day, position, stop), NextToken(codec, next), stop - position), next)
  {
    StopDivides(book, q, place, stop);
    if next.Some? {
      CursorIsAccepted(codec, book, q, place, stop, next.value);
      RestIsLeft(book, q, place, stop, next.value);
    } else {
      Regroup(RowsOn(q.profile, book, place.day, PositionIn(place.cursor), stop), [], []);
    }
  }

  lemma Regroup(a: seq<BillRow>, b: seq<BillRow>, c: seq<BillRow>)
    ensures a + b + c == a + (b + c) && a + [] == a
  {
  }

  lemma GoodResponseIsPaged(codec: Codec<Cursor>, r: Response, q: Request, place: Place, limit: nat)
    requires 0 <= place.cursor.offset && HasMetadata(r, place.cursor) && AllGood(r, place.day, 0, |r.items|)
    ensures var from, to := StartOf(r, place.cursor), StopOf(r, place.cursor, limit);
      PageFor(codec, r, q, place, limit) == Ok(Page(RowsBetween(q.profile, r, place.day, place.cursor.page, from, to),
        TokenFor(codec, NextPlace(r, place.day, q.end, place.cursor.page, to)), to - from))
  {
    assert AllGood(r, place.day, StartOf(r, place.cursor), StopOf(r, place.cursor, limit));
  }

  lemma TokenIsNext(codec: Codec<Cursor>, book: Book, q: Request, place: Place, limit: int)
    requires 0 <= place.cursor.offset && 1 <= place.cursor.page
    ensures var r := Serve(book, place.day, place.cursor.page);
      TokenFor(codec, NextPlace(r, place.day, q.end, place.cursor.page, StopOf(r, place.cursor, Clamp(limit)))) ==
      NextToken(codec, PlaceAfter(book, q, place, limit))
  {
  }

  lemma RowsToStop(book: Book, q: Request, place: Place, limit: int)
    requires 0 <= place.cursor.offset && 1 <= place.cursor.page && (place.cursor.page - 1) * PAGE <= TotalOn(book, place.day)
    requires place.cursor.offset <= |Serve(book, place.day, place.cursor.page).items|
    ensures var r, c := Serve(book, place.day, place.cursor.page), place.cursor;
      var from, to := StartOf(r, c), StopOf(r, c, Clamp(limit));
      && 0 <= PositionIn(c) <= StopIn(book, place, limit) <= TotalOn(book, place.day)
      && to - from == StopIn(book, place, limit) - PositionIn(c)
      && RowsBetween(q.profile, r, place.day, c.page, from, to) == RowsOn(q.profile, book, place.day, PositionIn(c), StopIn(book, place, limit))
  {
    var r, c := Serve(book, place.day, place.cursor.page), place.cursor;
    PageRows(q.profile, book, place.day, c.page, StartOf(r, c), StopOf(r, c, Clamp(limit)));
  }

  /** One call at a place answers with the rows up to its stop. */
  lemma CallAnswers(codec: Codec<Cursor>, book: Book, q: Request, place: Place, limit: int)
    requires IsWellFormed(book) && IsPlace(book, q, place)
    ensures 0 <= PositionIn(place.cursor) <= StopIn(book, place, limit) <= TotalOn(book, place.day)
    ensures PageAt(codec, book, q, place, limit) == Ok(Page(
        RowsOn(q.profile, book, place.day, PositionIn(place.cursor), StopIn(book, place, limit)),
        NextToken(codec, PlaceAfter(book, q, place, limit)),
        StopIn(book, place, limit) - PositionIn(place.cursor)))
  {
    PageIsServed(book, q, place);
    PageHasSize(book, q, place);
    RowsToStop(book, q, place, limit);
    TokenIsNext(codec, book, q, place, limit);
    GoodResponseIsPaged(codec, Serve(book, place.day, place.cursor.page), q, place, Clamp(limit));
  }

  lemma CallDelivers(codec: Codec<Cursor>, book: Book, q: Request, place: Place, limit: int)
    requires IsCodec(codec) && IsWellFormed(book) && IsPlace(book, q, place)
    ensures var result := PageAt(codec, book, q, place, limit);
      result.Ok? && Delivers(codec, book, q, place, result.value, PlaceAfter(book, q, place, limit))
  {
    WhereNext(book, q, place, limit);
    CallAnswers(codec, book, q, place, limit);
    StopDelivers(codec, book, q, place, StopIn(book, place, limit), PlaceAfter(book, q, place, limit));
  }

  /******* Chains *******/

  datatype Call = Call(limit: int, page: Page)

  ghost predicate AnswersAt(codec: Codec<Cursor>, book: Book, q: Request, place: Option<Place>, call: Call) {
    && place.Some? && 0 <= place.value.cursor.offset && 1 <= place.value.cursor.page
    && PageAt(codec, book, q, place.value, call.limit) == Ok(call.page)
  }

  /** The calls of a caller who follows the cursors from `token`. */
  ghost predicate Linked(codec: Codec<Cursor>, book: Book, q: Request, token: string, calls: seq<Call>)
    decreases |calls|
  {
    calls == [] ||
    (&& AnswersAt(codec, book, q, PlaceOf(codec, q.start, q.end, token), calls[0])
     && (calls[0].page.nextToken == "" ==> |calls| == 1)
     && Linked(codec, book, q, calls[0].page.nextToken, calls[1..]))
  }

  function Rows(calls: seq<Call>): seq<BillRow> { if calls == [] then [] else calls[0].page.rows + Rows(calls[1..]) }

  function Scanned(calls: seq<Call>): int { if calls == [] then 0 else calls[0].page.scanned + Scanned(calls[1..]) }

  ghost predicate Finished(calls: seq<Call>) { calls != [] && calls[|calls| - 1].page.nextToken == "" }

  lemma {:induction false} ChainFrom(codec: Codec<Cursor>, book: Book, q: Request, token: string, calls: seq<Call>, place: Place)
    requires IsCodec(codec) && IsWellFormed(book) && IsPlace(book, q, place)
    requires PlaceOf(codec, q.start, q.end, token) == Some(place) && Linked(codec, book, q, token, calls)
    ensures Rows(calls) <= RowsLeft(book, q, place) && Scanned(calls) <= CountLeft(book, q, place)
    ensures Finished(calls) ==> Rows(calls) == RowsLeft(book, q, place) && Scanned(calls) == CountLeft(book, q, place)
    decreases |calls|
  {
    if calls == [] {
      CountsAreNatural(book, q, place);
    } else {
      CallDelivers(codec, book, q, place, calls[0].limit);
      var page, rest := calls[0].page, calls[1..];
      if page.nextToken != "" {
        var next := PlaceAfter(book, q, place, calls[0].limit).value;
        ChainFrom(codec, book, q, page.nextToken, rest, next);
        PrefixJoins(page.rows, Rows(rest), RowsLeft(book, q, next));
      } else {
        assert rest == [];
        Regroup(page.rows, [], []);
      }
    }
  }

  lemma CountsAreNatural(book: Book, q: Request, place: Place)
    requires IsPlace(book, q, place)
    ensures 0 <= CountLeft(book, q, place)
  {
  }

  lemma PrefixJoins(a: seq<BillRow>, b: seq<BillRow>, all: seq<BillRow>)
    requires b <= all
    ensures a + b <= a + all
  {
  }

  /** From the empty token on, for any limits: the rows delivered are a prefix of every bill of every
      UTC day whose midnight lies in [start, end), in order and once each; a finished chain delivers
      all of them and has scanned exactly the sum of the daily totals. */
  lemma ChainsDeliverEveryBill(codec: Codec<Cursor>, book: Book, q: Request, calls: seq<Call>)
    requires IsCodec(codec) && IsWellFormed(book) && Linked(codec, book, q, "", calls)
    ensures var first := FirstDay(q.start);
      && Rows(calls) <= RowsFrom(q.profile, book, first, q.end) && Scanned(calls) <= CountFrom(book, first, q.end)
      && (Finished(calls) ==> Rows(calls) == RowsFrom(q.profile, book, first, q.end) && Scanned(calls) == CountFrom(book, first, q.end))
  {
    var first := Place(FirstDay(q.start), Cursor(None, 0, 1, 0));
    if Before(first.day, q.end) {
      EverythingIsLeft(codec, book, q, first);
      ChainFrom(codec, book, q, "", calls, first);
    } else {
      NothingInEmptyRange(codec, book, q, calls);
    }
  }

  lemma EverythingIsLeft(codec: Codec<Cursor>, book: Book, q: Request, first: Place)
    requires first == Place(FirstDay(q.start), Cursor(None, 0, 1, 0)) && Before(first.day, q.end)
    ensures IsPlace(book, q, first) && PlaceOf(codec, q.start, q.end, "") == Some(first)
    ensures RowsLeft(book, q, first) == RowsFrom(q.profile, book, first.day, q.end)
    ensures CountLeft(book, q, first) == CountFrom(book, first.day, q.end)
  {
  }

  /** No day starts in the range: one call answers with nothing. */
  lemma NothingInEmptyRange(codec: Codec<Cursor>, book: Book, q: Request, calls: seq<Call>)
    requires Linked(codec, book, q, "", calls) && !Before(FirstDay(q.start), q.end)
    ensures Rows(calls) == [] && Scanned(calls) == 0
  {
    if calls != [] {
      assert calls[0].page == Page([], "", 0);
      assert calls[1..] == [];
    }
  }

  /******* Termination *******/

  /** A bound on the calls still to come. */
  function CallsLeft(book: Book, q: Request, place: Place): int {
    TotalOn(book, place.day) - PositionIn(place.cursor) + 1 + CallsFrom(book, place.day + 1, q.end)
  }

  function CallsFrom(book: Book, day: int, end: int): nat
    decreases end - day * DAY
  {
    if !Before(day, end) then 0 else TotalOn(book, day) + 1 + CallsFrom(book, day + 1, end)
  }

  lemma FewerCallsLeft(book: Book, q: Request, place: Place, stop: int, next: Option<Place>)
    requires IsPlace(book, q, place) && GoesTo(book, q, place, stop, next)
    ensures 1 <= CallsLeft(book, q, place)
    ensures next.Some? ==> CallsLeft(book, q, next.value) < CallsLeft(book, q, place)
  {
    if next.Some? && next.value.day > place.day {
      assert CallsFrom(book, next.value.day, q.end) == TotalOn(book, next.value.day) + 1 + CallsFrom(book, next.value.day + 1, q.end);
    }
  }

  /** Every chain ends: it is no longer than the bills and the days it has to go through. */
  lemma {:induction false} ChainsEnd(codec: Codec<Cursor>, book: Book, q: Request, token: string, calls: seq<Call>, place: Place)
    requires IsCodec(codec) && IsWellFormed(book) && IsPlace(book, q, place)
    requires PlaceOf(codec, q.start, q.end, token) == Some(place) && Linked(codec, book, q, token, calls)
    ensures |calls| <= CallsLeft(book, q, place)
    decreases |calls|
  {
    var next := if calls == [] then None else PlaceAfter(book, q, place, calls[0].limit);
    if calls != [] {
      CallDelivers(codec, book, q, place, calls[0].limit);
      WhereNext(book, q, place, calls[0].limit);
      FewerCallsLeft(book, q, place, StopIn(book, place, calls[0].limit), next);
      if next.Some? {
        ChainsEnd(codec, book, q, calls[0].page.nextToken, calls[1..], next.value);
      }
    } else {
      CountsAreNatural(book, q, place);
    }
  }
}
