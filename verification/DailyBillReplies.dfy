/**
 Daily bills from a provider that may answer differently on every call: a day's bills can shrink or
 grow while they are paged through.
*/
module DailyBillReplies {
  import opened Wrappers
  import opened Texts
  import opened Codecs
  import opened DailyBills
  import DailyBillChains

  type Request = DailyBillChains.Request

  /** A position: an item of a provider page of a day. */
  datatype Position = Position(day: int, page: int, index: int)

  predicate Precedes(a: Position, b: Position) {
    a.day < b.day || (a.day == b.day && (a.page < b.page || (a.page == b.page && a.index < b.index)))
  }

  function PositionOf(place: Place): Position { Position(place.day, place.cursor.page, place.cursor.offset) }

  function RowPosition(row: BillRow): Position { Position(row.day, row.page, row.index) }

  /******* One call *******/

  /** Whatever reply passes the checks of its metadata, the cursor leads to a later position. */
  lemma NextPlaceAdvances(r: Response, place: Place, end: int, limit: nat)
    requires 0 <= place.cursor.offset && 1 <= limit && HasMetadata(r, place.cursor)
    ensures match NextPlace(r, place.day, end, place.cursor.page, StopOf(r, place.cursor, limit))
      case None => true
      case Some(c) => c.period.Some? && 0 <= c.offset && Precedes(PositionOf(place), PositionOf(Place(c.period.value, c)))
  {
  }

  /** That cursor is accepted, except exactly if the reply has items left over although it reports
      none in all. */
  lemma NextIsAcceptedExactlyWhen(codec: Codec<Cursor>, r: Response, q: Request, place: Place, limit: nat)
    requires IsCodec(codec) && 0 <= place.cursor.offset && 1 <= limit && HasMetadata(r, place.cursor)
    requires FirstDay(q.start) <= place.day && Before(place.day, q.end)
    requires NextPlace(r, place.day, q.end, place.cursor.page, StopOf(r, place.cursor, limit)).Some?
    ensures var to := StopOf(r, place.cursor, limit);
      var c := NextPlace(r, place.day, q.end, place.cursor.page, to).value;
      PlaceOf(codec, q.start, q.end, codec.encode(c)) == if to < |r.items| && r.totalCount == 0 then None else Some(Place(c.period.value, c))
  {
    var c := NextPlace(r, place.day, q.end, place.cursor.page, StopOf(r, place.cursor, limit)).value;
    assert codec.encode(c) != "" && codec.decode(codec.encode(c)) == Some(c);
  }

  /** A reply that has two bills of the day and reports none in all: a call for one of them succeeds and
      hands out a cursor that is rejected. */
  lemma CursorIsRejected(codec: Codec<Cursor>, profile: Profile, day: int)
    requires IsCodec(codec)
    ensures var bill := Bill(Some(day), "CNY", "owner", "");
      var q := DailyBillChains.Request(profile, day * DAY, (day + 1) * DAY);
      var result := DailyBillChains.PageFor(codec, Response(0, 1, PAGE, "owner", [bill, bill]), q, Place(day, Cursor(None, 0, 1, 0)), 1);
      && PlaceOf(codec, q.start, q.end, "") == Some(Place(day, Cursor(None, 0, 1, 0)))
      && result.Ok? && result.value.nextToken != "" && PlaceOf(codec, q.start, q.end, result.value.nextToken) == None
  {
    var next := Cursor(Some(day), 1, 1, 0);
    assert codec.encode(next) != "" && codec.decode(codec.encode(next)) == Some(next);
    assert FirstDay(day * DAY) == day;
    assert !IsSpace("CNY"[0]);
    assert IsGood(day, "owner", Bill(Some(day), "CNY", "owner", ""));
  }

  /** The rows are at positions from `lo` to before `hi` in a page, in order. */
  ghost predicate AreWithin(rows: seq<BillRow>, day: int, page: int, lo: int, hi: int) {
    && (forall k :: 0 <= k < |rows| ==> rows[k].day == day && rows[k].page == page && lo <= rows[k].index < hi)
    && (forall j, k :: 0 <= j < k < |rows| ==> rows[j].index < rows[k].index)
  }

  lemma {:induction false} RowsAreWithin(profile: Profile, r: Response, day: int, page: int, from: nat, to: nat)
    requires from <= to <= |r.items|
    ensures AreWithin(RowsBetween(profile, r, day, page, from, to), day, page, from, to)
  {
    if from < to {
      RowsAreWithin(profile, r, day, page, from, to - 1);
    }
  }

  /** Strictly later and later. */
  ghost predicate Increasing(rows: seq<BillRow>) {
    forall j, k :: 0 <= j < k < |rows| ==> Precedes(RowPosition(rows[j]), RowPosition(rows[k]))
  }

  ghost predicate AllFrom(first: Position, rows: seq<BillRow>) {
    forall k :: 0 <= k < |rows| ==> !Precedes(RowPosition(rows[k]), first)
  }

  ghost predicate AllBefore(rows: seq<BillRow>, next: Position) {
    forall k :: 0 <= k < |rows| ==> Precedes(RowPosition(rows[k]), next)
  }

  /** A call delivers positions from its own to before the next. */
  lemma CallDeliversBetween(codec: Codec<Cursor>, r: Response, q: Request, place: Place, limit: nat, page: Page)
    requires 0 <= place.cursor.offset && 1 <= limit && DailyBillChains.PageFor(codec, r, q, place, limit) == Ok(page)
    ensures HasMetadata(r, place.cursor) && Increasing(page.rows) && AllFrom(PositionOf(place), page.rows)
    ensures match NextPlace(r, place.day, q.end, place.cursor.page, StopOf(r, place.cursor, limit))
      case None => page.nextToken == ""
      case Some(c) => c.period.Some? && page.nextToken == codec.encode(c) && AllBefore(page.rows, PositionOf(Place(c.period.value, c)))
  {
    RowsAreWithin(q.profile, r, place.day, place.cursor.page, StartOf(r, place.cursor), StopOf(r, place.cursor, limit));
    NextPlaceAdvances(r, place, q.end, limit);
  }

  /******* Chains *******/

  /** A call with the reply it happened to get. */
  datatype Call = Call(limit: int, reply: Response, page: Page)

  ghost predicate AnswersAt(codec: Codec<Cursor>, q: Request, place: Option<Place>, call: Call) {
    && place.Some? && 0 <= place.value.cursor.offset
    && if Before(place.value.day, q.end)
       then DailyBillChains.PageFor(codec, call.reply, q, place.value, DailyBillChains.Clamp(call.limit)) == Ok(call.page)
       else call.page == Page([], "", 0)
  }

  /** The calls, none of them failing, of a caller who follows the cursors from `token`. */
  ghost predicate Linked(codec: Codec<Cursor>, q: Request, token: string, calls: seq<Call>)
    decreases |calls|
  {
    calls == [] ||
    (&& AnswersAt(codec, q, PlaceOf(codec, q.start, q.end, token), calls[0])
     && (calls[0].page.nextToken == "" ==> |calls| == 1)
     && Linked(codec, q, calls[0].page.nextToken, calls[1..]))
  }

  function Rows(calls: seq<Call>): seq<BillRow> { if calls == [] then [] else calls[0].page.rows + Rows(calls[1..]) }

  lemma JoinIncreasing(first: Position, a: seq<BillRow>, next: Position, b: seq<BillRow>)
    requires Increasing(a) && AllFrom(first, a) && AllBefore(a, next) && Increasing(b) && AllFrom(next, b) && !Precedes(next, first)
    ensures Increasing(a + b) && AllFrom(first, a + b)
  {
    var all := a + b;
    forall j, k | 0 <= j < k < |all|
      ensures Precedes(RowPosition(all[j]), RowPosition(all[k]))
    {
      if j < |a| <= k {
        assert Precedes(RowPosition(a[j]), next) && !Precedes(RowPosition(b[k - |a|]), next);
      }
    }
  }

  /** Whatever the provider answers, positions only grow along a chain. */
  lemma {:induction false} ChainsIncrease(codec: Codec<Cursor>, q: Request, token: string, calls: seq<Call>)
    requires IsCodec(codec) && Linked(codec, q, token, calls) && calls != []
    ensures Increasing(Rows(calls)) && AllFrom(PositionOf(PlaceOf(codec, q.start, q.end, token).value), Rows(calls))
    decreases |calls|
  {
    var place, page, rest := PlaceOf(codec, q.start, q.end, token).value, calls[0].page, calls[1..];
    if Before(place.day, q.end) {
      var limit := DailyBillChains.Clamp(calls[0].limit);
      CallDeliversBetween(codec, calls[0].reply, q, place, limit, page);
      if rest != [] {
        NextPlaceAdvances(calls[0].reply, place, q.end, limit);
        var c := NextPlace(calls[0].reply, place.day, q.end, place.cursor.page, StopOf(calls[0].reply, place.cursor, limit)).value;
        var next := PlaceOf(codec, q.start, q.end, page.nextToken).value;
        assert codec.encode(c) != "" && codec.decode(codec.encode(c)) == Some(c);
        assert next == Place(c.period.value, c);
        ChainsIncrease(codec, q, page.nextToken, rest);
        JoinIncreasing(PositionOf(place), page.rows, PositionOf(next), Rows(rest));
      } else {
        assert Rows(calls) == page.rows + [];
      }
    } else {
      assert Rows(calls) == [] + Rows(rest) && rest == [];
    }
  }

  /** No position is delivered twice, even if a day's bills shrink or grow between calls. */
  lemma PositionsComeOnce(codec: Codec<Cursor>, q: Request, calls: seq<Call>, j: nat, k: nat)
    requires IsCodec(codec) && Linked(codec, q, "", calls) && j < |Rows(calls)| && k < |Rows(calls)|
    requires RowPosition(Rows(calls)[j]) == RowPosition(Rows(calls)[k])
    ensures j == k
  {
    ChainsIncrease(codec, q, "", calls);
  }
}
