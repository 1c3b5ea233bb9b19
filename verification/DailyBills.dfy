/**
 Daily bills: one UTC day after the other, each listed by the provider in pages of 300, each page
 delivered in pieces as small as the caller's limit.  internal/providers/alibaba_daily_costs.go.
*/
module DailyBills {
  import opened Wrappers
  import opened Texts
  import opened Sequences
  import opened Codecs

  /** Instants are nanoseconds of the epoch, days are counted from the epoch's own. */
  const DAY := 86_400_000_000_000

  const PAGE := 300
  const MAX_TOTAL := 50_000

  /** The period is the day it parses to, if it parses. */
  datatype Cursor = Cursor(period: Option<int>, offset: int, page: int, total: int)

  datatype Place = Place(day: int, cursor: Cursor)

  datatype Bill = Bill(date: Option<int>, currency: string, owner: string, region: string)

  datatype Response = Response(totalCount: int, pageNum: int, pageSize: int, accountID: string, items: seq<Bill>)

  /** The accounts and regions asked for, none meaning any, and the names of regions in bills. */
  datatype Profile = Profile(accounts: seq<string>, regions: seq<string>, alias: string -> string)

  datatype BillRow = BillRow(day: int, page: int, index: int, account: string, bill: Bill)

  datatype Page = Page(rows: seq<BillRow>, nextToken: string, scanned: int)

  datatype Failure = InvalidCursor | InvalidResponse

  /******* Positions *******/

  predicate Before(day: int, t: int) { day * DAY < t }

  function DecodePeriod(codec: Codec<Cursor>, token: string): Option<Cursor> {
    if token == "" then Some(Cursor(None, 0, 0, 0))
    else match codec.decode(token)
      case None => None
      case Some(c) => if c.offset < 0 || c.page < 0 || c.total < 0 then None else Some(c)
  }

  function FirstDay(start: int): int {
    if start / DAY * DAY < start then start / DAY + 1 else start / DAY
  }

  /** The days from the first are those whose midnight is not before `start`. */
  lemma FirstDayIsFirstMidnight(start: int, day: int)
    ensures FirstDay(start) <= day <==> !Before(day, start)
  {
    assert start == start / DAY * DAY + start % DAY;
  }

  predicate IsAccepted(start: int, end: int, c: Cursor) {
    && c.period.Some? && FirstDay(start) <= c.period.value && Before(c.period.value, end)
    && c.page >= 1 && !((c.page > 1 || c.offset > 0) && c.total == 0)
  }

  function PlaceOf(codec: Codec<Cursor>, start: int, end: int, token: string): Option<Place> {
    if token == "" then Some(Place(FirstDay(start), Cursor(None, 0, 1, 0)))
    else match DecodePeriod(codec, token)
      case None => None
      case Some(c) => if IsAccepted(start, end, c) then Some(Place(c.period.value, c)) else None
  }

  /** `alibabaDailyPosition`. */
  method DailyPosition(codec: Codec<Cursor>, start: int, end: int, token: string) returns (result: Result<Place, Failure>)
    ensures match PlaceOf(codec, start, end, token) case None => result == Err(InvalidCursor) case Some(place) => result == Ok(place)
  {
    var day := start / DAY;
    if Before(day, start) { day := day + 1; }
    var decoded := DecodePeriod(codec, token);
    if decoded.None? { return Err(InvalidCursor); }
    var cursor := decoded.value;
    if token == "" { cursor := Cursor(None, 0, 1, 0); }
    if token != "" {
      var parsed := cursor.period;
      if parsed.None? || parsed.value < day || !Before(parsed.value, end) || cursor.page < 1
          || ((cursor.page > 1 || cursor.offset > 0) && cursor.total == 0) {
        return Err(InvalidCursor);
      }
      day := parsed.value;
    }
    result := Ok(Place(day, cursor));
  }

  /******* Pages *******/

  predicate HasMetadata(r: Response, cursor: Cursor) {
    && 0 <= r.totalCount <= MAX_TOTAL && 1 <= cursor.page == r.pageNum && r.pageSize == PAGE
    && (cursor.page * PAGE < r.totalCount ==> |r.items| == PAGE)
    && (r.items == [] ==> r.totalCount <= (cursor.page - 1) * PAGE + cursor.offset)
  }

  function AccountOf(bill: Bill, accountID: string): string { if bill.owner == "" then accountID else bill.owner }

  predicate IsGood(day: int, accountID: string, bill: Bill) {
    bill.date == Some(day) && !IsBlank(bill.currency) && AccountOf(bill, accountID) != ""
  }

  predicate Wanted(profile: Profile, accountID: string, bill: Bill) {
    && (profile.accounts == [] || AccountOf(bill, accountID) in profile.accounts)
    && var region := profile.alias(bill.region);
       profile.regions == [] || "*" in profile.regions || region == "" || region in profile.regions
  }

  function RowOf(profile: Profile, accountID: string, bill: Bill, day: int, page: int, index: int): seq<BillRow> {
    if Wanted(profile, accountID, bill) then [BillRow(day, page, index, AccountOf(bill, accountID), bill)] else []
  }

  /** The rows of the items from `from` to before `to`. */
  function RowsBetween(profile: Profile, r: Response, day: int, page: int, from: nat, to: nat): seq<BillRow>
    requires from <= to <= |r.items|
  {
    if from == to then []
    else RowsBetween(profile, r, day, page, from, to - 1) + RowOf(profile, r.accountID, r.items[to - 1], day, page, to - 1)
  }

  function StartOf(r: Response, cursor: Cursor): (from: nat)
    requires 0 <= cursor.offset
    ensures from <= |r.items|
  {
    Min(cursor.offset, |r.items|)
  }

  function StopOf(r: Response, cursor: Cursor, limit: nat): (to: nat)
    requires 0 <= cursor.offset
    ensures StartOf(r, cursor) <= to <= |r.items|
  {
    Min(StartOf(r, cursor) + limit, |r.items|)
  }

  predicate AllGood(r: Response, day: int, from: nat, to: nat)
    requires to <= |r.items|
  {
    forall i :: from <= i < to ==> IsGood(day, r.accountID, r.items[i])
  }

  /** Where the next call goes on: in this page, on the next, on the next day, or nowhere. */
  function NextPlace(r: Response, day: int, end: int, page: int, to: nat): Option<Cursor> {
    if to < |r.items| then Some(Cursor(Some(day), to, page, r.totalCount))
    else if page * PAGE < r.totalCount then Some(Cursor(Some(day), 0, page + 1, r.totalCount))
    else if Before(day + 1, end) then Some(Cursor(Some(day + 1), 0, 1, 0))
    else None
  }

  function TokenFor(codec: Codec<Cursor>, next: Option<Cursor>): string {
    match next case None => "" case Some(c) => codec.encode(c)
  }

  /** One bill: rejected if it is of another day, or lacks its currency or its account; skipped if
      it is not asked for. */
  method ReadBill(profile: Profile, accountID: string, item: Bill, day: int, page: int, index: int) returns (row: Option<seq<BillRow>>)
    ensures row == if IsGood(day, accountID, item) then Some(RowOf(profile, accountID, item, day, page, index)) else None
  {
    BlankTrimsToNothing(item.currency);
    if item.date != Some(day) || TrimSpace(item.currency) == "" { return None; }
    var account := item.owner;
    if account == "" { account := accountID; }
    if account == "" { return None; }
    if profile.accounts != [] && account !in profile.accounts { return Some([]); }
    var region := profile.alias(item.region);
    if profile.regions != [] && "*" !in profile.regions && region != "" && region !in profile.regions { return Some([]); }
    row := Some([BillRow(day, page, index, account, item)]);
  }

  /** The loop of `alibabaDailyPage`. */
  method ReadBills(profile: Profile, r: Response, day: int, page: int, from: nat, to: nat) returns (result: Option<seq<BillRow>>)
    requires from <= to <= |r.items|
    ensures result.Some? <==> AllGood(r, day, from, to)
    ensures result.Some? ==> result.value == RowsBetween(profile, r, day, page, from, to)
  {
    var rows: seq<BillRow> := [];
    var i := from;
    while i < to
      invariant from <= i <= to && AllGood(r, day, from, i)
      invariant rows == RowsBetween(profile, r, day, page, from, i)
    {
      var row := ReadBill(profile, r.accountID, r.items[i], day, page, i);
      if row.None? { return None; }
      rows := rows + row.value;
      i := i + 1;
    }
    result := Some(rows);
  }

  /** `alibabaDailyPage`. */
  method DailyPage(codec: Codec<Cursor>, profile: Profile, r: Response, day: int, end: int, cursor: Cursor, limit: nat)
    returns (result: Result<Page, Failure>)
    requires 0 <= cursor.offset
    ensures var from, to := StartOf(r, cursor), StopOf(r, cursor, limit);
      result == if HasMetadata(r, cursor) && AllGood(r, day, from, to)
        then Ok(Page(RowsBetween(profile, r, day, cursor.page, from, to), TokenFor(codec, NextPlace(r, day, end, cursor.page, to)), to - from))
        else Err(InvalidResponse)
  {
    var page := cursor.page;
    if r.totalCount > MAX_TOTAL { return Err(InvalidResponse); }
    if page < 1 || r.pageNum != page || r.pageSize != PAGE || r.totalCount < 0 || (page * PAGE < r.totalCount && |r.items| != PAGE) {
      return Err(InvalidResponse);
    }
    if |r.items| == 0 && (page - 1) * PAGE + cursor.offset < r.totalCount { return Err(InvalidResponse); }
    var from := Min(cursor.offset, |r.items|);
    var to := Min(from + limit, |r.items|);
    var rows := ReadBills(profile, r, day, page, from, to);
    if rows.None? { return Err(InvalidResponse); }
    var next := "";
    if to < |r.items| {
      next := codec.encode(Cursor(Some(day), to, page, r.totalCount));
    } else if page * PAGE < r.totalCount {
      next := codec.encode(Cursor(Some(day), 0, page + 1, r.totalCount));
    } else if Before(day + 1, end) {
      next := codec.encode(Cursor(Some(day + 1), 0, 1, 0));
    }
    result := Ok(Page(rows.value, next, to - from));
  }
}
