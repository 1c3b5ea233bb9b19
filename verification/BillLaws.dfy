/** Which bills a query is given, one by one. */
module BillLaws {
  import opened Wrappers
  import opened Texts
  import opened Codecs
  import opened DailyBills
  import opened DailyBillChains

  /** The account that is billed: the bill's owner, or if it names none the account of the reply. */
  predicate IsBilledTo(bill: Bill, fallback: string, account: string) {
    account == (if bill.owner != "" then bill.owner else fallback)
  }

  /** The query asks for the account and the region, or for any; a bill of no known region is in all. */
  ghost predicate IsAskedFor(profile: Profile, bill: Bill, account: string) {
    && (profile.accounts == [] || exists i :: 0 <= i < |profile.accounts| && profile.accounts[i] == account)
    && (profile.regions == [] || (exists i :: 0 <= i < |profile.regions| && (profile.regions[i] == "*" || profile.regions[i] == profile.alias(bill.region)))
        || profile.alias(bill.region) == "")
  }

  /** The row is that of the bill at position `k` of a day, on pages of 300. */
  ghost predicate IsRowOf(profile: Profile, book: Book, day: int, k: nat, row: BillRow) {
    && k < |book.bills(day)| && row.bill == book.bills(day)[k] && row.day == day
    && row.page >= 1 && 0 <= row.index < 300 && k == (row.page - 1) * 300 + row.index
    && IsBilledTo(row.bill, book.account, row.account) && IsAskedFor(profile, row.bill, row.account)
  }

  lemma RowExactlyWhen(profile: Profile, book: Book, day: int, k: nat, row: BillRow)
    requires k < |book.bills(day)|
    ensures row in RowOf(profile, book.account, book.bills(day)[k], day, k / PAGE + 1, k % PAGE) <==> IsRowOf(profile, book, day, k, row)
  {
    var bill := book.bills(day)[k];
    WantedExactlyWhen(profile, book.account, bill);
    assert k == k / 300 * 300 + k % 300;
    if row.page >= 1 && 0 <= row.index < 300 && k == (row.page - 1) * 300 + row.index {
      PlaceIsOne(k, row.page - 1, row.index);
    }
  }

  lemma PlaceIsOne(k: nat, page: nat, index: nat)
    requires index < 300 && k == page * 300 + index
    ensures k / 300 == page && k % 300 == index
  {
  }

  lemma WantedExactlyWhen(profile: Profile, fallback: string, bill: Bill)
    ensures IsBilledTo(bill, fallback, AccountOf(bill, fallback))
    ensures Wanted(profile, fallback, bill) <==> IsAskedFor(profile, bill, AccountOf(bill, fallback))
  {
  }

  lemma {:induction false} OnDayExactlyWhen(profile: Profile, book: Book, day: int, hi: nat, row: BillRow)
    requires hi <= |book.bills(day)|
    ensures row in RowsOn(profile, book, day, 0, hi) <==> exists k: nat :: k < hi && IsRowOf(profile, book, day, k, row)
  {
    if hi > 0 {
      OnDayExactlyWhen(profile, book, day, hi - 1, row);
      RowExactlyWhen(profile, book, day, hi - 1, row);
    }
  }

  /** Of the days from `day` on a row is delivered exactly if one whose midnight is before the end has a
      bill with that row. */
  lemma {:induction false} FromDayExactlyWhen(profile: Profile, book: Book, day: int, end: int, row: BillRow)
    ensures row in RowsFrom(profile, book, day, end) <==> day <= row.day && row.day * DAY < end && exists k: nat :: IsRowOf(profile, book, row.day, k, row)
    decreases end - day * DAY
  {
    if Before(day, end) {
      OnDayExactlyWhen(profile, book, day, |book.bills(day)|, row);
      FromDayExactlyWhen(profile, book, day + 1, end, row);
      assert forall k: nat :: IsRowOf(profile, book, day, k, row) ==> row.day == day && k < |book.bills(day)|;
    } else if day <= row.day {
      assert day * DAY <= row.day * DAY;
    }
  }

  /** A finished chain delivers a bill's row exactly if the bill is of a day whose midnight lies in the range,
      and its account and region are asked for. */
  lemma DeliveredExactlyWhen(codec: Codec<Cursor>, book: Book, q: Request, calls: seq<Call>, row: BillRow)
    requires IsCodec(codec) && IsWellFormed(book) && Linked(codec, book, q, "", calls) && Finished(calls)
    ensures row in Rows(calls) <==> q.start <= row.day * DAY < q.end && exists k: nat :: IsRowOf(q.profile, book, row.day, k, row)
  {
    ChainsDeliverEveryBill(codec, book, q, calls);
    FromDayExactlyWhen(q.profile, book, FirstDay(q.start), q.end, row);
    FirstDayIsFirstMidnight(q.start, row.day);
  }

  /** A page of a day's bills is accepted only if it is the page that was asked for, of 300 bills, under a
      total of at most 50,000, full unless it is the last, and not empty before the total is reached; and
      every such page is. */
  lemma MetadataExactlyWhen(r: Response, cursor: Cursor)
    ensures HasMetadata(r, cursor) <==>
      && r.pageNum == cursor.page && r.pageNum > 0 && r.pageSize == 300 && r.totalCount >= 0 && !(r.totalCount > 50_000)
      && (|r.items| != 300 ==> r.totalCount <= 300 * r.pageNum)
      && (r.totalCount > 300 * (r.pageNum - 1) + cursor.offset ==> |r.items| > 0)
  {
  }

  /** A bill in reach can be delivered: it is of the day, and has a currency and an account. */
  predicate IsDue(bill: Bill, day: int, fallback: string) {
    && bill.date == Some(day) && (bill.owner != "" || fallback != "")
    && exists i :: 0 <= i < |bill.currency| && !IsSpace(bill.currency[i])
  }

  /** A page of bills is answered exactly if its metadata is accepted and every bill in reach is due: those
      from the offset on, as many as were asked for, or 300 if that is no number from 1 to 300. */
  lemma AnsweredExactlyWhen(codec: Codec<Cursor>, r: Response, q: Request, place: Place, limit: int)
    requires 0 <= place.cursor.offset
    ensures PageFor(codec, r, q, place, Clamp(limit)).Ok? <==>
      HasMetadata(r, place.cursor) && forall i :: 0 <= i < |r.items| && place.cursor.offset <= i < place.cursor.offset + Size(limit) ==> IsDue(r.items[i], place.day, r.accountID)
    ensures PageFor(codec, r, q, place, Clamp(limit)).Ok? ==>
      var n := PageFor(codec, r, q, place, Clamp(limit)).value.scanned;
      n <= Size(limit) && (n < Size(limit) ==> |r.items| <= place.cursor.offset + n)
  {
    var from, to := StartOf(r, place.cursor), StopOf(r, place.cursor, Clamp(limit));
    forall i | 0 <= i < |r.items|
      ensures IsGood(place.day, r.accountID, r.items[i]) <==> IsDue(r.items[i], place.day, r.accountID)
    {
    }
  }

  function Size(limit: int): nat { if 1 <= limit <= 300 then limit else 300 }
}
