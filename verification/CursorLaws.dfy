/** What a page from the cursor store carries, and how long its token lasts. */
module CursorLaws {
  import opened Cursors
  import opened CursorRuns

  /** A page has the first rows that are stored, all of them if the page size is none or too large; it has
      the columns and everything else of its query, counts its rows, and names a next page exactly if rows
      are left. */
  lemma PageCarries(e: Entry, rest: Token)
    requires rest != ""
    ensures var page := PageOf(e, rest);
      && page.rows <= e.rows && (0 < e.pageSize < |e.rows| ==> |page.rows| == e.pageSize) && (!(0 < e.pageSize < |e.rows|) ==> page.rows == e.rows)
      && page.columns == e.columns && page.stats == e.base.stats.(returned := |page.rows|)
      && (page.nextCursor == rest <==> |page.rows| < |e.rows|) && (page.nextCursor == "" <==> page.rows == e.rows)
      && (page.queryID, page.status, page.coverage, page.errors) == (e.base.queryID, e.base.status, e.base.coverage, e.base.errors)
  {
    assert e.rows[..|e.rows|] == e.rows;
  }

  /** The tokens that an event issues: one if rows are left. */
  ghost predicate Issues(s: State, event: Event, token: Token) {
    match event
    case Ask(asked, _, t, _, _) => token == t && asked.pageSize < |asked.rows|
    case Fetch(t, rest, _) => token == rest && t in s.table && s.clock < s.table[t].expires && t in s.owner && s.owner[t] < |s.log|
      && 0 < s.table[t].pageSize < |s.table[t].rows|
    case Tick(_) => false
  }

  /** A token lasts for the time to live from the moment it is issued: what is stored under it expires
      then, and no later event changes that, or anything else that is stored, as long as it stays. */
  lemma TokensLastForTheirTime(s: State, event: Event)
    requires Enabled(s, event) && (event.Fetch? ==> event.rest !in s.table) && (event.Ask? ==> event.token !in s.table)
    ensures var s' := Apply(s, event);
      && (forall token :: Issues(s, event, token) ==> token in s'.table && !event.Tick? && s'.table[token].expires == event.later + s.ttl)
      && (forall token :: token in s'.table ==> Issues(s, event, token) || (token in s.table && s'.table[token] == s.table[token]))
  {
  }
}
