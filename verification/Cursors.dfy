/**
 The cursor store of internal/engine/cursor.go: the rows a query has not returned yet wait
 under a one-shot token until they are fetched, expire, or are evicted.

 Which of several entries that expire together goes first is open in Go (map iteration), so
 `Put` is specified by a relation.
*/
module Cursors {
  import opened Wrappers
  import opened Values
  import opened Results

  type Time = int
  type Token = string

  datatype Entry = Entry(expires: Time, rows: seq<Row>, columns: seq<string>, base: QueryResult, pageSize: int)

  type Table = map<Token, Entry>

  const MAX_ROWS: nat := 50_000

  /******* Specification of the store *******/

  ghost function StoredRows(table: Table): nat {
    if table == map[] then 0 else
      var token :| token in table;
      |table[token].rows| + StoredRows(table - {token})
  }

  /** Any entry can be counted first. */
  lemma {:induction false} StoredRowsWithout(table: Table, token: Token)
    requires token in table
    ensures StoredRows(table) == |table[token].rows| + StoredRows(table - {token})
    decreases |table|
  {
    var first :| first in table && StoredRows(table) == |table[first].rows| + StoredRows(table - {first});
    if first != token {
      StoredRowsWithout(table - {first}, token);
      StoredRowsWithout(table - {token}, first);
      assert table - {first} - {token} == table - {token} - {first};
    }
  }

  function Pruned(table: Table, now: Time): Table {
    map token | token in table && now < table[token].expires :: table[token]
  }

  ghost predicate Fits(table: Table, incoming: nat, max: nat, maxRows: nat) {
    |table| < max && StoredRows(table) + incoming <= maxRows
  }

  /** `table` lacks something that had to go: nothing that was evicted expires later than
      `last`, and with `last` the incoming rows would not fit. */
  ghost predicate LastEvicted(before: Table, table: Table, last: Token, incoming: nat, max: nat, maxRows: nat) {
    && last in before && last !in table
    && !Fits(table[last := before[last]], incoming, max, maxRows)
    && forall gone :: gone in before && gone !in table ==> before[gone].expires <= before[last].expires
  }

  /** `after` is a part of `before`, no evicted entry expires later than a survivor, and the
      last eviction was necessary. */
  ghost predicate EvictedTo(before: Table, after: Table, incoming: nat, max: nat, maxRows: nat) {
    && after.Keys <= before.Keys && (forall kept :: kept in after ==> after[kept] == before[kept])
    && (forall gone, kept :: gone in before && gone !in after && kept in after ==>
          before[gone].expires <= before[kept].expires)
    && (after != before ==> exists last :: LastEvicted(before, after, last, incoming, max, maxRows))
  }

  /** Eviction ends as soon as the incoming rows fit, or when nothing is left. */
  ghost predicate Evicts(before: Table, after: Table, incoming: nat, max: nat, maxRows: nat) {
    EvictedTo(before, after, incoming, max, maxRows) && (Fits(after, incoming, max, maxRows) || after == map[])
  }

  lemma EvictOldest(before: Table, table: Table, oldest: Token, incoming: nat, max: nat, maxRows: nat)
    requires EvictedTo(before, table, incoming, max, maxRows) && !Fits(table, incoming, max, maxRows)
    requires oldest in table && forall key :: key in table ==> table[oldest].expires <= table[key].expires
    ensures EvictedTo(before, table - {oldest}, incoming, max, maxRows)
  {
    var after := table - {oldest};
    assert after[oldest := before[oldest]] == table;
    assert LastEvicted(before, after, oldest, incoming, max, maxRows);
  }

  function PageLength(e: Entry): nat {
    if e.pageSize <= 0 || e.pageSize > |e.rows| then |e.rows| else e.pageSize
  }

  /** The page a fetch returns; `rest` names the token of what remains. */
  function PageOf(e: Entry, rest: Token): QueryResult {
    var count := PageLength(e);
    e.base.(rows := e.rows[..count], columns := e.columns, stats := e.base.stats.(returned := count),
            nextCursor := if count < |e.rows| then rest else "")
  }

  /** The table after a successful fetch of `token`. */
  function Fetched(table: Table, token: Token, rest: Token, expires: Time): Table
    requires token in table
  {
    var e := table[token];
    var count := PageLength(e);
    if count < |e.rows| then (table - {token})[rest := e.(rows := e.rows[count..], expires := expires)]
    else table - {token}
  }

  /******* The store *******/

  class CursorStore {
    const ttl: Time
    const max: nat
    const maxRows: nat
    var entries: Table

    constructor (ttl: Time, max: int)
      ensures entries == map[] && this.ttl == ttl && maxRows == MAX_ROWS
      ensures this.max == (if max < 1 then 1 else max) && 0 < this.max
    {
      this.ttl := ttl;
      this.max := if max < 1 then 1 else max;
      maxRows := MAX_ROWS;
      entries := map[];
    }

    method PruneLocked(now: Time)
      modifies this
      ensures entries == Pruned(old(entries), now)
    {
      var keys := entries.Keys;
      ghost var done: set<Token> := {};
      while keys != {}
        invariant done !! keys && done + keys == old(entries).Keys
        invariant entries == map token | token in old(entries) && (token in keys || now < old(entries)[token].expires) :: old(entries)[token]
        decreases |keys|
      {
        var key :| key in keys;
        if !(now < entries[key].expires) {
          entries := entries - {key};
        }
        keys := keys - {key};
        done := done + {key};
      }
    }

    method StoredRowsLocked() returns (total: nat)
      ensures total == StoredRows(entries)
    {
      total := 0;
      var keys := entries.Keys;
      ghost var left := entries;
      while keys != {}
        invariant left.Keys == keys && keys <= entries.Keys && forall token :: token in left ==> left[token] == entries[token]
        invariant total + StoredRows(left) == StoredRows(entries)
        decreases |keys|
      {
        var key :| key in keys;
        StoredRowsWithout(left, key);
        total := total + |entries[key].rows|;
        keys := keys - {key};
        left := left - {key};
      }
    }

    /** The scan for the entry that expires first; `None` stands for the empty key. */
    method OldestLocked() returns (oldestKey: Option<Token>)
      ensures oldestKey.None? <==> entries == map[]
      ensures oldestKey.Some? ==> oldestKey.value in entries
      ensures oldestKey.Some? ==> forall token :: token in entries ==> entries[oldestKey.value].expires <= entries[token].expires
    {
      oldestKey := None;
      var oldest := 0;
      var keys := entries.Keys;
      while keys != {}
        invariant keys <= entries.Keys
        invariant oldestKey.None? ==> keys == entries.Keys
        invariant oldestKey.Some? ==> oldestKey.value in entries && oldest == entries[oldestKey.value].expires
        invariant oldestKey.Some? ==> forall token :: token in entries && token !in keys ==> oldest <= entries[token].expires
        decreases |keys|
      {
        var key :| key in keys;
        if oldestKey.None? || entries[key].expires < oldest {
          oldestKey, oldest := Some(key), entries[key].expires;
        }
        keys := keys - {key};
      }
    }

    /** Makes room: the loop at the head of `Put`. */
    method EvictLocked(incoming: nat)
      modifies this
      ensures Evicts(old(entries), entries, incoming, max, maxRows)
    {
      var stored := StoredRowsLocked();
      while |entries| >= max || stored + incoming > maxRows
        invariant stored == StoredRows(entries)
        invariant EvictedTo(old(entries), entries, incoming, max, maxRows)
        decreases |entries|
      {
        var oldestKey := OldestLocked();
        if oldestKey.None? {
          break;
        }
        EvictOldest(old(entries), entries, oldestKey.value, incoming, max, maxRows);
        entries := entries - {oldestKey.value};
        stored := StoredRowsLocked();
      }
    }

    /** Stores `state` under `token`.  The clock is read twice, when pruning and when storing. */
    method Put(state: Entry, now: Time, later: Time, token: Token) returns (ghost kept: Table)
      modifies this
      ensures Evicts(Pruned(old(entries), now), kept, |state.rows|, max, maxRows)
      ensures entries == kept[token := state.(expires := later + ttl)]
    {
      PruneLocked(now);
      EvictLocked(|state.rows|);
      kept := entries;
      entries := entries[token := state.(expires := later + ttl)];
    }

    method Next(token: Token, now: Time, later: Time, rest: Token) returns (result: Option<QueryResult>)
      modifies this
      ensures var table := Pruned(old(entries), now);
        if token in table then
          result == Some(PageOf(table[token], rest)) && entries == Fetched(table, token, rest, later + ttl)
        else result == None && entries == table
    {
      PruneLocked(now);
      if token !in entries {
        return None;
      }
      var state := entries[token];
      entries := entries - {token};
      var count := state.pageSize;
      if count <= 0 || count > |state.rows| {
        count := |state.rows|;
      }
      var page := state.base.(rows := state.rows[..count], columns := state.columns, nextCursor := "");
      page := page.(stats := page.stats.(returned := |page.rows|));
      if count < |state.rows| {
        state := state.(rows := state.rows[count..]);
        page := page.(nextCursor := rest);
        entries := entries[rest := state.(expires := later + ttl)];
      }
      return Some(page);
    }
  }
}
