/** The query result of internal/model/model.go, as far as the engine fills it in. */
module Results {
  import opened Values

  datatype Coverage = Coverage(planned: nat, succeeded: nat, failed: nat)

  datatype Stats = Stats(requests: nat, scanned: nat, returned: nat, truncated: bool)

  datatype QueryResult = QueryResult(
    queryID: string, status: string, columns: seq<string>, rows: seq<Row>, nextCursor: string,
    coverage: Coverage, errors: seq<string>, stats: Stats)
}
