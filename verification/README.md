# mcpcloud: a verified model

mcpcloud answers queries written in a small pipeline language over the resources, metrics and
costs of several clouds.  A query is parsed, planned into targets, fanned out to provider adapters
that page through their APIs under shared budgets, filtered, aggregated, sorted, cut off, and handed
out in pages through one-shot cursors.  This project models that path, from the text of a filter to
the last page of its answer, and proves what it promises.

## What is modelled

Expressions and their text.
`Texts`, `Values` and `Expressions` hold strings, rows, paths and the evaluator; `TextLaws`, `Paths` and
`Filters` say what these mean: where texts differ, where a path leads, and when a filter is true, false or
neither.  `Lexing` is the lexer with its loops over the input, `LexicalGrammar` the texts that are tokens;
`Parsing` is the parser object whose position the methods advance, `Grammar` a grammar stated without the
parser; the proofs are that lexer and parser are these grammars.  `Printing` has the two printers, and the
proof that reading inverts printing.  `Selectors` is the pushdown of metric selectors, `SelectorLaws` the
metrics it selects.  `Segmentation` is the cutting of a query into stages and of a stage into items,
`Brackets` the balanced texts between the cuts; `Quotes` compares its scanner with the lexer, over whole
stages.

The engine.
`Fetching` is the loop of one target over selectors and pages with its retries, `FetchingLaws` what its
budgets and its final token mean, `Attempts` when a call is retried and how an attempt ends, and
`PageSizes` how many rows are asked for and kept.  `FanOut` is the fan-out, as interleaved steps of a
goroutine for each target, the main goroutine, the semaphore that other queries share and the results
channel; `FanOutResults` ties its runs to the answer.  `Aggregation` and `AggregationLaws` are streaming
aggregation against the groups and folds it should compute, `Groups` and `GroupTables` the rows that make
a group and what the cells of its row say, `AggregationOrders` the aggregation of the same rows in two
orders.  `Summaries` is the summarize stage, `SummaryItems` the shape of its items, `Aliases` the names it
gives to its outputs.  `Sorting` and `StableSorting` are the order of rows, `SortOrders` the same cell by
cell.  `Queries` and `QueryLaws` are the whole answer and its meaning, `Answers` what a caller sees of it,
and `Worlds` its meaning over all that the providers hold, where metric selectors fetch only a part.

State that outlives a query.
`Cursors` is the store of one-shot cursors, `CursorRuns` its runs with any number of clients, clock
moves, expiry and eviction, `CursorLaws` what a page carries and how long a token lasts.  `Readiness` is
the single-flight cache of probe reports, object and interleavings.

Provider cursor chains.
`KeySets` is paging by the last key over a listing that may change between calls, with `Listeners` and
`Targets` as its two instances, and `BindingLaws` the bindings a listing holds.  `DailyBills` and
`DailyBillChains` are days, pages and offsets, `BillLaws` the bills that are delivered, and
`DailyBillReplies` the same with a provider that answers differently at every call.  `ProductLists` and
`ProductChains` are offset lists and their concatenation.  `Repaging` cuts small pages from large ones,
and `RepagingFailures` and `RepagingEnds` say when that fails, ends or goes on for ever.  `Windows`,
`WindowChains` and `WindowEnds` are metric time windows, and `SampleLaws` the samples they hold.  In each,
a chain is what a caller gets who follows the cursors, with limits chosen freely at every call, and
`Codecs` says the one thing assumed of cursor texts: what was encoded decodes to itself and is not the
empty token.

Where the source changes things step by step (loops, receivers whose fields it updates), so does
the model, and each such method is proved against a function or predicate about which the lemmas
speak.  Protocols of several threads are transition systems; their critical sections are the methods
of the objects.

Some of what one would like to say is false of the code.  These places have a lemma with a concrete
input and a condition that is met exactly when the statement holds:

- A provider token that repeats while a first metric selector is read is overwritten by the next
  selector's token, and the result looks complete (`FetchingLaws.RepeatedTokenGoesUnnoticed`); without
  repeats the empty token means everything (`FetchingLaws.EmptyTokenMeansEverything`).
- The sort comparison is no order on every column (`Sorting.MixedColumnIsNotOrdered`); it is one
  exactly on columns whose texts cut their numbers (`Sorting.OrderedExactlyWhenCut`).  On other columns
  the library's sort may put rows anywhere, and no theorem here says where (`Sorting.IsSortOf`).
- Groups are keyed by their texts joined with NULs, and two rows with different texts can share a group
  (`Groups.NulsMergeGroups`): rows share one exactly when their texts have the same pieces between NULs,
  so without NULs exactly when the texts are the same (`Groups.ShareGroupExactlyWhen`).
- Metric windows overlap, and samples are delivered twice (`Windows.SampleIsDeliveredTwice`).  Along a
  chain no whole second lies in two windows exactly when every window with a successor stops at a whole
  second (`WindowChains.SecondsComeOnceExactlyWhen`); what is delivered is the samples of the range and,
  once more, those of the overlaps (`WindowChains.ChainsDeliverSamplesAndOverlaps`).
- Cursors of metric windows can be rejected (`Windows.CursorsAreRejected`): exactly when the whole second
  is not after the epoch or lies before the range (`Windows.AcceptedExactlyWhen`).  And they can lead to
  the same window for ever (`WindowEnds.ShortStepsNeverEnd`): exactly when the step is below a second and
  windows can stall, which range and step decide (`WindowEnds.EndlessExactlyWhen`).
- Stages and items are cut with a look at one byte before a quote; the lexer skips escaped characters
  (`Quotes.EscapedBackslashStaysOpen`) and reads a bracketed index without regard to quotes
  (`Quotes.IndexStaysOpen`).  Over a whole stage they agree exactly when no quoted text ends in a
  backslash and no bracketed index leaves a quote open (`Quotes.StageAgreesExactlyWhen`).
- ECS rejects a cursor of more than 4096 bytes, but hands out longer ones
  (`RepagingEnds.LongTokenStopsECS`); no call ever fails exactly when every cursor that the provider leads
  to fits and no token is answered with itself (`RepagingFailures.NeverFailsExactlyWhen`, call by call
  `RepagingFailures.FailsExactlyWhen`).
- Re-paging need not end (`RepagingEnds.RepeatingProviders`, `RepagingEnds.LongTokenStopsECS`).  A chain can
  reach its end exactly when the provider's own pages end and each can be passed over cursors that fit
  (`RepagingEnds.FinishesExactlyWhen`).  It goes on for ever exactly when the provider's pages do not end,
  each can be passed and, for ECS, no token is answered with itself: longer cycles are not noticed
  (`RepagingEnds.EndlessExactlyWhen`).  ElastiCache passes every page
  (`RepagingEnds.ElastiCacheEndsExactlyWhen`).
- The cursor of a page of daily bills can be rejected (`DailyBillReplies.CursorIsRejected`): exactly when
  the page has bills left over although the provider reports none in all
  (`DailyBillReplies.NextIsAcceptedExactlyWhen`).

## Model

| member | source | states |
|---|---|---|
| `Queries.RunQuery` | internal/engine/engine.go:241-313 | for results arriving in any order, an answer as the rows on `Answers` describe it, from the tally of their kept rows |
| `Answers.AnswersAreFirstRows` | internal/engine/engine.go:301-313 | the rows of an answer are a prefix of a sorted summary of the kept rows, all of it or as many as the limit allows |
| `Answers.CutRowsComeLater` | internal/engine/engine.go:301-308 | on ordered columns no row that the limit cuts off comes before a row that is shown |
| `Answers.TruncatedExactlyWhen` | internal/engine/engine.go:262-313 | an answer is flagged as truncated exactly if a target left a token, the limit cuts rows off, or items or requests reach their limit; its counters are the sums over the results |
| `Answers.SharesAreEven` | internal/engine/engine.go:186-194 | a target gets its even share of requests and items; it may keep as many rows as it scans if they are filtered, aggregated or sorted, and otherwise no more than the limit |
| `Queries.Accumulate` | internal/engine/engine.go:246-299 | the nested loops over results and rows compute the tally to which the laws below give a meaning |
| `Answers.KeptExactlyWhenWanted` | internal/engine/engine.go:271-299 | exactly the rows of a region that is asked for, of which the filter is true, are kept, in order and without their native part unless it is asked for; a row of which it is neither true nor false is an error |
| `Filters.HoldsExactlyWhen` | internal/dsl/eval.go:45-119 | every operator on any values is true, false or an error by the numbers, texts and parts of texts it compares |
| `Filters.NumbersCompare` | internal/dsl/eval.go:78-91 | on numbers the order operators are those of the numbers |
| `Filters.EvalExactlyWhen` | internal/dsl/ast.go:64-111 | the evaluator answers true exactly if the expression is true of the row and false exactly if it is false, by the truth of its parts |
| `Filters.ParsedOperatorsAreKnown` | internal/dsl/expression.go:147-153 | the parser takes exactly the operators that the evaluator knows |
| `TextLaws.LessExactlyWhen` | internal/dsl/eval.go:92-100 | a text is less than another exactly if at their first difference it ends or has the smaller character |
| `Queries.FetchAll` | internal/engine/engine.go:161-240 | each target is fetched with its own share of the budgets, or fails with a context error if it gives up before it holds a slot |
| `QueryLaws.QueryStaysInBudget` | internal/engine/engine.go:186-240 | whatever providers answer and whichever targets give up, a query makes at most `MaxProviderRequests` calls, retries included, scans at most `MaxScannedItems`, keeps no more rows than it scanned, and asks for 1 to `MaxPageSize` rows each time |
| `QueryLaws.AnswerAccountsForTargets` | internal/engine/engine.go:243-299 | in cancelled runs too, planned targets are those that succeeded plus those that failed; the guard on visited rows never fires, so the tally holds the kept rows of all results |
| `QueryLaws.VisitOutcomesKeeps` | internal/engine/engine.go:253-299 | while the visited rows fit, results add exactly their kept rows, filter errors, failures and tokens |
| `QueryLaws.ArrivalOrderIsIrrelevant` | internal/engine/engine.go:253 | every order in which results leave the channel delivers the same rows, failures and tokens |
| `QueryLaws.CompleteAnswersMeanTheQuery` | internal/engine/engine.go:186-312 | an answer with no failed target, no filter error and no truncation, from providers that repeat no token, is a sort of the summary of exactly the passing rows of every page of every selector of every target: all chains were followed from the empty token to their ends, and every page is the provider's answer to the call it stands for |
| `QueryLaws.AnswersAgree` | internal/engine/engine.go:253-312 | two orders in which the same results arrive give uncut answers that agree: tables of the same groups, each once and with the same aggregate cells, or without aggregates the same rows |
| `FanOutResults.FanOutDeliversResults` | internal/engine/engine.go:159-261 | what a run of the fan-out has sent when it returns is every target's result once, in the order sent: a context error for exactly those that gave up in the run, the result of its fetching for every other; failures are counted as reported |
| `FanOutResults.RunsAnswerTheQuery` | internal/engine/engine.go:159-299 | so an answer to what a run has sent is an answer to the query, and its coverage is what the run has counted |
| `FanOutResults.DecidesOnce` | internal/engine/engine.go:165-175 | in no run does a target both give up and fetch, or do either twice |
| `Worlds.PushdownKeepsTheMeaning` | internal/engine/engine.go:169-206 | asking only for the selected metrics keeps the same rows as asking for everything |
| `Worlds.CompleteAnswersMeanTheWorlds` | internal/engine/engine.go:169-312 | a complete answer from providers that hold worlds of rows is a sorted summary of exactly the passing rows of these whole worlds, although only the selected metrics were fetched |
| `FanOut.StepKeepsInv` | internal/engine/engine.go:159-251 | every step of every interleaving keeps the slots counted, one result per finished target, and the counts of what is received |
| `FanOut.CallsAreBounded` | internal/engine/engine.go:166-171 | at any moment of any run the adapter calls in flight and the slots of other queries are within the capacity |
| `FanOut.TargetsStayInShare` | internal/engine/engine.go:159-251 | in any run, at any moment, no target has begun more adapter calls than its share |
| `FanOut.NeverBlocks` | internal/engine/engine.go:158-239 | a result can always be sent, to an open channel with room, and a held slot can always be returned |
| `FanOut.EveryTargetIsAccounted` | internal/engine/engine.go:241-261 | when the rows are gone through, every target has sent exactly one result, every slot is returned, and planned targets equal succeeded plus failed ones |
| `FanOut.NeverStuck` | internal/engine/engine.go:165-175 | a query can take a step unless other queries hold every slot, and once cancelled even then |
| `FanOut.RunsEnd` | internal/engine/engine.go:159-251 | every run takes a bounded number of the query's own steps |
| `Fetching.ReadPageWithRetry` | internal/engine/engine.go:655-688 | the loop makes the attempt of which the next three rows speak |
| `Attempts.AttemptExactlyWhen` | internal/engine/engine.go:655-688 | that is the attempt in which every call but the last fails with a retryable error below the budget and with no cancelled wait after it, and the last does not; it ends with the last page and error, or with a context error if only the wait ended it |
| `Attempts.SucceedsExactlyWhen` | internal/engine/engine.go:661-674 | it succeeds exactly if some reply is without error and every reply before it is retried |
| `Attempts.PagesTakeThreeCalls` | internal/engine/engine.go:204-209 | a page of a target takes from one to three calls, and no more than its share has left |
| `Fetching.RetryStaysInBudget` | internal/engine/engine.go:655-688 | an attempt counts at least its calls, makes at least one, no more than allowed, and ends without error only on the reply to its last call |
| `Fetching.QueryTarget` | internal/engine/engine.go:197-239 | the loop over selectors computes the specified progress and error |
| `Fetching.QueryPages` | internal/engine/engine.go:201-230 | so does the loop over the pages of one selector |
| `Fetching.ReadNext` | internal/engine/engine.go:204-232 | so does one iteration, which uses up at least one request |
| `PageSizes.TargetIsMeasured` | internal/engine/engine.go:204-227 | every page was asked for with the least of a full page, the items left and the rows left; all rows of all pages but the last are kept, and of the last as many as fit |
| `FetchingLaws.TargetIsFetched` | internal/engine/engine.go:186-239 | after every fetch rows, scanned items, calls and page sizes are within the share, the rows are a prefix of those received, every recorded page is the provider's answer to that very call, every chain starts at the empty token and is linked, and the combined token is empty exactly if the last selector was reached, its chain ended and nothing was cut |
| `FetchingLaws.EmptyTokenMeansEverything` | internal/engine/engine.go:217-238 | an empty token and no repeats hold exactly when all chains of all selectors are complete and nothing was cut; then all rows are kept |
| `FetchingLaws.RepeatedTokenGoesUnnoticed` | internal/engine/engine.go:219-230 | with two selectors a provider that repeats a token yields an empty combined token although its chain is not complete |
| `Cursors.CursorStore.constructor` | internal/engine/cursor.go:29-34 | an empty store for at least one entry and 50,000 rows |
| `Cursors.CursorStore.Put` | internal/engine/cursor.go:36-61 | after expired entries are dropped and the oldest are evicted one at a time until the new one fits, it is stored under its token; nothing else changes |
| `Cursors.CursorStore.Next` | internal/engine/cursor.go:71-105 | a live token is consumed and answered with a page, the rest stored anew under the next token; any other token changes nothing but expiry |
| `Cursors.CursorStore.EvictLocked` | internal/engine/cursor.go:40-51 | eviction removes only entries that expire no later than every survivor, and stops as soon as the new entry fits |
| `Cursors.CursorStore.PruneLocked` | internal/engine/cursor.go:107-114 | exactly the expired entries are dropped |
| `Cursors.CursorStore.StoredRowsLocked` | internal/engine/cursor.go:63-69 | the sum of the stored rows, in any order of iteration |
| `Cursors.CursorStore.OldestLocked` | internal/engine/cursor.go:41-47 | an entry that expires no later than any other, if there is one |
| `CursorRuns.StepKeepsInv` | internal/engine/cursor.go:36-105 | every put, fetch, clock move and eviction keeps every live token in charge of exactly the rest of its query's rows |
| `CursorRuns.StoreStaysBounded` | internal/engine/cursor.go:36-105 | in every reachable state at most `max` entries and 50,000 rows are stored, although fetching reinserts unchecked |
| `CursorRuns.ChainsDeliverPrefixes` | internal/engine/cursor.go:71-94 | what a chain has delivered is a prefix of its own query's rows, in order, in pages no longer than the page size |
| `CursorRuns.FinishedChainsDeliverAll` | internal/engine/engine.go:320-326 | a chain that was neither expired nor evicted drains all rows in as many pages as the page size needs, counting the first |
| `CursorRuns.SpentTokensStaySpent` | internal/engine/cursor.go:71-79 | a token that succeeded never succeeds again |
| `CursorRuns.FetchDeliversNextPage` | internal/engine/cursor.go:71-94 | a fetch succeeds exactly for a stored token that has not expired, and delivers the next page of its owner's chain and nothing to others |
| `CursorLaws.PageCarries` | internal/engine/cursor.go:80-94 | a page has the first rows, their number, the columns and all else of its query, and names a next page exactly if rows are left |
| `CursorLaws.TokensLastForTheirTime` | internal/engine/cursor.go:52-104 | a token expires the time to live after it is issued, and nothing later changes what is stored under it |
| `Readiness.Coordinator.EnterLocked` | internal/probe/readiness.go:41-62 | the first critical section: serve, wait for the refresher, or become it |
| `Readiness.Coordinator.PublishLocked` | internal/probe/readiness.go:69-76 | the second: the outcome, error or not, is cached and the refresher is released |
| `Readiness.Coordinator.constructor` | internal/probe/readiness.go:29-37 | an empty cache with a positive time to live |
| `Readiness.StepKeepsInv` | internal/probe/readiness.go:39-84 | every step of every interleaving keeps at most one refresher, whose channel is the current one |
| `Readiness.SingleFlight` | internal/probe/readiness.go:60-67 | at most one `Run` is in flight in any reachable state |
| `Readiness.StartsWaitForCompletions` | internal/probe/readiness.go:43-72 | no `Run` starts before its predecessor's completion, failed or not, plus the time to live |
| `Readiness.StartsAreSpaced` | internal/probe/readiness.go:43-72 | so k+1 starts are at least k times the time to live apart |
| `Readiness.AnswersAreLatest` | internal/probe/readiness.go:43-81 | an answer that is no context error is the latest completed outcome when the lock is held; from the cache only before expiry |
| `Readiness.NoWaiterIsStranded` | internal/probe/readiness.go:52-61 | a waiter's channel is closed, or is that of a refresher still at work |
| `Readiness.EveryWaiterCanBeServed` | internal/probe/readiness.go:39-84 | from every reachable state some run answers any given waiter |
| `Lexing.ScanWord` | internal/dsl/expression.go:245-284 | the loops find the end of a word, with a bracketed index if it has one |
| `Lexing.ScanToken` | internal/dsl/expression.go:190-284 | one token and its length, as the first token of the rest |
| `Lexing.LexExpression` | internal/dsl/expression.go:183-291 | the loop yields the token list of the input, ending in end-of-input |
| `LexicalGrammar.LexExactlyWhen` | internal/dsl/expression.go:183-291 | the lexer answers with some tokens exactly if the text can be cut into spaces and texts of these tokens, each as long as what follows allows |
| `LexicalGrammar.FirstTokenExactlyWhen` | internal/dsl/expression.go:190-287 | its first token is the one that the text begins with: punctuation, an operator, a quoted text with its escapes, a number, or a word with its quoted index |
| `Lexing.LexInvertsPrint` | internal/dsl/expression.go:183-291 | printed tokens, a space after each, are lexed back into the same tokens |
| `Parsing.ExpressionParser.ParseOrAt` | internal/dsl/expression.go:51-64 | the method moves the position past exactly what the specified parser consumes |
| `Parsing.ExpressionParser.ParseAndAt` | internal/dsl/expression.go:66-79 | likewise |
| `Parsing.ExpressionParser.ParseUnaryAt` | internal/dsl/expression.go:81-102 | likewise |
| `Parsing.ExpressionParser.ParsePredicateAt` | internal/dsl/expression.go:104-156 | likewise |
| `Parsing.ExpressionParser.ParseValuesAt` | internal/dsl/expression.go:127-146 | likewise, for the list after `in` |
| `Parsing.ExpressionParser.MatchWord` | internal/dsl/expression.go:175-181 | advances exactly past the word it is asked for |
| `Parsing.ParseTokens` | internal/dsl/expression.go:35-49 | a parse that uses up every token |
| `Grammar.ParserIsGrammar` | internal/dsl/expression.go:35-167 | the parser returns an expression exactly for the texts that the grammar (not above and above or, left-associative) derives with that meaning |
| `Grammar.OneMeaning` | internal/dsl/expression.go:35-167 | a text has one meaning |
| `Printing.ParseInvertsFull` | internal/dsl/ast.go:60-83 | parsing the fully parenthesised rendering gives back the tree and uses up every token |
| `Printing.ParseInvertsMinimal` | internal/dsl/expression.go:51-102 | so does parsing the rendering with only the parentheses that precedence requires |
| `Printing.ParseInput` | internal/dsl/expression.go:35-49 | lexing, then parsing, of a text |
| `Printing.ReadInvertsPrint` | internal/dsl/expression.go:35-291 | as texts too, both renderings are read back as the same tree |
| `Values.LookUp` | internal/dsl/eval.go:11-28 | the loop finds what the path names, as the next two rows say |
| `Paths.NamesExactlyWhen` | internal/dsl/eval.go:11-28 | a path names a row's own field if there is one of that name, and otherwise the end of the trace of nested fields along its parts |
| `Paths.SplitInvertsWriting` | internal/dsl/eval.go:30-43 | the parts of a path come back in order, whichever of the three ways each is written in |
| `Selectors.AppendIfMissing` | internal/dsl/validate.go:278-285 | appends a value that is not there yet |
| `Selectors.CollectSelectors` | internal/dsl/validate.go:220-276 | the recursion with its loops computes the specified selectors, and none when it reports none |
| `Selectors.SelectorsAreDistinct` | internal/dsl/validate.go:220-285 | selectors have no duplicates, and there is at least one |
| `SelectorLaws.SelectedExactlyWhen` | internal/dsl/validate.go:220-276 | metrics are selected exactly by an expression that compares the metric for equality with names in every branch of an `or` or some side of an `and`, and they are exactly these names |
| `Selectors.PassingRowsAreSelected` | internal/dsl/validate.go:220-276 | every row on which the expression is true has a metric among the selectors |
| `Selectors.PushdownIsSound` | internal/dsl/validate.go:220-276 | fetching only the selectors and filtering keeps exactly the rows that filtering everything keeps, each as often |
| `Segmentation.SplitPipeline` | internal/dsl/parser.go:100-133 | succeeds exactly on text whose quotes and brackets are closed; the pieces, joined, are the input, and every separator left in one is quoted or bracketed |
| `Segmentation.SplitComma` | internal/dsl/parser.go:361-405 | succeeds exactly if the text has such a split without blank pieces |
| `Brackets.BalancedExactlyWhen` | internal/dsl/parser.go:100-133 | a text is balanced exactly if it is made of quoted texts and plain text in which no bracket closes before it opens and all are closed in the end |
| `Segmentation.SplitIsUnique` | internal/dsl/parser.go:100-133 | a text has at most one such split |
| `Segmentation.PiecesAreStable` | internal/dsl/parser.go:100-133 | splitting a trimmed piece again gives just that piece |
| `Segmentation.TrimmingKeepsPieces` | internal/dsl/parser.go:120-131 | trimming leaves a piece balanced and its separators protected |
| `Quotes.QuotesAgreeExactlyWhen` | internal/dsl/parser.go:104-110 | scanner and lexer see a quoted text end at the same place exactly when it does not end in a backslash |
| `Quotes.StageAgreesExactlyWhen` | internal/dsl/expression.go:183-291 | after every token of a stage the scanner has no quote open, exactly when no quoted text ends in a backslash and no bracketed index leaves one open |
| `Quotes.IndexStaysOpen` | internal/dsl/expression.go:245-284 | a word with one quote in its index is one token to the lexer, and an open quote to the scanner |
| `Quotes.TextsAreAllInput` | internal/dsl/expression.go:183-291 | the texts of tokens and spaces, joined, are the whole of an input that the lexer accepts |
| `Quotes.EscapedBackslashStaysOpen` | internal/dsl/parser.go:104-110 | a string the lexer reads whole, whose quote the scanner takes for open |
| `Aggregation.AggregateRows` | internal/engine/engine.go:525-607 | one pass yields a row for each group, each cell the fold over that group's usable values, or the zero counts of an empty input without keys |
| `Groups.ShareGroupExactlyWhen` | internal/engine/engine.go:535-552 | rows with the same texts of their group values share a group; rows that share one have the same pieces of texts between NULs, so without NULs the same texts |
| `Groups.NulsMergeGroups` | internal/engine/engine.go:535-546 | two rows with different texts in one group |
| `GroupTables.GroupsAreCombinations` | internal/engine/engine.go:535-606 | without NULs the result has one row for each combination of texts that occurs, made of exactly the rows with these texts |
| `GroupTables.GroupRowShows` | internal/engine/engine.go:553-606 | a group's row shows the number of its rows or of its values that are not nil, and the sum, average, least or greatest of its numbers, and nothing where there is none |
| `GroupTables.GroupRowNames` | internal/engine/engine.go:536-552 | a group's row has under every key what its first row has there, nil standing for nothing |
| `GroupTables.NothingShowsZeroCounts` | internal/engine/engine.go:583-591 | the row of no rows has a zero for every count and nothing else |
| `Aggregation.AbsorbRows` | internal/engine/engine.go:535-582 | after the loop there is one accumulator for each group, and it has absorbed exactly that group |
| `Aggregation.KeyAndValues` | internal/engine/engine.go:536-546 | the loop joins the texts of the key values, which decide the group as the rows on `Groups` say, and collects the values |
| `Aggregation.FinishGroups` | internal/engine/engine.go:592-606 | averages are divided, and every group becomes a row |
| `Aggregation.GroupRowIsUnique` | internal/engine/engine.go:525-607 | a group determines its row, cell by cell |
| `AggregationLaws.GroupsPartitionRows` | internal/engine/engine.go:535-582 | every input row lands in exactly one group |
| `AggregationLaws.CountStarConservesRows` | internal/engine/engine.go:554-560 | every row of the result has its `count(*)` cell, and these cells add up to the number of input rows |
| `AggregationLaws.AggregatesIgnoreRowOrder` | internal/engine/engine.go:525-607 | the aggregate cells of a group do not depend on the order of the rows |
| `AggregationOrders.AggregationsAgree` | internal/engine/engine.go:525-607 | so the results over two orders list the same groups, each once, with the same aggregate cells for each group |
| `AggregationOrders.MovedAggregation` | internal/engine/engine.go:592-628 | an aggregation whose rows are moved by sorting is still one: every row takes its group along |
| `Aliases.BuildAlias` | internal/dsl/parser.go:345-359 | the loop and the trimming yield the alias about which the next two rows speak |
| `Aliases.AliasJoinsWords` | internal/dsl/parser.go:345-359 | an alias is the longest runs of letters and digits of the field, in order, with one underscore between neighbours |
| `Aliases.AliasIsSqueezed` | internal/dsl/parser.go:345-359 | it keeps every letter and digit in order and in its case; between them are single underscores only, and none is at an end |
| `Summaries.ParseAggregates` | internal/dsl/parser.go:304-343 | the loop over items computes what the next two rows describe |
| `SummaryItems.ItemsExactlyWhen` | internal/dsl/parser.go:304-343 | the items are accepted exactly if each is read and no output name repeats |
| `SummaryItems.ItemExactlyWhen` | internal/dsl/parser.go:310-333 | an item is read as an aggregate exactly if it is the function's name in any case, a field in brackets and spaces, the field being allowed, or missing in a count, and the output being named after both |
| `SummaryItems.FieldAllowedExactlyWhen` | internal/dsl/ast.go:113-149 | a field is allowed exactly if the name before its first dot or bracket is a column or has the form of an output |
| `Summaries.AliasIsOutputField` | internal/dsl/ast.go:129-149 | every accepted aggregate's output has the form that group keys must not have |
| `Summaries.AcceptedSummariesHaveNamesApart` | internal/dsl/validate.go:76-92 | what parser and validator accept has distinct outputs that are no group keys, which is what streaming aggregation needs |
| `SortOrders.RowLess` | internal/engine/engine.go:610-627 | a row comes first exactly if the first field in which the two do not tie has the smaller number, or the text that comes first, or the other way round if it is descending |
| `SortOrders.SortedRowsAreInOrder` | internal/engine/engine.go:609-628 | sorted on ordered columns, every row comes before each later one or ties with it in all fields |
| `SortOrders.SortedFieldByField` | internal/engine/engine.go:609-628 | where the first fields tie, the next one does not decide the other way |
| `SortOrders.NumbersAreSorted` | internal/engine/engine.go:609-645 | numbers in the first sort column do not decrease if it is ascending, and do not increase if it is descending |
| `SortOrders.TiesKeepTheirOrder` | internal/engine/engine.go:613 | rows that tie in all fields stay in the order in which they came |
| `Sorting.OrderedExactlyWhenCut` | internal/engine/engine.go:630-645 | a column is totally preordered by the comparison exactly if its texts cut its numbers |
| `Sorting.UniformColumnsAreOrdered` | internal/engine/engine.go:630-645 | columns of numbers and missing values, or of text only, are ordered; missing values come after numbers |
| `Sorting.MixedColumnIsNotOrdered` | internal/engine/engine.go:630-645 | "9", "10" and "1a" form a cycle |
| `Sorting.OrderedColumnsOrderRows` | internal/engine/engine.go:609-628 | ordered columns make the comparator of rows a total preorder |
| `Sorting.SortRowsIsTheStableSort` | internal/engine/engine.go:609-628 | on ordered columns what `SliceStable` promises leaves one result, the modelled stable sort |
| `Sorting.SortStable` | internal/engine/engine.go:609-628 | always the same rows, and the stable sort of them wherever the columns are ordered |
| `StableSorting.StableSortIsUnique` | internal/engine/engine.go:613 | a total preorder leaves a stable sort one possible result |
| `KeySets.CursorAdvances` | internal/providers/tencent_listeners.go:134-138 | every emitted cursor is accepted and stands for a larger key |
| `KeySets.AcceptedExactlyWhen` | internal/providers/tencent_listeners.go:21-31 | a cursor is accepted exactly in the scope it was made for |
| `KeySets.PagesAreFull` | internal/providers/tencent_listeners.go:113-138 | a page that is not the last has as many rows as were asked for, or a hundred if that is no number from one to a hundred |
| `KeySets.ChainsIncrease` | internal/providers/tencent_listeners.go:87-140 | keys come out strictly increasing, so none twice, however the listing changes between calls |
| `KeySets.StableKeysComeOnce` | internal/providers/tencent_listeners.go:87-140 | a key present in all listings of a finished chain comes out exactly once |
| `KeySets.DeliveredIsListed` | internal/providers/tencent_listeners.go:113-133 | nothing comes out that no call listed |
| `KeySets.UnchangedListingIsDelivered` | internal/providers/tencent_listeners.go:87-140 | a listing that does not change is delivered whole and sorted |
| `Listeners.ListenerPage` | internal/providers/tencent_listeners.go:21-140 | rejects a cursor of another scope, a listener without id and a duplicate id, and otherwise answers with the smallest ids beyond the cursor and a cursor if any are left |
| `Listeners.RowsCarryTheirIDs` | internal/providers/tencent_listeners.go:93-133 | rows are listeners as they were listed, each under its own id |
| `Listeners.IndexListeners` | internal/providers/tencent_listeners.go:93-106 | succeeds exactly if all ids are present and distinct, and finds those beyond the cursor |
| `Targets.TargetPage` | internal/providers/tencent_targets.go:194-309 | succeeds exactly for an accepted cursor and a valid listing, and answers with the page after the cursor of its flattened bindings |
| `BindingLaws.ListedExactlyWhen` | internal/providers/tencent_targets.go:270-289 | the items of a listing are exactly the bindings of a listener or a rule to a target, each under its digest |
| `BindingLaws.AcceptedExactlyWhen` | internal/providers/tencent_targets.go:204-289 | a listing is accepted exactly if every listener has an id, nothing is unsupported, every target has a name and a port from 1 to 65535, and no two bindings have the same digest |
| `Targets.Collect` | internal/providers/tencent_targets.go:270-289 | the nested loops flatten listeners and rules in order, and fail exactly on an invalid or duplicate binding or an unsupported target |
| `Targets.Add` | internal/providers/tencent_targets.go:204-269 | the closure fails exactly on an invalid target or a key seen before |
| `Targets.FirstRows` | internal/providers/tencent_targets.go:290-308 | the loop with its early exit yields the page after the cursor |
| `DailyBills.DailyPosition` | internal/providers/alibaba_daily_costs.go:73-93 | the day and cursor of a token, or a rejection |
| `DailyBills.FirstDayIsFirstMidnight` | internal/providers/alibaba_daily_costs.go:74-77 | the first day is the first whose midnight is not before the start |
| `DailyBills.DailyPage` | internal/providers/alibaba_daily_costs.go:94-160 | metadata and bills are checked, and the page holds the wanted bills between the clamped offsets and the cursor of what follows |
| `DailyBills.ReadBills` | internal/providers/alibaba_daily_costs.go:116-149 | the loop fails exactly if a bill in reach is of another day or lacks currency or account |
| `DailyBillChains.QueryCosts` | internal/providers/alibaba_daily_costs.go:20-72 | one call of the daily chain |
| `DailyBillChains.CallDelivers` | internal/providers/alibaba_daily_costs.go:73-160 | a call does not fail, delivers the next of the rows left, and its cursor is accepted and leads further |
| `DailyBillChains.ChainsDeliverEveryBill` | internal/providers/alibaba_daily_costs.go:73-160 | for any limits, chains deliver every bill of every UTC midnight in the range once and in order, and have scanned the sum of the daily totals |
| `BillLaws.DeliveredExactlyWhen` | internal/providers/alibaba_daily_costs.go:73-160 | a finished chain delivers a bill exactly if the midnight of its day lies in the range and its account and region are asked for |
| `BillLaws.AnsweredExactlyWhen` | internal/providers/alibaba_daily_costs.go:94-149 | a page is answered exactly if its metadata is accepted and every bill in reach is of the day and has a currency and an account; as many bills are in reach as were asked for, or 300 if that is no number from 1 to 300 |
| `BillLaws.MetadataExactlyWhen` | internal/providers/alibaba_daily_costs.go:94-110 | which pages of bills are accepted: the page asked for, of 300, under a total of at most 50,000, full unless it is the last, not empty before the total |
| `DailyBillChains.ChainsEnd` | internal/providers/alibaba_daily_costs.go:150-158 | a chain is no longer than the bills and days before it |
| `DailyBillReplies.NextPlaceAdvances` | internal/providers/alibaba_daily_costs.go:94-160 | whatever reply passes the checks of its metadata, the cursor stands for a later day, page or offset |
| `DailyBillReplies.NextIsAcceptedExactlyWhen` | internal/providers/alibaba_daily_costs.go:73-158 | that cursor is accepted and leads to that place, except exactly if bills are left over although the reply reports none in all |
| `DailyBillReplies.CursorIsRejected` | internal/providers/alibaba_daily_costs.go:85-158 | two bills under a total of none: a call for one succeeds, and its cursor is rejected |
| `DailyBillReplies.ChainsIncrease` | internal/providers/alibaba_daily_costs.go:73-160 | however the bills change between calls, positions only grow along a chain |
| `DailyBillReplies.PositionsComeOnce` | internal/providers/alibaba_daily_costs.go:73-160 | so no position comes out twice, even when a day's bills shrink |
| `ProductLists.ProductListPage` | internal/providers/tencent_product_lists.go:83-147 | a page is returned exactly if the list is usable and fits between offset and an unchanged total |
| `ProductLists.ReadResources` | internal/providers/tencent_product_lists.go:122-135 | rows for all resources, exactly if every id is there and none repeats |
| `ProductLists.CursorAdvances` | internal/providers/tencent_product_lists.go:36-46 | every emitted cursor is accepted and stands where the page stopped |
| `ProductLists.AcceptedExactlyWhen` | internal/providers/tencent_product_lists.go:36-46 | a cursor is accepted exactly in the scope it was made for, with an offset inside its total |
| `ProductLists.PagesAreBounded` | internal/providers/tencent_product_lists.go:83-121 | a page has no more rows than were asked for, nor than a hundred |
| `ProductLists.PagesAreUsable` | internal/providers/tencent_product_lists.go:83-135 | a page has a row for each listed resource, each with an id of its own, no more than the total leaves and some unless it is reached |
| `ProductLists.FinishedChainsScanTheTotal` | internal/providers/tencent_product_lists.go:36-146 | whatever was replied, a chain that ends without error was told one total and has scanned exactly that many; no chain is longer |
| `ProductLists.UnchangedListIsDelivered` | internal/providers/tencent_product_lists.go:83-147 | a list that does not change is delivered in order, whatever the sizes of its pieces |
| `ProductChains.QueryDirectResources` | internal/providers/tencent_inventory.go:25-69 | one page of one product, and the cursor to its next page or the next product |
| `ProductChains.CursorIsAccepted` | internal/providers/tencent_inventory.go:43-67 | every emitted cursor is accepted and is the one that was meant |
| `ProductChains.AcceptedExactlyWhen` | internal/providers/tencent_inventory.go:43-51 | a cursor is accepted exactly in the scope it was made for, in the first version, at one of the eight products and past the beginning of the first |
| `ProductChains.ChainsGoThroughAllProducts` | internal/providers/tencent_inventory.go:43-68 | a chain is the listings of the products in order, each from its beginning; a finished one all eight to their ends |
| `ProductChains.RowsOfListings` | internal/providers/tencent_inventory.go:43-68 | its rows are the listings' rows, one listing after the other |
| `ProductChains.ChainsEnd` | internal/providers/tencent_inventory.go:43-68 | a chain is no longer than the listings of the products together |
| `ProductChains.PartScansTheTotal` | internal/providers/tencent_product_lists.go:36-146 | the part of a product that is listed by offset has at most one call more than its reported total, and if it is whole has scanned exactly that many |
| `Repaging.RawElastiCache` | internal/providers/aws_raw_services.go:130-197 | the loops and slices answer with the rows between offset and limit, and a cursor into the same or the next provider page |
| `Repaging.CachePageHolds` | internal/providers/aws_raw_services.go:163-187 | clusters come before groups, each in order, and the marker of the groups counts only if there is none of the clusters |
| `Repaging.RawECS` | internal/providers/aws_raw_services.go:75-264 | likewise; a cursor of more than 4096 bytes is rejected, and a repeated provider token is an error |
| `Repaging.ChainsDeliverProviderPages` | internal/providers/aws_raw_services.go:181-196 | over provider pages whose tokens do not lead back, chains deliver their concatenation once and in order for any limits, and end |
| `RepagingFailures.ChainsGoOnExactlyWhen` | internal/providers/aws_raw_services.go:48-91 | over provider pages that end, the call after an unfinished chain succeeds exactly if the cursor handed out is not too long, for ElastiCache always, with no more rows than asked for |
| `RepagingFailures.FailsExactlyWhen` | internal/providers/aws_raw_services.go:75-262 | over any pages, that call fails exactly for ECS, if the cursor handed out is too long or the call reaches the end of a provider page that names itself |
| `RepagingFailures.NeverFailsExactlyWhen` | internal/providers/aws_raw_services.go:75-262 | whatever the limits, no call of any chain fails exactly if, for ECS, every cursor the provider leads to fits and no token is answered with itself |
| `Repaging.RepeatedTokens` | internal/providers/aws_raw_services.go:181-262 | one call at a page that names itself: an error for ECS, a cursor to the same page for ElastiCache |
| `RepagingEnds.FinishesExactlyWhen` | internal/providers/aws_raw_services.go:75-264 | with limits up to any bound, a chain can reach its end exactly if the provider's own pages end, each can be come to with a cursor that fits, and in each no run of offsets as long as the bound has only cursors that are too long |
| `RepagingEnds.ProviderEndsExactlyWhen` | internal/providers/aws_raw_services.go:130-264 | they end exactly if the provider's tokens, followed from the empty one, come back to the empty one |
| `RepagingEnds.ElastiCacheEndsExactlyWhen` | internal/providers/aws_raw_services.go:48-196 | ElastiCache can finish exactly if the provider's pages end, and otherwise has chains of every length |
| `RepagingEnds.EndlessExactlyWhen` | internal/providers/aws_raw_services.go:75-262 | there are chains of every length exactly if the provider's pages do not end, each can be passed over cursors that fit, and, for ECS, no token that is reached is answered with itself |
| `RepagingEnds.RepeatingProviders` | internal/providers/aws_raw_services.go:181-262 | a page that names itself keeps ElastiCache going for ever and stops ECS; two pages that name each other keep both going |
| `RepagingEnds.LongTokenStopsECS` | internal/providers/aws_raw_services.go:70-91 | two pages, the second with a token above 4096 characters: ElastiCache delivers both, ECS rejects the cursor it handed out |
| `Windows.QueryMetrics` | internal/providers/tencent_sources.go:44-149 | one window: its bounds, the samples in it, and the cursor to the next |
| `Windows.ReadSeries` | internal/providers/tencent_sources.go:125-135 | the loop with its continue and break keeps exactly the samples in the window that have a value |
| `SampleLaws.SampledExactlyWhen` | internal/providers/tencent_sources.go:116-143 | a window holds a sample exactly if some series has it, in its averages or else its values, at a second in the window |
| `SampleLaws.WindowLength` | internal/providers/tencent_sources.go:44-66 | a window is as many steps long as samples were asked for, 500 if that is no number from 1 to 7200, cut off at the end of the range; a step is five minutes if none is given |
| `Windows.AcceptedExactlyWhen` | internal/providers/tencent_sources.go:48-58 | where the cursor of a window leads, and when it is rejected |
| `Windows.CursorsAreRejected` | internal/providers/tencent_sources.go:48-148 | two ranges whose first window hands out a cursor that is rejected |
| `Windows.CursorsAdvance` | internal/providers/tencent_sources.go:44-66 | with steps of a second or more, from the epoch on, every cursor is accepted and windows start strictly later |
| `WindowChains.WindowsCover` | internal/providers/tencent_sources.go:59-66 | the windows of a finished chain leave no instant of the range out |
| `WindowEnds.LeadsOnExactlyWhen` | internal/providers/tencent_sources.go:48-66 | the cursor of a window is accepted and starts the next window later exactly if the window leaves the second it starts in and stops after the first second of the epoch |
| `WindowEnds.ChainsEnd` | internal/providers/tencent_sources.go:48-148 | over any range, a chain whose windows leave their seconds has no more calls than the range has seconds |
| `WindowEnds.LongStepsEnd` | internal/providers/tencent_sources.go:48-148 | so has every chain with steps of a second or more |
| `WindowEnds.EndlessExactlyWhen` | internal/providers/tencent_sources.go:44-148 | there are chains of every length exactly if the step is below a second and the start, or the end of some first window, lies in a whole second of the range after the epoch that a step neither leaves nor ends the range in |
| `WindowEnds.ShortStepsNeverEnd` | internal/providers/tencent_sources.go:44-148 | quarters of a second from second 5: chains of every length |
| `WindowEnds.ChainsFinish` | internal/providers/tencent_sources.go:44-148 | from the epoch on, an unfinished chain whose cursor is accepted can be brought to its end with any limit that makes windows of a second or more, whatever is replied |
| `WindowEnds.LongStepsFinish` | internal/providers/tencent_sources.go:44-148 | with steps of a second or more that is every unfinished chain, with any limit |
| `Windows.WindowsOverlapExactlyWhen` | internal/providers/tencent_sources.go:145-148 | a window and one that starts where its cursor leads share a whole second exactly if the first stops between seconds |
| `WindowChains.SecondsComeOnceExactlyWhen` | internal/providers/tencent_sources.go:44-148 | along a chain, over any range, no whole second lies in two windows exactly if every window with a successor stops at a whole second |
| `Windows.SampleIsDeliveredTwice` | internal/providers/tencent_sources.go:145-148 | a range that starts between seconds, and the sample in two of its windows |
| `WindowChains.WindowsAreDisjoint` | internal/providers/tencent_sources.go:44-66 | then no instant at all lies in two windows of the chain |
| `WindowChains.ChainsDeliverSamplesAndOverlaps` | internal/providers/tencent_sources.go:125-148 | over any range a finished chain delivers every sample of the range, and once more exactly those of the overlaps |
| `WindowChains.ChainsDeliverEverySample` | internal/providers/tencent_sources.go:125-148 | if inner windows stop at whole seconds, as they do for whole starts and steps, every sample of the range comes exactly once |

## Left out

- Cloud APIs, signing, credentials, XML and JSON decoding: a provider is a function or an arbitrary reply; a cursor text is an injective codec.
- Error texts, audit events, sanitising, projection, column inference and the status field: they change no row; errors keep only their kind.
- Row builders and lookup tables (attributes of detail rows, metric units, billing regions): a row carries the item it is built from.
- Planning of targets, scopes, configuration checks, `Explain`, native reads and the parts of `Parse` and `Validate` beyond splitting, summaries and metric selectors.
- Floating point and number formats: numbers are reals, and `strconv.ParseFloat`, `strconv.Unquote` and `fmt.Sprint` of numbers are functions about which nothing is assumed; NaN and infinities are not modelled.
- Unicode: texts are sequences of characters, letter case is ASCII, and a byte offset is a character index.
- Machine integers are unbounded; a page number in a forged billing cursor that overflows when multiplied is not modelled. The limit of 256 bytes on cursors of days and windows (internal/providers/common.go:145) is part of decoding: a date and three machine integers never reach it.
- Library sorting is represented by insertion sort.  `StableSorting.StableSortIsUnique` and `StableSorting.SortIsStrict` show that no other result is possible on ordered, or distinct, items; of rows with an unordered column only the multiset is promised, because there `sort.SliceStable` promises no order either.
- Critical sections are atomic steps; random tokens are parameters that are fresh in a run.
- With a region in its scope a query may stop fetching before the local region filter runs; then fewer rows than its limit come back, flagged truncated, and the theorem on complete answers says nothing.
- The other providers' cursor chains and metric windows, which repeat patterns modelled here.
