# SAID forge and harness: a Dafny model

This project models the self-contained algorithms of the repository and proves what they promise:

- the pointer-based cache, the interval merger, the expiring store and the token bucket of `hard-eval/results`,
- the JSON-RPC client of `hard-eval/mcp-harness` with its stream framer and its table of waiting requests,
- from `crates/said-forge`: the glob matcher, the `CREATE TABLE` parser, the foreign-key ordering of tables, the
  registry fitter (the gates that choose a procedure, and the pass that gives every registry row an operation), the
  tags, frames and runs of the run ledger, the circuit breaker, the token cap and the two comment strippers.

Code that works on changing state is modelled by classes and by methods with loops; each such method is tied to a
function on plain values, and the properties are lemmas about that function. `dafny verify dfyconfig.toml` checks
everything.

## Files

| files | component |
|---|---|
| `Text`, `Lists` | searching, splitting, decimal numbers, ASCII case; filtering lists up to rearrangement |
| `LruCache`, `LruRuns` | the cache on the heap; whole runs of it, compared with textbook LRU |
| `JsonFramer`, `McpClient`, `McpProtocol` | the brace scanner; the client object; every run of sends, chunks and exit |
| `Glob` | the glob matcher and the meaning of `*` |
| `TableSchema`, `TablePrinter`, `DdlLayout`, `ColumnProofs`, `ConstraintProofs`, `ItemProofs`, `TableRoundTrip`, `PrintedStatement` | the DDL parser, a printer for the documented shape, the round trip, and what comment marks in the printed text do to it |
| `TableOrder`, `TableOrderProofs`, `PassCount`, `PassCap` | the multi-pass ordering, its guarantees, how many passes a table waits, and the effect of the cap on passes |
| `ProcMatcher`, `ProcMatcherProofs`, `ProcPreferences` | the scored gates that choose a procedure, and which one of several they prefer |
| `PathShapes`, `MissingOps`, `MissingOpsProofs`, `PassReport` | path normalisation, the missing-operation pass, and its report row by row |
| `Intervals`, `TtlStore`, `RateLimiter` | interval merging, the lazily purged store, the token bucket |
| `ForgeTags`, `Slugs`, `RunLedger`, `LedgerProofs`, `RunOutcomes`, `CircuitBreaker` | tags, slugs, frames and runs, run numbers over whole histories, what a run leaves behind, the breaker |
| `TokenCap`, `SqlComments` | the byte budget with UTF-8 boundaries; the two comment strippers |

## Where the code and its documentation differ

The model follows the code. These differences are themselves stated and proved:

- The cache documents eviction of the least recently used key. On every run it does so exactly when its capacity is
  at most 2 (`LruRuns.AgreesExactlyUpToTwo`); a larger cache, once full, turns over a single slot
  (`LruRuns.OneSlotTurnsOver`), because a key that came in by an overflow, and was not used since, is the next to go
  (`LruRuns.LowestRankGoes`).
- A glob pattern is matched as it reads exactly when it has a `*`; without one it is only compared as a prefix
  (`Glob.ExactIffStar`).
- The documented column shape `TYPE[(N|MAX|p,s)]` shows no space before the size. Written so, the size becomes part of
  the type's name, up to the white space behind its comma if there is any, and no length or precision is read
  (`ColumnProofs.GluedSizeIsNotRead`). A source that strips to a printed statement is read back exactly when no size is
  written that way, no default mentions IDENTITY or NOT NULL against the column's own flags and no foreign key column
  says REFERENCES (`TableRoundTrip.ParsesBackExactly`).
- Comments are stripped without regard to string literals. So a statement's own text is read back exactly when, in
  addition, no `--` and no `/*` begins before the statement has ended, provided that such a comment never ends
  (`PrintedStatement.PrintedParsesBack`): the default `'--'` makes the whole table disappear
  (`PrintedStatement.DashesAreLost`). Without such a comment it does not matter what stands behind the statement.
- The missing-operation pass is meant to merge into what is there. It never touches an operation under one of the
  eight standard methods; an entry under any other key is replaced exactly when a row with that path and method has a
  resolution or an entity (`MissingOpsProofs.ReplacedExactly`, `MissingOpsProofs.ConnectIsLost`).
- A spec without `paths` gets no operation although rows are reported as added
  (`MissingOpsProofs.WithoutPathsNothingIsServed`).
- Gate 5 is described as correlating the path's suffix with the procedure's name. As the pass calls it, the path never
  has a suffix (`MissingOpsProofs.PassHasNoSuffix`).
- The token cap bounds the kept text, not the output, which is longer than the cap exactly when the markers take more
  bytes than the sections leave unused (`TokenCap.MarkerExceedsCap`); it always is when every section is over its
  budget (`TokenCap.AllCutExceedsCap`).
- The expiring store is what it promises to be exactly when its clock, from the second reading on, never runs back
  (`TtlStore.ClockMustNotRunBack`).
- Removing a story also hits every story of the same hash whose slug goes on behind its own with a colon
  (`LedgerProofs.HitsExactly`); sanitised slugs have no colon, so between them it never goes astray
  (`LedgerProofs.SlugsAreSafe`).
- An unclosed block comment: the schema parser's stripper gives the last character back, the other does not, and
  apart from that the two agree (`SqlComments.StrippersAgree`).
- The cap of 50 passes is felt even without a cycle: references come first in the whole result if there is no cycle and
  no chain of references takes more than 50 steps to a table listed later, and among uniquely named tables only then
  (`PassCount.OrderedExactly`). Tables are named without their schema; where names repeat, a cycle may keep nothing
  back (`PassCap.RepeatedNames`).

## Model

| member | source | states |
|---|---|---|
| LruCache.LRUCache.constructor | hard-eval/results/h1_lru.verified.js:17-24 | a new cache is well formed and empty |
| LruCache.LRUCache.Remove | hard-eval/results/h1_lru.verified.js:26-29 | unlinking a node takes exactly its entry out of the list; the links stay mutually inverse |
| LruCache.LRUCache.AddToHead | hard-eval/results/h1_lru.verified.js:31-36 | the entry becomes the first, the rest is unchanged |
| LruCache.LRUCache.AddToTail | hard-eval/results/h1_lru.verified.js:38-43 | the entry becomes the last, the rest is unchanged |
| LruCache.LRUCache.MoveToTail | hard-eval/results/h1_lru.verified.js:45-48 | the entry moves to the end, the order of the others is kept |
| LruCache.LRUCache.Get | hard-eval/results/h1_lru.verified.js:50-57 | answers what `AnswersAreLastPuts` says of the recency list, the value or -1; a hit counts as a use; the heap stays well formed |
| LruCache.LRUCache.Put | hard-eval/results/h1_lru.verified.js:59-82 | refines one step on the recency list: update moves to the end, overflow drops the first entry and prepends if more than one remains, else appends; never more than the capacity, keys unique |
| LruRuns.StateWellFormed | hard-eval/results/h1_lru.verified.js:59-82 | after every run keys are distinct and at most the capacity are held |
| LruRuns.AnswersAreLastPuts | hard-eval/results/h1_lru.verified.js:50-82 | in every run a resident key is answered with the value of its last put, an absent one with -1 |
| LruRuns.StateAscends | hard-eval/results/h1_lru.verified.js:59-82 | at every capacity the list is in order of rank: by last use, but keys that came in by an overflow of a cache of three or more and were not used since come first, the latest of them in front |
| LruRuns.LowestRankGoes | hard-eval/results/h1_lru.verified.js:59-82 | a put of an absent key in a full cache evicts exactly the resident of the lowest rank; no other call changes which keys are resident but by adding its own |
| LruRuns.TextbookOrderedByLastUse | hard-eval/results/h1_lru.verified.js:1-6 | the reference is real LRU: its list is ordered by last use, so its first entry is the least recently used |
| LruRuns.SmallCapacityAgrees | hard-eval/results/h1_lru.verified.js:59-82 | at capacity 1 or 2 every run gives the state and answers of textbook LRU |
| LruRuns.LargeCapacityDiffers | hard-eval/results/h1_lru.verified.js:67-73 | for every capacity from 3 on, a run whose answer is not that of textbook LRU |
| LruRuns.AgreesExactlyUpToTwo | hard-eval/results/h1_lru.verified.js:1-6 | the promised eviction rule holds on all runs if and only if the capacity is at most 2 |
| LruRuns.OneSlotTurnsOver | hard-eval/results/h1_lru.verified.js:67-82 | once full at capacity 3 or more, puts of absent keys replace one slot only; all other residents stay |
| JsonFramer.CutAppend | hard-eval/mcp-harness/mcp-client.js:46-63 | for any stable scanner, what a and then b give is what the whole a+b gives, frames and rest |
| JsonFramer.FirstIsStable | hard-eval/mcp-harness/mcp-client.js:47-60 | more text never changes where a complete object ends |
| JsonFramer.FeedIsCut | hard-eval/mcp-harness/mcp-client.js:39-71 | feeding any chunks gives the frames and the rest of the whole text |
| JsonFramer.FramesAppend | hard-eval/mcp-harness/mcp-client.js:39-63 | the framer's emissions and buffer after a+b are those after a and then b |
| JsonFramer.PrintBalanced | hard-eval/mcp-harness/mcp-client.js:48-59 | every JSON text of RFC 8259, sections 2 to 7, brings the scanner back to the depth it started at; braces, quotes, backslashes and raw newlines inside strings do not count |
| JsonFramer.StreamFrames | hard-eval/mcp-harness/mcp-client.js:45-63 | objects between separators without an opening brace are emitted one by one, in order |
| JsonFramer.FramingIsExact | hard-eval/mcp-harness/mcp-client.js:39-71 | for every list of JSON objects, every separators without an opening brace and every cutting into chunks, exactly the object texts are emitted, in order |
| McpClient.Client.Send | hard-eval/mcp-harness/mcp-client.js:73-83 | takes the next id and enters it only if a reply is expected |
| McpClient.Client.FindEnd | hard-eval/mcp-harness/mcp-client.js:47-59 | the inner loop finds the end of the first complete object or nothing |
| McpClient.Client.OnMessage | hard-eval/mcp-harness/mcp-client.js:64-69 | a frame resolves the pending id it carries, and otherwise changes nothing |
| McpClient.Client.OnData | hard-eval/mcp-harness/mcp-client.js:39-71 | one chunk is one data step of the protocol |
| McpClient.Client.OnExit | hard-eval/mcp-harness/mcp-client.js:33-36 | exit rejects every pending id and clears the table |
| McpProtocol.TableIsPartition | hard-eval/mcp-harness/mcp-client.js:65-80 | in every run the ids expecting a reply are split between pending and settled, none twice, and a resolved id was resolved by a frame carrying it |
| McpProtocol.SettledOnce | hard-eval/mcp-harness/mcp-client.js:65-69 | no id settles twice, and a settled id is not pending |
| McpProtocol.SettledForGood | hard-eval/mcp-harness/mcp-client.js:65-69 | what has settled stays settled the same way, whatever comes next |
| McpProtocol.ExitSettlesAll | hard-eval/mcp-harness/mcp-client.js:33-36 | right after exit nothing is pending and every id expecting a reply is settled |
| McpProtocol.ChunksMerge | hard-eval/mcp-harness/mcp-client.js:39-71 | cutting a chunk in two changes neither table nor buffer |
| McpProtocol.ReceiveIsOneStep | hard-eval/mcp-harness/mcp-client.js:39-71 | any number of chunks act like one chunk with all their text |
| McpProtocol.RepliesReachTheirSenders | hard-eval/mcp-harness/mcp-client.js:39-83 | after any run that left no opening brace behind, printed messages in any chunks, any order, duplicated or missing, resolve each pending id with the first message that carries it and leave the others pending |
| Glob.GlobMatch | crates/said-forge/src/filter.rs:68-89 | the loop accepts exactly what the greedy search of `GreedyIsComplete` accepts |
| Glob.TailAbsorbs | crates/said-forge/src/filter.rs:80-83 | exchange step: a tail that matches further right also matches from further left |
| Glob.GreedyIsComplete | crates/said-forge/src/filter.rs:80-86 | taking the leftmost occurrence of each middle part finds a split whenever there is one, and only then |
| Glob.StarPatternsAreExact | crates/said-forge/src/filter.rs:68-89 | with a star, a text is accepted if and only if it is what the pattern means |
| Glob.StarFreePatternsArePrefixes | crates/said-forge/src/filter.rs:69-79 | without a star, exactly the texts it is a prefix of are accepted, while it means only itself |
| Glob.ExactIffStar | crates/said-forge/src/filter.rs:68-89 | a pattern is matched as it reads on all texts if and only if it has a star |
| TableSchema.MatchClosingParen | crates/said-forge/src/schema.rs:162-174 | the loop answers the index that `ClosesExactly` characterises, or nothing if there is none |
| DdlLayout.ClosesExactly | crates/said-forge/src/schema.rs:160-174 | the index found is the closing parenthesis behind the only balanced text in front of one |
| TableSchema.SplitTopLevelItems | crates/said-forge/src/schema.rs:179-207 | the loop gives the pieces that `PiecesJoin` characterises, trimmed and without a blank last one |
| DdlLayout.PiecesJoin | crates/said-forge/src/schema.rs:176-207 | any items with balanced parentheses and no comma at depth 0, joined by commas, are cut apart into just these items |
| TableSchema.ParseCreateTable | crates/said-forge/src/schema.rs:77-145 | the parser with its loops gives the result that `ParsesBackExactly` is about |
| ColumnProofs.SizeReadsBack | crates/said-forge/src/schema.rs:386-411 | printed MAX, length and precision are read back, up to the limits of 32-bit numbers |
| ColumnProofs.ColumnReadsBack | crates/said-forge/src/schema.rs:298-363 | a printed column comes back as it is if and only if its size is not glued to its type and its default does not mention IDENTITY or NOT NULL against its flags; otherwise only type, size and these flags are wrong, and just how |
| ColumnProofs.ComputedReadsBack | crates/said-forge/src/schema.rs:328-341 | a printed computed column comes back as one, whatever its expression |
| ColumnProofs.GluedSizeIsNotRead | crates/said-forge/src/schema.rs:366-383 | a size without white space before it goes into the type's name, whole unless there is white space behind its comma, and no length or precision is read |
| ConstraintProofs.KeyListReads | crates/said-forge/src/schema.rs:231-258 | a printed key list gives its column names in order, whatever the clustering words and sort orders |
| ConstraintProofs.SkipName | crates/said-forge/src/schema.rs:211-229 | exactly the constraint's name is skipped |
| ConstraintProofs.QualifiedReads | crates/said-forge/src/schema.rs:148-158 | a printed name with or without schema is read back |
| ConstraintProofs.ForeignReadsBack | crates/said-forge/src/schema.rs:260-294 | a printed foreign key is read back if and only if its column does not say REFERENCES in any case |
| ItemProofs.PrintedIsItem | crates/said-forge/src/schema.rs:179-207 | every printed line is a single top-level item |
| ItemProofs.PrintedReadsBack | crates/said-forge/src/schema.rs:105-131 | every printed line is read as its kind, and as what it stands for if and only if it is honest: no glued size, and no keyword where the parser would search for it |
| TableRoundTrip.StatementReads | crates/said-forge/src/schema.rs:78-94 | behind comments, byte order marks and any text in front, the printed name and body are found |
| TableRoundTrip.ParsesBackExactly | crates/said-forge/src/schema.rs:77-145 | for every table definition in the documented shape, sizes with or without space before them, and every source that strips to its text, parsing gives the table back if and only if every line is honest |
| PrintedStatement.NoCommentParsesBack | crates/said-forge/src/schema.rs:77-145 | a printed statement in which no comment begins before its end, whatever text stands behind it, is parsed back if and only if every line is honest |
| PrintedStatement.CommentHidesStatement | crates/said-forge/src/schema.rs:416-441 | a comment that begins before the end of the statement and never ends leaves nothing to parse |
| PrintedStatement.PrintedParsesBack | crates/said-forge/src/schema.rs:77-145 | a printed statement in which no comment begins before its end, or no comment ends, is parsed back if and only if every line is honest and no comment begins before its end |
| PrintedStatement.DashesAreLost | crates/said-forge/src/schema.rs:413-426 | an honest table with the default `'--'` is not parsed at all |
| TableOrder.SweepOnce | crates/said-forge/src/sandbox.rs:237-248 | one sweep, in which a table placed early already counts for later ones |
| TableOrder.TopoSortTables | crates/said-forge/src/sandbox.rs:224-258 | the loop with its two exits gives the tables placed by the sweeps, then those left over |
| TableOrder.PassSplits | crates/said-forge/src/sandbox.rs:237-248 | a sweep loses and duplicates no table |
| TableOrderProofs.SortIsPermutation | crates/said-forge/src/sandbox.rs:224-258 | the result is a permutation of the input |
| TableOrderProofs.PlacedAfterReferences | crates/said-forge/src/sandbox.rs:239-247 | every table placed before the fallback stands behind all its known non-self references |
| TableOrderProofs.StuckMeansCycle | crates/said-forge/src/sandbox.rs:249-253 | a sweep that places nothing proves a cycle of references |
| TableOrderProofs.LeftoverHasChain | crates/said-forge/src/sandbox.rs:232-257 | a table left over after some sweeps starts a chain of references longer than their number |
| TableOrderProofs.ShortChainsAreSorted | crates/said-forge/src/sandbox.rs:28-28 | if no chain spans more than 50 tables the fallback never runs |
| TableOrderProofs.CycleReachesFallback | crates/said-forge/src/sandbox.rs:249-257 | with a cycle among uniquely named tables something is always left to the fallback |
| PassCount.LeftExactly | crates/said-forge/src/sandbox.rs:232-257 | a table still left after any number of sweeps starts a chain of references with as many steps to tables listed later; among uniquely named tables exactly those are left |
| PassCount.AllPlacedExactly | crates/said-forge/src/sandbox.rs:224-258 | the fallback has nothing to emit if there is no cycle and no chain takes more than 49 such steps, for which no cycle is enough up to 50 tables; among uniquely named tables only then |
| PassCount.OrderedExactly | crates/said-forge/src/sandbox.rs:224-258 | in the whole result every table follows its known non-self references if there is no cycle and no chain takes more than 50 such steps; among uniquely named tables only then |
| PassCap.CapLeavesDisorder | crates/said-forge/src/sandbox.rs:232-257 | tables that each refer to the next one have no cycle, yet are all placed only up to 50 and come out in order only up to 51 |
| PassCap.RepeatedNames | crates/said-forge/src/sandbox.rs:239-247 | with a repeated name there is a cycle of references that leaves nothing over and puts every reference first |
| ProcMatcher.PassGate1 | crates/said-forge/src/fitter.rs:1680-1747 | the scoring loops keep and score the candidates that `SurvivesWhen` and `OutrankingIsAnswer` are about |
| ProcMatcher.PassGate3 | crates/said-forge/src/fitter.rs:1781-1805 | the loop keeps exactly the candidates whose parameters cover the path's |
| ProcMatcher.ChooseProc | crates/said-forge/src/fitter.rs:1807-1987 | the decision after the gates, with its sorts and in-place rescoring; `LeaderWins` says what its margin test means |
| ProcMatcher.FindProcByEntity | crates/said-forge/src/fitter.rs:1562-1987 | the whole search with its retry loop gives the answer that `SingleIsJustified`, `AmbiguousListsAll` and `RowOrderIsIrrelevant` are about |
| ProcMatcherProofs.LeaderWins | crates/said-forge/src/fitter.rs:1845-1853 | comparing the first two of the sorted list is leading every other candidate by 30 |
| ProcMatcherProofs.RowOrderIsIrrelevant | crates/said-forge/src/fitter.rs:1562-1987 | permuting the candidate rows never changes a single answer nor the procedures listed in an ambiguous one |
| ProcMatcherProofs.DecidingGate | crates/said-forge/src/fitter.rs:1845-1982 | between several survivors a procedure is chosen if and only if it leads all others by 30 at the first gate, of 3, 5 and 6 in this order, at which anybody does |
| ProcMatcherProofs.SingleExactly | crates/said-forge/src/fitter.rs:1748-1987 | the answer is a single procedure if and only if that is the lone survivor and has affinity to the path, or is chosen at the deciding gate |
| ProcMatcherProofs.SingleIsJustified | crates/said-forge/src/fitter.rs:1828-1982 | a single answer names a row of the last search, passes the verb and parameter gates and is the lone survivor with affinity or the leader at the deciding gate |
| ProcPreferences.OutrankingIsAnswer | crates/said-forge/src/fitter.rs:1670-1853 | between several rows that pass the gates, one that is as good as each other one in every respect and better in verbs of other methods, in a search token in its name, or in ending with the entity, is the answer |
| ProcPreferences.PathDecides | crates/said-forge/src/fitter.rs:1862-1905 | between rows that are alike in all this, the only one whose name goes on behind the entity as the path does is the answer |
| ProcPreferences.TablesDecide | crates/said-forge/src/fitter.rs:1905-1982 | between rows that are alike in this too, the only one whose schema and tables are on the path is the answer |
| ProcPreferences.SurvivesWhen | crates/said-forge/src/fitter.rs:1686-1796 | a row passes gates 1 and 3 if and only if an allowed verb occurs in its name and each path parameter in one of its parameters, marks and case apart |
| ProcPreferences.TokensAre | crates/said-forge/src/fitter.rs:1577-1585 | the words searched for are the entity and what is left of it, at least three characters, behind a leading verb |
| ProcPreferences.SingularsAre | crates/said-forge/src/fitter.rs:1591-1605 | the fallback of a word in -ies, -es and -s, and that others have none |
| ProcPreferences.NothingBehindEntity | crates/said-forge/src/fitter.rs:2141-2180 | a name with nothing behind the entity has no qualifier |
| ProcPreferences.WordBehindEntity | crates/said-forge/src/fitter.rs:2141-2180 | a word between the entity and a by clause is the qualifier |
| ProcPreferences.SchemaMatchesWhen | crates/said-forge/src/fitter.rs:2053-2112 | a schema matches its own name, its plural in -s, -es and -ies, its singular in -s, and a segment that begins it, in the plural too |
| ProcPreferences.SchemaMatchesOnly | crates/said-forge/src/fitter.rs:2053-2112 | a schema and a segment that match begin alike, but for the last three characters of one of them |
| ProcMatcherProofs.AmbiguousListsAll | crates/said-forge/src/fitter.rs:1984-1986 | an ambiguous answer among survivors lists all of them and none leads at any gate |
| ProcMatcherProofs.RetryAtMostOnce | crates/said-forge/src/fitter.rs:1748-1769 | at most one retry, only with singular forms added, and only when no row had an allowed verb |
| ProcMatcherProofs.VetoAgreesWithGate6 | crates/said-forge/src/fitter.rs:1931-2040 | the early veto and the bonus of gate 6, separate code, agree on every qualified name and every path with a literal segment |
| ProcMatcherProofs.Gate5IgnoresPath | crates/said-forge/src/fitter.rs:1877-1899 | when the entity is the last literal segment the path has no suffix and only the name decides |
| MissingOpsProofs.PassHasNoSuffix | crates/said-forge/src/fitter.rs:1016-1045 | in every query the pass makes the entity is the last literal segment, so gate 5 never sees a suffix |
| PathShapes.NormalisePathParamsToCamel | crates/said-forge/src/fitter.rs:2670-2709 | the loop gives the path that `CamelRewritesSegments` and `CamelKeepsShape` are about |
| PathShapes.CamelRewritesSegments | crates/said-forge/src/fitter.rs:2670-2709 | each parameter of the path loses its underscores, with the character behind one in upper case and all others as they were; all other segments stay |
| PathShapes.CamelKeepsShape | crates/said-forge/src/fitter.rs:2670-2709 | camel-casing parameters never changes a path's shape |
| PathShapes.ShapeIgnoresCase | crates/said-forge/src/fitter.rs:942-967 | a path and its lower-case form have the same shape |
| MissingOps.CollectKnown | crates/said-forge/src/fitter.rs:958-981 | the set collected beforehand is exactly the shapes and methods of the standard operations present |
| MissingOps.Fitter.AddOp | crates/said-forge/src/fitter.rs:2441-2577 | puts one operation at the row's path and method and keeps every other operation of the spec |
| MissingOps.Fitter.Judge | crates/said-forge/src/fitter.rs:983-1152 | the tests, in the order of the source, give the fate that `FateIsDecided` characterises |
| MissingOps.Fitter.MissingOpPass | crates/said-forge/src/fitter.rs:983-1153 | rows are decided in order against the operations known at the start; the first failing search ends the pass with its message |
| MissingOpsProofs.DecisionsAreSound | crates/said-forge/src/fitter.rs:983-1152 | every decision agrees with the known set, and a row outside the standard methods is emitted exactly when it has a resolution or an entity |
| PassReport.FateIsDecided | crates/said-forge/src/fitter.rs:983-1152 | when a row is covered, bound to a procedure, left to a person for one of the four reasons, or ends the pass: if and only if, from the row, the operator's resolutions, the matcher's answer and the smoke run |
| PassReport.SmokeDecides | crates/said-forge/src/fitter.rs:1086-1110 | gate 4: the matcher's single answer is bound if and only if its smoke run passes; otherwise the row is logged with what the run said and no operation is emitted |
| PassReport.ReportIsExact | crates/said-forge/src/fitter.rs:983-1153 | over a whole pass, exactly the rows that go to a procedure are reported as added, with it, and exactly those left to a person as logged, with the reason |
| PassReport.EmitsExactly | crates/said-forge/src/fitter.rs:1006-1150 | which operation is emitted for a row, and for which rows none |
| MissingOpsProofs.NoVerbNoMatch | crates/said-forge/src/fitter.rs:1683-1757 | for a method without allowed verbs no procedure is ever chosen |
| MissingOpsProofs.SpecAfterPass | crates/said-forge/src/fitter.rs:2566-2576 | every place of the spec holds the last operation a row put there, or else what it held before |
| MissingOpsProofs.StandardOpsSurvive | crates/said-forge/src/fitter.rs:954-996 | no operation under a standard method that was there before is removed or overwritten |
| MissingOpsProofs.ReplacedExactly | crates/said-forge/src/fitter.rs:968-996 | an operation present before is replaced if and only if its key is no standard method and a row claims its place |
| MissingOpsProofs.OtherMethodIsLost | crates/said-forge/src/fitter.rs:974-996 | a resolved row of another method overwrites whatever operation is at its path and method |
| MissingOpsProofs.ConnectIsLost | crates/said-forge/src/fitter.rs:974-975 | so an operation under `connect` is lost to a row with the verb CONNECT |
| MissingOpsProofs.OpsAfterPass | crates/said-forge/src/fitter.rs:983-1153 | afterwards an operation of a shape and method is there if and only if one was there before or one was emitted for a row |
| MissingOpsProofs.RowsAreServed | crates/said-forge/src/fitter.rs:958-1153 | every row not turned away for want of an entity or by gate 4 has an operation of its shape and method |
| MissingOpsProofs.WithoutPathsNothingIsServed | crates/said-forge/src/fitter.rs:2448-2451 | a spec without paths keeps none |
| MissingOpsProofs.EveryRowIsCounted | crates/said-forge/src/fitter.rs:983-1153 | skipped, added and logged rows add up to the registry |
| MissingOpsProofs.EveryRowIsReported | crates/said-forge/src/fitter.rs:1006-1150 | each row leaves its own entry in one list, behind those of earlier rows |
| MissingOpsProofs.ParamsAreDeclared | crates/said-forge/src/fitter.rs:2530-2564 | an added operation declares one parameter for every placeholder of its path |
| Intervals.MergeIntervals | hard-eval/results/h2_intervals.verified.js:1-10 | the loop over arrays computes the merge on values, in fresh arrays, without writing to the input |
| Intervals.AbsorbArray | hard-eval/results/h2_intervals.verified.js:4-8 | one round widens the last interval in place or adds a copy |
| Intervals.MergeCoversTheSame | hard-eval/results/h2_intervals.verified.js:1-10 | on any input the result covers exactly the same points |
| Intervals.MergeSeparates | hard-eval/results/h2_intervals.verified.js:6-7 | on well-formed intervals starts increase strictly with a strict gap between neighbours |
| Intervals.SeparatedIsUnique | hard-eval/results/h2_intervals.verified.js:1-10 | there is only one such list for a set of points |
| Intervals.MergeIsCanonical | hard-eval/results/h2_intervals.verified.js:1-10 | two inputs merge to the same list if and only if they cover the same points; merging is idempotent and keeps exactly the separated lists |
| TtlStore.Store.Live | hard-eval/results/h3_store.verified.js:5-10 | looking at a key drops it if its time is up |
| TtlStore.Store.Set | hard-eval/results/h3_store.verified.js:11-11 | writes value and expiry |
| TtlStore.Store.Get | hard-eval/results/h3_store.verified.js:12-12 | answers the value if the key is live |
| TtlStore.Store.Size | hard-eval/results/h3_store.verified.js:15-15 | with a clock reading per key, counts no key that was out of sight at the earliest reading and every key in sight at the latest one; with one reading, exactly the live keys, purging the others |
| TtlStore.LazyIsEager | hard-eval/results/h3_store.verified.js:5-15 | with a clock that never runs back, all answers of every run are those of a store that never purges and shows an entry if and only if its time is not up |
| TtlStore.AnswersAreLastSets | hard-eval/results/h3_store.verified.js:5-15 | in every run with a clock that never runs back, `get` answers the value a key was last set to, unless deleted since, until its time to live is over, forever without one; `has` and `size` agree |
| TtlStore.ReadsChangeNothing | hard-eval/results/h3_store.verified.js:12-15 | an extra read anywhere in a run changes no other answer |
| TtlStore.ClockMustNotRunBack | hard-eval/results/h3_store.verified.js:8-8 | for any clock readings, all runs that see them answer like the store that never purges if and only if the readings from the second on never fall |
| RateLimiter.Limiter.RefillTo | hard-eval/results/h4_ratelimiter.verified.js:5-11 | tokens grow by elapsed seconds times rate up to the capacity; a time that is not later changes nothing |
| RateLimiter.Limiter.TryRemove | hard-eval/results/h4_ratelimiter.verified.js:12-12 | grants and takes, or refuses and takes nothing |
| RateLimiter.RunValid | hard-eval/results/h4_ratelimiter.verified.js:5-13 | over any run tokens stay between 0 and the capacity |
| RateLimiter.GrantedWithinCredit | hard-eval/results/h4_ratelimiter.verified.js:5-13 | tokens left plus tokens taken never exceed what was there plus what time brought |
| RateLimiter.RateBound | hard-eval/results/h4_ratelimiter.verified.js:5-13 | over any stretch of calls of any run the total granted is at most cap + rate * elapsed / 1000, in whatever order the times come |
| RateLimiter.GrantedExactly | hard-eval/results/h4_ratelimiter.verified.js:5-12 | with times that do not run back, a request is granted if and only if, from every earlier call and itself on, what was granted and it stay within cap + rate * elapsed / 1000, and from the start within what was there |
| RateLimiter.PollTellsExactly | hard-eval/results/h4_ratelimiter.verified.js:13-13 | and a poll answers the largest amount for which that holds |
| RateLimiter.PollChangesNothing | hard-eval/results/h4_ratelimiter.verified.js:13-13 | a poll put in anywhere, no later than the next call, changes no other answer |
| ForgeTags.TagSplits | crates/said-forge/src/tag.rs:70-86 | a tag of colon-free components splits into just these |
| ForgeTags.ParseTag | crates/said-forge/src/tag.rs:92-112 | the loop over the remaining components gives the result that `TagRoundTrip` is about |
| ForgeTags.TagRoundTrip | crates/said-forge/src/tag.rs:70-112 | printing and parsing a tag gives its components back if and only if its part does not itself read as a run number |
| Slugs.SanitizeSlug | crates/said-forge/src/tag.rs:33-61 | the loops give the slug that `SlugIsWords` characterises |
| Slugs.SlugIsKebab | crates/said-forge/src/tag.rs:25-32 | every slug is kebab case of 1 to 64 characters without a dash at either end, so it has no colon |
| Slugs.SlugIsWords | crates/said-forge/src/tag.rs:33-61 | a slug is the runs of letters and digits of the text in lower case, joined by dashes, cut to 64 characters without a dash at the cut; `unnamed` if there is none |
| Slugs.SlugsAreFixed | crates/said-forge/src/tag.rs:25-32 | the texts left as they are are exactly the slugs |
| RunLedger.MemBrain.LatestRunN | crates/said-forge/src/frame.rs:185-201 | the nested loops answer the number that `LatestBounds` and `LatestAttained` characterise: the highest run number of the story's live ledger tags |
| RunLedger.MemBrain.TombstoneStory | crates/said-forge/src/frame.rs:221-252 | marks exactly the targeted frames deleted and answers their number |
| RunLedger.MemBrain.WriteRunLedger | crates/said-forge/src/frame.rs:102-160 | writes the four ledger tags in order, or as many as there are before the failing one |
| RunLedger.MemBrain.RunOne | crates/said-forge/src/runner.rs:127-216 | a run that fails at any step has written exactly the tags of the steps before it, in order |
| LedgerProofs.CountsForItsStory | crates/said-forge/src/frame.rs:186-198 | a ledger tag counts for its own story, with its own number, and for no other |
| LedgerProofs.RequestsDoNotCount | crates/said-forge/src/frame.rs:83-98 | request frames never raise the run number |
| LedgerProofs.LatestBounds | crates/said-forge/src/frame.rs:188-199 | the answer is at least every live tag's number |
| LedgerProofs.LatestAttained | crates/said-forge/src/frame.rs:188-199 | a positive answer is some live tag's number |
| LedgerProofs.NextRunIsFresh | crates/said-forge/src/runner.rs:147-147 | the ledger tags of the next run are not there yet |
| LedgerProofs.RunWritesItsEntries | crates/said-forge/src/frame.rs:102-160 | the ledger tags among those a run writes are its four parts up to the failing one, once each and in order |
| LedgerProofs.RunsAppendFrames | crates/said-forge/src/runner.rs:127-216 | over any sequence of runs the brain gets one live frame for each tag written, behind those it had |
| LedgerProofs.WrittenIsLogged | crates/said-forge/src/runner.rs:147-169 | the ledger tags written over any sequence of runs are the logged entries, no more and no fewer, in order |
| RunOutcomes.RunWritesInOrder | crates/said-forge/src/runner.rs:147-216 | a run that fails at any step has written, in order, the request, the four ledger parts and the four artifacts as far as they come before that step; each tag reads back as its kind, story, run and part |
| RunOutcomes.RunsCountUp | crates/said-forge/src/runner.rs:147-169 | a run that gets to the ledger takes the next number of its story, one that fails before leaves it; other stories keep theirs |
| LedgerProofs.LedgerFramesRise | crates/said-forge/src/runner.rs:147-169 | over any sequence of runs, failing anywhere, the ledger frames of a story are added with rising run numbers, and rising parts within a run |
| LedgerProofs.LedgerTagInjective | crates/said-forge/src/frame.rs:111-139 | different hash, slug, run or part give different ledger tags |
| LedgerProofs.NoTagTwice | crates/said-forge/src/runner.rs:147-169 | over any sequence of runs from any brain no two added frames share a ledger tag, and none carries one that was live before |
| LedgerProofs.OneFrameEachAlways | crates/said-forge/src/frame.rs:221-252 | whatever runs, failures and removals happen, no ledger tag is ever on two live frames |
| LedgerProofs.PrefixTestIsExact | crates/said-forge/src/frame.rs:226-243 | the prefix test hits exactly the tags whose components name the story |
| LedgerProofs.TombstoneIsExact | crates/said-forge/src/frame.rs:221-252 | a frame is deleted afterwards exactly if it was before or belongs to the story |
| LedgerProofs.OtherStoriesStay | crates/said-forge/src/frame.rs:235-250 | tags of other stories stay live |
| LedgerProofs.TombstoneResetsRuns | crates/said-forge/src/frame.rs:221-252 | after a tombstone the story's latest run number is 0 |
| RunOutcomes.RemovalErasesRuns | crates/said-forge/src/frame.rs:221-252 | after a story is removed no tag that any of its runs writes is live |
| LedgerProofs.HitsExactly | crates/said-forge/src/frame.rs:235-243 | removing a story hits a tag of another one, of any kind, run and part, if and only if the hash is the same and the slug is the same or goes on behind it with a colon |
| LedgerProofs.SlugsAreSafe | crates/said-forge/src/frame.rs:221-252 | between sanitised slugs removal hits exactly the story's own tags, of any kind, run and part |
| CircuitBreaker.CircuitBreaker.Record | crates/said-forge/src/runner.rs:65-77 | over any history, true exactly when the last threshold outcomes all failed in one class |
| CircuitBreaker.CircuitBreaker.LastClass | crates/said-forge/src/runner.rs:79-81 | the class of the last outcome if that was a failure, and nothing otherwise |
| CircuitBreaker.ClassesAreDistinct | crates/said-forge/src/runner.rs:36-47 | different outcomes have different class names |
| CircuitBreaker.WindowDecides | crates/said-forge/src/runner.rs:71-76 | the few remembered names decide the same as the whole history |
| TokenCap.ApplyTokenCap | crates/said-forge/src/mcp_api.rs:92-121 | the loops give the text that `CapIsPieces` characterises |
| TokenCap.SectionsSplitAtHeadings | crates/said-forge/src/mcp_api.rs:97-104 | the sections concatenate to the input, all but the first begin with a heading, none holds another |
| TokenCap.CapIsPieces | crates/said-forge/src/mcp_api.rs:105-119 | a text over the cap comes out as its sections in their order, each whole if it fits an equal share of the cap, or cut at the last boundary within it, at most 3 bytes below, with the marker |
| TokenCap.BoundaryIsNear | crates/said-forge/src/mcp_api.rs:111-115 | in valid UTF-8 (sections 3 and 4 of RFC 3629) the cut is at most 3 bytes below the budget |
| TokenCap.EmitIsPrefix | crates/said-forge/src/mcp_api.rs:107-118 | a section comes out whole or as a valid prefix near the budget, then the marker |
| TokenCap.CapKeepsUtf8 | crates/said-forge/src/mcp_api.rs:92-121 | valid UTF-8 in, valid UTF-8 out |
| TokenCap.CapBounds | crates/said-forge/src/mcp_api.rs:92-121 | the identity up to 4*cap bytes; otherwise at most 4*cap bytes plus one marker per cut section |
| TokenCap.MarkerExceedsCap | crates/said-forge/src/mcp_api.rs:89-118 | the output of a text over the cap is longer than the cap if and only if the markers take more bytes than the sections and the division leave unused |
| TokenCap.AllCutExceedsCap | crates/said-forge/src/mcp_api.rs:89-118 | it is longer whenever every section is over its budget, as a single section over the cap is |
| SqlComments.StripComments | crates/said-forge/src/schema.rs:416-441 | the loop gives the text that `StrippersDelete` characterises |
| SqlComments.StripSqlComments | crates/said-forge/src/proc_analysis.rs:834-862 | the loop, written differently, gives the text that `StrippersDelete` characterises |
| SqlComments.EveryTextReads | crates/said-forge/src/schema.rs:413-441 | every text is a row of code characters, line comments and block comments, read from the left, up to an open block comment |
| SqlComments.StrippersDelete | crates/said-forge/src/schema.rs:416-441 | both strippers delete exactly the comment spans; behind an open block comment the schema parser's gives back the last character |
| SqlComments.StrippersAgree | crates/said-forge/src/proc_analysis.rs:834-862 | the two give the same text if and only if no block comment is left open with text behind its start |

## Left out

- Case mapping, white space and digits are those of ASCII; texts are sequences of characters, so byte offsets into
  texts with other characters, and Unicode case mappings that change a text's length, are not part of this model.
- Times, token amounts and interval ends are real numbers; floating-point rounding is not modelled.
- Nesting depth, scores and counters are unbounded integers; their 32-bit limits are not reached on texts and lists of
  practical size. Run numbers are bounded: a run number that no longer fits 32 bits is its own outcome.
- `Array.prototype.sort` is modelled as stable insertion by start, `sort_by_key` as stable insertion by falling score.
- Keys and values of the cache are integers.
- McpClient.Client.OnData: decoding of bytes cut inside a character, `JSON.parse` (a given function from frames to
  reply ids), promise timing, timers and the messages sent are not modelled.
- TtlStore.LazyIsEager, like the other lemmas about whole runs, gives each call one clock reading; what `size` answers
  when the time moves on between two keys is part of `TtlStore.Store.Size` alone.
- TtlStore.Store.Del: the return value is that of the map, which may hold an expired key; only its effect on later
  reads is compared with the reference.
- ProcMatcher.FindProcByEntity: the database is a function from search tokens to rows and from procedures to
  parameters; the SQL text and the order in which tokens are listed in it are not modelled.
- MissingOps.Fitter.MissingOpPass: pluralisation, the matcher's database, the smoke run and the catalog are given
  functions; keys of the YAML mapping that are not strings, the order of its entries, the wording of log messages and
  the separate log of standard-driven path rewrites are not modelled.
- RunLedger.MemBrain.RunOne: titles, bodies, pillars and times of frames, retrieval, generation and file writing are
  reduced to the step at which a run fails.
- Reading frame bodies back (`find_body_by_tag`) and choosing the newest directive hash (`latest_directive_hash`).
- PrintedStatement.PrintedParsesBack: is not about statements with a comment that begins and ends inside them; what is
  left of such a text may be another statement, and then `TableRoundTrip.ParsesBackExactly` tells how that is read.
- TablePrinter.Print: prints bracketed ASCII word names, single-column foreign keys, and defaults, computed columns
  and checks in parentheses; other accepted spellings (names without brackets, defaults without parentheses) are
  parsed by the model but not covered by the round trip.
- `coverage.rs`, `comparison.rs`, `gap_*.rs`, `config.rs`, `openapi_standard.rs`, `plan_*.rs`, `init.rs`: output text,
  configuration and short tables, which would only add easy members.
- `classify_error`, `preflight_estimate`, surplus operations and parameter rewrites of the fitter: short branches.
- All other scripts under `hard-eval`: drivers for external programs.
