# spoofdb, modelled and verified

spoofdb answers Postgres, MySQL and ClickHouse clients from one in-process DuckDB engine. This project
models the parts of it that carry state, rewrite SQL bytes, narrow values or fold sources together, and
proves what they keep over whole runs and over all inputs. `dafny verify dfyconfig.toml` checks it.

| module | models |
|---|---|
| `PgSession`, `PgRuns`, `PgReplies`, `PgHistory`, `PgDescribe`, `PgMemo`, `PgMemoExact` | the Postgres session: a class with the session's fields, proved step by step against a function of the state; facts about every run; every reply, message by message; Describe/Execute pairs; the result memo against a session without one, and exactly when it shows |
| `ScanParams`, `Placeholders`, `SqlLexer` | `$N` scanning and substitution as a byte loop, its specification, and an independent lexer |
| `MySqlRewrite`, `MySqlLexical`, `MySqlSession`, `MySqlReplies` | `?` inlining and the backtick rewrite as byte loops; the MySQL connection and its warnings |
| `PgWire`, `Results`, `Decimal` | binary and text encoding of integers, and Go's conversions between integers and text |
| `Fidelity`, `Reporting` | the counted, deduplicated report, and the loop every protocol's report runs |
| `ClickHouse`, `ClickHouseReport`, `ClickHouseSession` | column builders, transposition, blocks; which losses the report flags; one query from the driver's answer to the packets |
| `EngineLoad`, `EngineOffers`, `EngineClaims`, `EngineQuery`, `SourceTypes` | the three registrars over one catalogue, first claim wins, result buffering, error classes, ClickHouse type names |
| `EngineCache` | one engine per list of sources |
| `Basics`, `SqlText`, `Words` | strings, order, sorting; what is read off a statement's text |

## How the pieces are stated

* A Go string is a `seq<char>`, one `char` per byte.
* The engine is a total function `eval(db, text)` giving an outcome and the next database; an outcome is
  a result, an error, or a result together with an error (`internal/engine/duckdb.go:359`). `runs` and
  `txlog` are ghost logs of engine runs and of tracked statements.
* Every method of `PgSession.Session` ends in the state a function of its old state gives, message
  output included, so the theorems about `Step` and `Serve` are theorems about the class. The flag
  `memo` of `Step` switches the result memo off and nothing else.
* Conversions of floats and times are fields of `Codec`, arbitrary functions.

## Where the code and its words part

* `internal/pg/fidelity.go:28` and its note say a value beyond int64 is sent as 0. It never is: it wraps or
  saturates (`PgWire.LossyIsNeverZero`).
* `internal/pg/handler.go:230-232` promises one DuckDB run per Describe/Execute pair. With a value bound
  to a placeholder of a row-returning text there are two (`PgDescribe.PairRunsOnceIff`, both directions;
  `SELECT $1` is `PgDescribe.BoundSelectRunsTwice`). The rows then come from another run than the
  description, and need not have its types (`PgDescribe.AnnouncedTypeCanDiffer`).
* The memo is visible when a text outside the row-returning list is executed twice in a row before Sync,
  or is sent as a simple query between a Describe and its Execute (`PgMemoExact.MemoInvisibleIffSafe`).
* Two inlined literals that touch (`$1$2`) read back as one value (`SqlLexer.AdjacentPlaceholdersMerge`).
* `internal/mysql/handler.go:221-222` says placeholders inside string literals are not special-cased; the
  code leaves them alone. `HandleStmtPrepare` still counts them (`MySqlRewrite.ReportedCountSuffices`).
* `internal/mysql/handler.go:118` says a new statement resets the warnings; one the engine refuses does not
  (`MySqlSession.WarningsAreTheLastResults`).
* A ClickHouse timestamp loses its fraction without a note (`ClickHouseReport.FractionsAreLostSilently`).
* `internal/engine/duckdb.go:24-29` says stub mode never swallows the application's errors. The class of an
  error is read off its whole message, and messages quote the query: a syntax error in a query that
  holds a phrase of the classifier is served empty (`EngineQuery.MaskedSyntaxError`), exactly when the
  quoted text alone would be (`EngineQuery.StubMasksIff`).
* `cmd/spoofdb/main.go:66` says one engine per distinct set of sources; a repeated name makes another
  (`EngineCache.RepetitionsMatter`).
* Where a catalogue does not compare exact bytes, two loaded names that fold together both stay listed
  over one view (`EngineClaims.ContentsAreFirstClaimsIff`).

## Model

| member | source | states |
|---|---|---|
| PgMemo.MemoInvisible | internal/pg/handler.go:54-61 | for every engine, failing or not, and every safe run in which the row-returning texts the engine ran left the database alone, the session with the memo and the one that always runs the engine have sent the same messages and left the same database after every message |
| PgMemoExact.MemoInvisibleIffSafeRun | internal/pg/handler.go:54-61 | exactness under any pattern of failures: a run pure in that sense is safe exactly if the memo is invisible under every engine that fails where the given one fails and is as pure on the run |
| PgMemoExact.MemoInvisibleIffSafe | internal/pg/handler.go:142-188 | on runs that do not fail, the memo is invisible to all engines pure on the run exactly on the message sequences a client can recognize as safe |
| PgMemo.StepSimulates | internal/pg/handler.go:233-294 | one message keeps the simulation, if the text the engine runs for it is pure there or not row-returning: same view, and a fresh memo of a row-returning text is what the engine would answer now |
| PgMemoExact.UnsafeRunShows | internal/pg/handler.go:54-61 | on every unsafe run of an engine that shows a counter, the first unsafe message changes the client's output or the database |
| PgMemoExact.SafeRunMirrored | internal/pg/handler.go:142-188 | whether a run is safe, and whether it fails, is the same for engines that fail alike |
| PgRuns.SkipsUntilSync | internal/pg/handler.go:146-172 | from an error on, any run of Parse, Bind, Describe and Execute emits nothing and changes no state |
| PgRuns.OneErrorPerSegment | internal/pg/handler.go:146-174 | between two Syncs extended messages send at most one error, and send it exactly when the session turns failed |
| PgRuns.ErrorNeverReplayed | internal/pg/handler.go:54-61 | in every reachable state a memo hit that is not skipped gives a full result, never a remembered error |
| PgRuns.OutputOf | internal/pg/handler.go:142-188 | each message appends exactly its own replies to what was sent before |
| PgRuns.QueryReplyGrammar | internal/pg/handler.go:191-218 | a Query is answered by Empty, or Error, or [RowDescription DataRow*] Notice* CommandComplete, then one ReadyForQuery with the new transaction byte |
| PgRuns.QueryReplyCounts | internal/pg/handler.go:191-228 | one DataRow per row of a result with columns, the count of the command tag, one Notice per distinct approximation |
| PgReplies.QueryReplies | internal/pg/handler.go:191-228 | message by message: EmptyQueryResponse for only semicolons and white space, one error, or the description, the rows as text, each notice of the report in its order, and the tag with the number of rows |
| PgReplies.ExecuteReplies | internal/pg/handler.go:277-294 | in every unfailed state a session reaches: one error, or the rows in the portal's formats, one notice per distinct approximation in the report's order, and the tag with the number of rows |
| PgReplies.DescribeReplies | internal/pg/handler.go:233-274 | the parameter count of a statement, then NoData, an error, or the description in the portal's formats |
| PgReplies.RowIsSent | internal/pg/handler.go:359-385 | every field of a row reads back as its value in the format the codes ask for: none, one for all, or one each |
| PgReplies.FieldsDescribe | internal/pg/handler.go:345-357 | the description gives the names, the OIDs and the same formats |
| PgReplies.LossIsTold | internal/pg/handler.go:191-294 | a cell whose binary field decodes to another integer yields a notice that names its column and counts such cells, on the simple and on the extended path |
| PgReplies.RunRemembers | internal/pg/handler.go:54-61 | a text not remembered runs and is remembered with its result and error; a remembered one runs nothing |
| PgHistory.NamesChange | internal/pg/handler.go:146-183 | Parse, Bind and Close change the one name they give, and nothing else changes a name |
| PgHistory.PortalKeeps | internal/pg/handler.go:146-183 | a portal keeps its text, parameters and formats until bound again or closed, whatever becomes of its statement |
| Words.KeywordTests | internal/pg/handler.go:268-339 | the keyword tests hold by the first word in any letter case, after white space and before the end, white space, a parenthesis or a semicolon |
| Words.TagSays | internal/pg/handler.go:458-473 | the command tag by the first word in any letter case |
| Words.BlankIff | internal/pg/handler.go:191-196 | a statement is blank exactly if it has only semicolons and white space |
| Words.TypeNameForms | internal/clickhouse/columns.go:76-82 | a type's letter case and its parameters do not matter |
| PgRuns.ReadyPerQueryOrSync | internal/pg/handler.go:296-299 | over every run ReadyForQuery is sent once per Query or Sync and by nothing else |
| PgRuns.TxByteIsHistory | internal/pg/handler.go:304-329 | in every reachable state the byte is I unless the last control statement opened a transaction, then E if a later statement failed, else T; a failed flag implies an open transaction |
| PgHistory.TxByteOfRun | internal/pg/handler.go:304-339 | the same from the messages alone, over every run: of the statements sent by Query and unskipped Execute, the last that begins with BEGIN, START, COMMIT, ROLLBACK or END in any letter case decides, and the failures after it |
| PgHistory.ServeLogs | internal/pg/handler.go:191-216 | the tracked statements are exactly those, each with whether it failed |
| PgRuns.DescribeNeverRunsEffects | internal/pg/handler.go:233-294 | over every run extended messages run a text outside the row-returning list at most once per Execute of it, and Describe runs only NULL probes of row-returning texts |
| PgDescribe.SegmentRunsOnce | internal/pg/handler.go:244-294 | Parse, Bind, Describe, Execute, Sync of such a text, from any unfailed state that does not remember the bound text, runs that text exactly once and has its effect once |
| PgDescribe.DescribeExecuteRuns | internal/pg/handler.go:233-294 | how many engine runs Describe and the Execute of one text make, from every unfailed state a session reaches: the probe unless it is remembered, and the bound text again exactly when the probe did not fail and some placeholder has a value |
| PgDescribe.PairRunsOnceIff | internal/pg/handler.go:230-232 | at the start of a segment they make one exactly when the text is not probed, or the engine refuses the probe, or no placeholder has a value; otherwise two |
| PgDescribe.BoundSelectRunsTwice | internal/pg/handler.go:230-232 | `SELECT $1` bound to one value is such a pair with two, on every engine that answers `SELECT NULL` |
| PgDescribe.DescribedRowsMatch | internal/pg/handler.go:233-294 | for a portal described and then executed, from every unfailed state a session reaches: without a bound value the DataRows are the described result's rows in the announced width, types and formats; with one they come from another run and match if it has as many columns of the same wire types, and do not if it has another number of columns |
| PgDescribe.SameShapeIsSameTypes | internal/pg/handler.go:345-385 | two results announce the same types and formats exactly if they have as many columns of the same OIDs |
| PgDescribe.AnnouncedTypeCanDiffer | internal/pg/handler.go:233-263 | an engine and a bound `SELECT $1` described as a binary integer and sent as a text of three bytes |
| PgSession.Session.constructor | internal/pg/handler.go:63-103 | a new session is the initial state |
| PgSession.Session.Run | internal/pg/handler.go:54-61 | the memoized run, its result and the memo it leaves |
| PgSession.Session.Query | internal/pg/handler.go:191-218 | the whole new state after a simple query |
| PgSession.Session.EmitFidelity | internal/pg/handler.go:220-228 | one notice per line of the report, in its order |
| PgSession.Session.DescribeMessage | internal/pg/handler.go:233-263 | the whole new state after Describe |
| PgSession.Session.ExecuteMessage | internal/pg/handler.go:277-294 | the whole new state after Execute |
| PgSession.Session.Track | internal/pg/handler.go:318-329 | the flags and the log after one tracked statement |
| PgSession.Session.Handle | internal/pg/handler.go:142-188 | the whole new state after any message, and when to quit |
| PgSession.Session.HandleConn | internal/pg/handler.go:85-103 | the loop's state is the fold of the messages up to the first Terminate |
| ScanParams.ScanParams | internal/pg/handler.go:391-435 | without a replacement the text comes back unchanged; with one, exactly the placeholders outside literals are replaced; and the largest index is reported |
| ScanParams.MaxParamIndex | internal/pg/handler.go:438-441 | the largest placeholder index outside literals |
| ScanParams.SubstituteParams | internal/pg/handler.go:447-455 | every placeholder replaced by its value's literal, or NULL where none is bound |
| Placeholders.PlaceholderMeans | internal/pg/handler.go:415-455 | `$N` outside literals, for every N, raises the announced count to N and is replaced by value N or NULL; a number beyond int64 means the largest int64 |
| Placeholders.DollarAlone | internal/pg/handler.go:415-431 | a dollar sign not before a digit 1-9 is an ordinary byte |
| Placeholders.OtherByte | internal/pg/handler.go:428-431 | so is every byte that is neither a dollar sign nor a quote |
| Placeholders.QuotedIsCopied | internal/pg/handler.go:398-414 | what stands between single or double quotes, or after one never closed, is copied and announces nothing |
| ScanParams.SubstituteLeavesNoPlaceholder | internal/pg/handler.go:391-455 | for every text and parameter list no placeholder is left |
| ScanParams.SubstituteIdempotent | internal/pg/handler.go:391-455 | a second substitution with any parameters changes nothing |
| ScanParams.SubstituteIdentity | internal/pg/handler.go:447-455 | a text without placeholders is sent as it is |
| ScanParams.AnnouncedCountIsEnough | internal/pg/handler.go:236-240 | only the first announced parameters matter |
| ScanParams.AnnouncedCountIsTight | internal/pg/handler.go:236-240 | the last announced one does: two different values in it give different SQL |
| ScanParams.ParamIndexPositive | internal/pg/handler.go:415-425 | every index reached is at least 1 |
| SqlLexer.AnnouncedCountIsLargest | internal/pg/handler.go:438-441 | the announced count is the largest index among the lexer's placeholders |
| SqlLexer.AnnouncedCountBinds | internal/pg/handler.go:438-455 | non-NULL parameters bind every placeholder exactly if there are at least as many as announced |
| ScanParams.SameTextAsProbe | internal/pg/handler.go:244-263 | the executed text equals the described one exactly when no placeholder has a value |
| SqlLexer.LexBijection | internal/pg/handler.go:391-435 | texts and well-formed lexeme lists are in bijection |
| SqlLexer.ToggleReadsQuoted | internal/pg/handler.go:398-412 | the doubled-quote lookahead and a plain toggle classify the bytes of a quoted run alike |
| SqlLexer.RewriteIsLexical | internal/pg/handler.go:391-435 | the scanner replaces exactly the lexer's placeholders and copies every other lexeme |
| SqlLexer.SubstitutionIsLexical | internal/pg/handler.go:443-455 | reading the output back gives the source's lexemes with each placeholder turned into one literal of its value (or NULL), exactly when no such literal lands beside a single quote |
| SqlLexer.AdjacentPlaceholdersMerge | internal/pg/handler.go:443-455 | for every two values `$1$2` sends one literal, the two values joined by a quote |
| MySqlRewrite.SubstituteArgs | internal/mysql/handler.go:223-249 | each question mark outside literals gets the next argument's literal, while arguments last |
| MySqlLexical.LiteralIsCopied | internal/mysql/handler.go:223-249 | literals in any of the three quotes are copied, escaped quotes and question marks included, closed or not |
| MySqlLexical.MarkTakesArgument | internal/mysql/handler.go:223-249 | outside literals a question mark takes the next argument while there is one, and other bytes are copied |
| MySqlLexical.ArgumentReadsBack | internal/mysql/handler.go:254-286 | an argument's text reads back as the argument |
| MySqlRewrite.BackticksToQuotes | internal/mysql/handler.go:62-82 | exactly the backticks outside single quotes become double quotes |
| MySqlRewrite.RequoteStable | internal/mysql/handler.go:59-82 | the rewrite keeps the length and every other byte and is idempotent, on all inputs |
| MySqlLexical.RequoteByPosition | internal/mysql/handler.go:62-82 | a byte changes exactly when it is a backtick after an even number of single quotes, and then to a double quote |
| MySqlRewrite.ArgSurvivesRequote | internal/mysql/handler.go:254-286 | an inlined argument, whatever its bytes, comes through the backtick rewrite untouched and leaves it outside a string |
| MySqlRewrite.InliningCommutes | internal/mysql/handler.go:53-95 | inlining commutes with the backtick rewrite for all arguments exactly for the queries whose question marks both scanners read alike |
| MySqlRewrite.PlainQueriesCommute | internal/mysql/handler.go:53-95 | it does for every query without a backslash in a literal and without other quote bytes in a quoted identifier |
| MySqlRewrite.StatementText | internal/mysql/handler.go:53-95 | the text a prepared execution runs |
| MySqlLexical.StatementIsLexical | internal/mysql/handler.go:53-95 | for an ordinarily quoted query that text reads back as the query's lexemes with each question mark outside literals turned into its argument's lexemes, one literal of its own bytes for a string, exactly when these stand well together; they do if no question mark is beside another, a single-quoted run, a digit or a dollar sign |
| MySqlLexical.InlineIsLexical | internal/mysql/handler.go:223-249 | on such a text the argument scanner replaces exactly the lexer's question marks |
| MySqlRewrite.ReportedCountSuffices | internal/mysql/handler.go:49-51 | the count a prepare reports never falls short, and is exact unless a question mark is inside a literal; surplus arguments are ignored |
| MySqlSession.CoerceKeepsIntegers | internal/mysql/handler.go:186-200 | NULL stays NULL and no integer is lost, however wide |
| MySqlSession.Handler.Execute | internal/mysql/handler.go:90-152 | the reply and the whole new state, session no-ops and warnings included |
| MySqlReplies.RefusedReply | internal/mysql/handler.go:108-117 | a statement the engine refuses is answered with zero rows affected exactly if its trimmed text is one of six keywords in any letter case, alone or before a blank, tab or line break; otherwise with the engine's error |
| MySqlReplies.AcceptedReply | internal/mysql/handler.go:118-152 | an accepted one: the row count without columns; else names and values as go-mysql takes them, binary exactly for a prepared execution, with the number of approximations modulo 65536; or the library's error |
| MySqlReplies.BlankReply | internal/mysql/handler.go:95-99 | a blank text is answered with zero rows affected and reaches nothing |
| MySqlReplies.ShowReply | internal/mysql/handler.go:102-106 | SHOW WARNINGS is answered with one row of level, code and message per kept line |
| MySqlReplies.ShowIsTold | internal/mysql/handler.go:156-160 | which texts SHOW WARNINGS is, by their words |
| MySqlReplies.FirstOfWords | internal/mysql/handler.go:156-160 | the words of a text are its longest runs without white space |
| MySqlReplies.NotedTypes | internal/mysql/fidelity.go:14-32 | exactly booleans, decimals and 128-bit integers are noted |
| MySqlSession.Handler.Show | internal/mysql/handler.go:164-175 | one Level/Code/Message row per kept warning |
| MySqlSession.Handler.Handle | internal/mysql/handler.go:39-55 | a text query or a prepared execution as one step |
| MySqlSession.WarningsAreTheLastResults | internal/mysql/handler.go:97-152 | over every run the kept warnings are those of the last statement the engine did not refuse |
| MySqlSession.ShowWarningsShowsLast | internal/mysql/handler.go:102-106 | after every run SHOW WARNINGS lists the lines of the last statement the engine did not refuse and changes nothing |
| PgWire.PutIntExact | internal/pg/handler.go:522-561 | big-endian two's complement decodes to the integer exactly when it fits the width |
| PgWire.BinaryIntegerExact | internal/pg/handler.go:478-561 | for every integer type, in-range value and representation the binary field decodes to the value exactly when it does not exceed int64 |
| PgWire.LossyIsNeverZero | internal/pg/handler.go:584-609 | a value beyond int64 is sent as some other nonzero number |
| PgWire.TextIntegerExact | internal/pg/handler.go:564-582 | in text format every integer is exact |
| PgWire.FieldReads | internal/pg/handler.go:512-582 | NULL is no field, a boolean a byte 1 or 0 or a letter, text itself, an integer its two's complement in the width of the announced OID or its decimal text |
| PgWire.MostSignificantFirst | internal/pg/handler.go:522-561 | the bytes stand most significant first |
| PgWire.NotedTypes | internal/pg/fidelity.go:13-38 | exactly the types told to the client as another are noted, by what they are told as |
| PgWire.ReportCountsBinaryLosses | internal/pg/fidelity.go:13-38 | a column name has the int64 note exactly when some cell under it decodes to another value, with the number of such cells as its count |
| PgWire.PgReport | internal/pg/fidelity.go:13-38 | the report is the notes of its Adds in loop order |
| Results.ToIntOfInteger | internal/fidelity/fidelity.go:18-31 | toInt wraps a uint64, saturates other integers, and ExceedsInt64 holds exactly outside int64 |
| Results.ToBoolTold | internal/pg/handler.go:627-636 | what counts as true |
| Decimal.FormatIsDecimal | internal/pg/handler.go:564-582 | integers print in decimal notation |
| Decimal.ParseForms | internal/fidelity/fidelity.go:18-31 | a sign or none and digits are read, anything else is no number |
| Fidelity.Report.Add | internal/fidelity/fidelity.go:51-62 | one more Add, in place |
| Fidelity.Report.Sorted | internal/fidelity/fidelity.go:67-80 | the notes once each in pair order, whatever order the map yields |
| Fidelity.Report.Warnings | internal/fidelity/fidelity.go:83-97 | the lines of the sorted notes |
| Fidelity.KeyInjective | internal/fidelity/fidelity.go:51-53 | the joined key is injective while reasons hold no NUL |
| Fidelity.KeyCollision | internal/fidelity/fidelity.go:51-53 | and is not otherwise |
| Fidelity.CountIsMultiplicity | internal/fidelity/fidelity.go:51-62 | a pair is noted exactly if it was added, with its number of Adds |
| Fidelity.PermutationInvariant | internal/fidelity/fidelity.go:51-97 | every permutation of the Adds gives the same report |
| Fidelity.ReportIsFaithful | internal/fidelity/fidelity.go:51-97 | ordered, one line per distinct pair, counts adding up to the number of Adds |
| Fidelity.LinesInByteOrder | internal/fidelity/fidelity.go:67-80 | the lines stand in the byte order of column names, then of reasons |
| Fidelity.QuotedNameReadsBack | internal/fidelity/fidelity.go:83-97 | a quoted column name reads back as the name |
| Reporting.BuildReport | internal/clickhouse/fidelity.go:15-53 | the nested loops add the type note and then one note per row, column by column |
| Reporting.ReportCounts | internal/clickhouse/fidelity.go:15-53 | a reason's count is the number of same-named columns and cells its rules give it to |
| ClickHouse.AddRow | internal/clickhouse/columns.go:62-68 | each value of a row goes to its own column's builder and nowhere else |
| ClickHouse.BuildInput | internal/clickhouse/columns.go:56-73 | one column per result column holding its conversions |
| ClickHouse.ColumnIsTransposed | internal/clickhouse/columns.go:56-73 | on a rectangular result a column has one cell per row, entry j from row j |
| ClickHouse.CellReads | internal/clickhouse/columns.go:24-165 | what every cell holds: booleans 1 or 0, floats, texts and DateTime seconds themselves, integers themselves or wrapped by exactly what their column lacks, NULL zero or no text |
| ClickHouse.LogBlock | internal/clickhouse/handler.go:210-234 | eight columns with one entry per warning |
| ClickHouse.SendResult | internal/clickhouse/handler.go:180-207 | every block is encodable; the data block's cell (i, j) holds row j's value i; a log packet exactly when there are notes and the client asked |
| ClickHouseSession.HandleQuery | internal/clickhouse/handler.go:112-131 | whatever the driver answers, an error becomes an exception even when rows came with it; otherwise every block is encodable and holds the result's conversions, and a client that takes server logs is warned of every result that loses a covered cell |
| ClickHouseReport.ReportFlagsEveryLoss | internal/clickhouse/fidelity.go:15-63 | any covered cell that is not read back as its value has a note under its column name |
| ClickHouseReport.ReportCountsValueLosses | internal/clickhouse/fidelity.go:15-63 | the value notes count exactly the NULLs, the wide integers and the timestamps that are not read back |
| ClickHouseReport.IntegerCell | internal/clickhouse/columns.go:24-52 | which integers a cell holds: wide ones inside int64, UINTEGER inside int32, the rest always |
| ClickHouseReport.PlainCellsAreExact | internal/clickhouse/columns.go:33-52 | booleans, floats, texts and whole seconds in range are read back as they are |
| ClickHouseReport.NotedTypes | internal/clickhouse/fidelity.go:15-35 | exactly the types sent as another are noted, by what they are sent as |
| ClickHouseReport.FractionsAreLostSilently | internal/clickhouse/fidelity.go:56-63 | a fraction of a second is lost and earns no note |
| EngineLoad.Engine.Register | internal/engine/duckdb.go:159-171 | one claim: the name skipped, refused, or created and recorded |
| EngineLoad.Engine.LoadDir | internal/engine/duckdb.go:128-153 | the directory's table files claimed in listing order |
| EngineLoad.Engine.AttachedTables | internal/engine/duckdb.go:220-244 | the listing filtered by the allowlist without regard to case |
| EngineLoad.Engine.AttachSnapshot | internal/engine/duckdb.go:182-213 | the attached tables claimed in order, and the source detached on every path |
| EngineLoad.Engine.ClickhousePull | internal/engine/source_clickhouse.go:17-47 | the allowlist or the remote listing claimed in order |
| EngineLoad.Engine.LoadSource | internal/engine/duckdb.go:108-125 | the dispatch on the source's type |
| EngineLoad.Engine.FromSources | internal/engine/duckdb.go:91-105 | all sources in turn up to the first error, then the table list sorted |
| EngineOffers.FileTableIs | internal/engine/duckdb.go:248-251 | a file's table is its name up to the last dot, in whatever directory |
| EngineOffers.ReaderIs | internal/engine/duckdb.go:136-147 | parquet and csv files are told by the end of their name in any letter case |
| EngineOffers.DirectoryOffers | internal/engine/duckdb.go:128-153 | a directory offers exactly its parquet and csv files, in listing order, each with its reader and under its own name |
| EngineOffers.AllowlistKeeps | internal/engine/duckdb.go:229-244 | the tables whose name, or schema and name, an entry is in any letter case, in listing order |
| EngineOffers.SourceOffers | internal/engine/duckdb.go:108-213 | each kind of source is refused with the first error it meets, or offers its files, or its tables in order under its own name |
| EngineOffers.LoadSucceedsIff | internal/engine/duckdb.go:91-171 | a load succeeds exactly if every source can be listed and DuckDB creates every first-offered table in turn |
| EngineLoad.LoadDetaches | internal/engine/duckdb.go:196-213 | a load leaves attached what was attached, however it ends |
| EngineClaims.FirstClaimWins | internal/engine/duckdb.go:91-216 | after a successful load of any source list the tables are sorted, duplicate-free and the keys of seen, the keys are the names offered, and each origin is that of the first offer in list then listing order |
| Basics.SortedIsByteOrder | internal/engine/duckdb.go:103 | a sorted list is in byte order |
| EngineClaims.ContentsAreFirstClaimsIff | internal/engine/duckdb.go:159-216 | every table has its first offer's contents exactly if names the catalogue folds together are first offered with one definition, which is exactly if it tells all loaded names apart; names no source offers keep what was stored |
| EngineClaims.WinnersAreFirst | internal/engine/source_clickhouse.go:35-45 | the claims that take effect are the first offers of names not taken |
| EngineQuery.Engine.RunOn | internal/engine/duckdb.go:293-360 | the buffered result is rectangular and is the cursor's rows, or the first failing Scan's error, or rows with the cursor's error |
| EngineQuery.RefusalTold | internal/engine/duckdb.go:293-326 | stub mode serves a refused text empty exactly if its error says, in any letter case, that a table, view or other named relation does not exist, or tells of a missing feature or setting; all other errors surface, and without stub mode all do |
| EngineQuery.MissingTableServed | internal/engine/duckdb.go:430-440 | DuckDB's catalog error for every relation name and surrounding text is served empty in stub mode and surfaces otherwise |
| EngineQuery.ColumnErrorSurfaces | internal/engine/duckdb.go:430-455 | an error about a column surfaces in both modes |
| EngineQuery.Engine.Refuse | internal/engine/duckdb.go:295-326 | a missing relation is logged in both modes, a gap in stub mode, anything else never |
| EngineQuery.Engine.LogOnce | internal/engine/duckdb.go:46-55 | a key is logged at most once, ever |
| EngineQuery.QuotedTextDecides | internal/engine/duckdb.go:430-455 | if what surrounds a quoted query holds none of the phrases, the class of the message is that of the quoted text, read knowing whether the rest mentions a column |
| EngineQuery.StubMasksIff | internal/engine/duckdb.go:295-326 | stub mode serves such a message empty exactly if it would serve the quoted text empty as a message of its own |
| EngineQuery.MaskedSyntaxError | internal/engine/duckdb.go:430-455 | a parser error that quotes `SELECT 'not implemented error' FRO t` is served empty |
| EngineQuery.QuotedPhraseMasks | internal/engine/duckdb.go:430-455 | whatever surrounds it, a message that quotes the phrase of a dialect gap is never taken for the application's error |
| SourceTypes.ChToDuckType | internal/engine/source_clickhouse.go:128-175 | the unwrapping loop and the name it maps |
| SourceTypes.WrappersTransparent | internal/engine/source_clickhouse.go:128-184 | any nesting of Nullable and LowCardinality maps to the type inside, taken as it stands |
| SourceTypes.IntegerTypesKeepRange | internal/engine/source_clickhouse.go:145-160 | the eight integer types map to DuckDB types of exactly their range |
| EngineCache.SelectSources | cmd/spoofdb/main.go:164-189 | the sorted sources asked for, all of them if none is named, or the first of the sorted names that is not configured |
| EngineCache.SameKeyIffSameSources | cmd/spoofdb/main.go:193-203 | with NUL-free names two requests share a key exactly if their sorted names agree |
| EngineCache.NoneMeansEmpty | cmd/spoofdb/main.go:193-203 | the key without sources arises only when none is configured |
| EngineCache.AskedForgetsOrder | cmd/spoofdb/main.go:164-175 | the order of a request does not matter, and naming every source is asking for all |
| EngineCache.NulNamesCollide | cmd/spoofdb/main.go:193-203 | with a NUL in a name two requests collide |
| EngineCache.RepetitionsMatter | cmd/spoofdb/main.go:193-203 | a repeated name has a key of its own |
| EngineCache.Cache.EngineFor | cmd/spoofdb/main.go:69-91 | a cached engine is given again, a new one is added under its key, a failure changes nothing |
| EngineCache.StartShards | cmd/spoofdb/main.go:127-146 | over any sequence of requests up to the first failure two get the same engine exactly if they mean the same sources, and each engine was built from those |

## Left out

- Unicode: `strings.ToUpper`, `ToLower`, `TrimSpace` and `Fields` act on ASCII here.
- Floats and times: their text, their binary layout and their parsing are arbitrary functions; integers, booleans, text and NULL have exact wire claims, a float or time field is what its function gives.
- The engine: `eval` is a function of the database and the text, so no other connection writes while a session runs, and nondeterminism inside DuckDB is not modelled.
- PgMemo.MemoInvisible: the run check `SafeRun` looks at the actual run, because a skipped message counts for nothing; on a run without failures it is the client's own check `SafeTrace`. A row-returning text that does change the database where it runs is outside the claim.
- PgSession.Session.Handle: ignores Execute's row limit, as the code does; the memory a huge announced parameter count takes is not modelled.
- PgDescribe.DescribedRowsMatch: two runs with as many columns but other OIDs may still send the same bytes, in text format always; the claim is about announced types, with one example of bytes that differ.
- MySqlLexical.StatementIsLexical: reads text as the Postgres scanner's lexer does, in which a backslash is an ordinary byte.
- Fidelity.Report.Warnings: `%q` copies bytes beyond ASCII; text that is not printable UTF-8 is escaped by Go and not here.
- EngineQuery.StubMasksIff: speaks of a message whose surroundings hold none of the classifier's phrases; the texts DuckDB puts around a query are not part of this model.
- EngineLoad.Engine.Create: the texts of the statements sent to DuckDB are kept as structured definitions, and a copy of a ClickHouse table that fails half-way leaves no partial table.
- EngineLoad.Engine.AttachSnapshot: the empty extension name, used only by stand-ins in the repository's own checks, is not reachable from the dispatch.
- EngineQuery.Engine.Refuse: the relation name a message speaks of is an arbitrary function of it; log texts are labels.
- EngineCache.Cache.EngineFor: with a data file all engines share one DuckDB instance; the model tells the engine objects apart, not their storage.
- MySqlSession.Handler.Execute: the library that encodes result sets is an arbitrary function that may fail; the pool a statement's connection comes from is one database.
- ClickHouse.SendResult: the column types a block names, block bytes, compression and the inbound blocks of an INSERT.
- Handshakes, logins, TLS refusal, sockets, goroutines, panic recovery, signal handling.
- Redis seeding, HUML configuration, environment lookup, flags and ports.
- The nil receiver of a report, and `Summary`, which is only logged.
- Races on the set of logged keys across connections.
