# sqlate: a verified model of its query compiler, transactions, reconnection and migration

sqlate builds SQL text and bind lists from condition trees, runs the statements over connections that can drop, nests
transactions by counting handles, and migrates schemas by numbered scripts. This project models those parts in Dafny
and proves what they are for. Check it with `dafny verify dfyconfig.toml`.

| file | what it holds |
|---|---|
| `Digits.dfy`, `QtText.dfy` | numerals as `QString::number` writes them, the string operations used |
| `Conditions.dfy` | condition values and the object with its add methods |
| `Tokens.dfy`, `Printing.dfy`, `Parsing.dfy`, `Semantics.dfy` | statement text and its lexer; the condition printer; a parser for SQL-92 search conditions (section 8.12); three-valued meaning and bindings |
| `QueryCache.dfy`, `Statements.dfy`, `Builders.dfy` | the cache, statements as pieces, the SELECT/UPDATE/DELETE builders |
| `Segments.dfy`, `SelectText.dfy`, `StatementText.dfy`, `TextLaws.dfy`, `Readers.dfy` | statement text read character by character: where its placeholders come from, whether it can spell a union, and what a reader finds in it |
| `SharedQueries.dfy` | builders that share the bindings of one cached query |
| `BuilderLaws.dfy`, `Unions.dfy`, `BuilderRuns.dfy` | the laws of placeholders; unions and whose placeholders reach whose values; what prepared queries mean after whole rounds of assembling and combining |
| `InsertBuilder.dfy` | the INSERT builder, which numbers by column and binds by key order |
| `TestCases.dfy` | texts the repository's tests expect, as anchors for the spelling tables |
| `Transactions.dfy`, `TransactionRuns.dfy` | handles over one driver transaction per connection; runs of any number of handles |
| `Database.dfy`, `Monitors.dfy`, `Reconnect.dfy`, `Locks.dfy` | the droppable connection, notification channels, the query manager, its two mutexes and the cache under any number of threads |
| `Scripts.dfy`, `SchemaSync.dfy`, `Migration.dfy` | script text and batches, missing tables and columns, the resumable updater |

How the source is rendered:

- A method of the source that changes its object is a method of a class; what it computes is tied by its contract to a
  function on values, and the laws are lemmas about those functions. C++ inheritance of the three conditional builders
  is one class whose field `parts` holds the fields of the subclass.
- The driver answers nondeterministically (`*`). An exception is an `ok` result that is false, or a result value.
  Connections, the catalogue, the queries and the updater's host keep a ghost record of what was asked and answered, so
  contracts can say which requests are made, and that nothing fails but by a refused one.
- A condition is printed as characters by the methods and as tokens by the specification; rendering the tokens gives
  the characters, and for column texts a lexer can tell apart (plain words, or `LOWER( word ) `) lexing the characters
  gives the tokens back. Everything else holds for all column texts.
- The comparison operators, the row and the server's clock are parameters of the meaning, so the theorems hold for
  every choice of them; an unbound placeholder and the invalid variant are NULL.

Where the code departs from its documentation or apparent intent, the code is followed and the exact condition proved,
with a run or an input that fails: a builder that keeps a union's offset, alone (`OffsetExact`, `StaleOffsetAlone`),
as the first half of another union (`UnionOffsetExact`, `StaleOffsetMisbinds`) or combined with itself
(`SelfUnionOffsetExact`, `SelfStaleMisbinds`); `removeSortColumn` (`RemoveSortColumnExact`); INSERT binding by key
order (`SlotBoundExact`, `AllAgreeExact`, `SwappedNames`); builders that share a cached query (`SharedExact`,
`SecondOverwrites`); handles given up twice (`CountedRunExact`, `CommittedTwice`); refused rollbacks (`SyncedExact`,
`EndingDecides`, `RefusedRollbackLeaks`); `transactionsCount` (`TransactionsCountExact`, `CountStaysUp`); an empty
comment line (`CommentExtentExact`); values that look like place markers in a channel name (`ValueChannelExact`,
`ValueLost`); a value channel two monitors share (`UnsubscribeExact`, `SharedValueLost`); a connection check that
reopens while queries are cached and so never returns (`CheckDbIsAlive`, `NeverStuckExact`); a cache left disabled by
`execUpdates`, and an outdated database reported as up to date (`ExecUpdates`); rules that are never created
(`RulesRetriedExact`, `RulesNeverCreated`). A combined builder that is rendered again gives the text of its own
fields: that is never the combined text if those fields do not hold the word UNION (`NeverUnion`), and can be any if
they do (`OneColumnSpellsUnion`).

Without a row in the table: plain setters and appenders, which change the one field their contract names, and
`TestCases.dfy`, which checks the spelling tables against texts the repository's tests expect
(`tests/selectquerybuildertest.cpp:48-155`, `tests/updatequerybuildertest.cpp:94-98`,
`tests/insertquerybuildertest.cpp:87-96`).

## Model

The main results come first, then the operations and the lemmas they rest on.

| member | source | states |
|---|---|---|
| BuilderLaws.TextMeansTree | SqlConditionalQueryBuilderBase.cpp:72-100 | lexing, parsing and evaluating the printed characters under the builder's bindings gives the truth of the tree |
| Parsing.PrintParse | SqlConditionalQueryBuilderBase.cpp:72-100 | parsing the output, AND binding tighter than OR, yields the tree with single-child nodes collapsed |
| Parsing.TextRoundTrip | SqlConditionalQueryBuilderBase.cpp:72-100 | the same from the characters of the statement |
| Semantics.MeaningPreserved | SqlConditionalQueryBuilderBase.cpp:72-100 | under bindings that resolve its placeholders the printed condition has the three-valued truth of the tree on every row |
| Statements.StatementMeans | SqlSelectQueryBuilder.cpp:124-133 | if the placeholders of a statement resolve to the values it registers, every search condition and assignment means what it was built to mean |
| Statements.StatementNumerals | SqlSelectQueryBuilder.cpp:164-173 | the numeric placeholder tokens of a whole statement are consecutive from its first index, in text order, one for each registered value |
| TextLaws.TextNumeralsExact | SqlSelectQueryBuilder.cpp:135-200 | read character by character, the numeric placeholders of a statement's text are those of the values it registers, consecutive from its first index, exactly if no text of the caller holds one of its own |
| Readers.JoinsReadBack | SqlSelectQueryBuilder.cpp:135-200 | a reader with its own table of SQL join words finds in the text of a SELECT kind and table of every join, in order |
| BuilderLaws.StatementFaithful | SqlSelectQueryBuilder.cpp:164-173 | with offset 0 every piece of a statement is faithful whatever the list already held |
| BuilderLaws.RoundsPreserveMeaning | SqlSelectQueryBuilder.cpp:114-122 | after any number of invalidate/query rounds a SELECT is its first text with shifted placeholders and is still faithful |
| BuilderLaws.OffsetExact | SqlSelectQueryBuilder.cpp:212 | a builder that keeps a union's offset, run by itself, finds its values exactly if the offset is 0 or it registers nothing; otherwise its last placeholder is unbound |
| BuilderRuns.SelectRounds | SqlSelectQueryBuilder.cpp:114-133 | the same after any number of invalidate/query rounds |
| BuilderRuns.SelectMeans | SqlSelectQueryBuilder.cpp:114-133 | one round with offset 0: every piece of the prepared SELECT means, under what is bound, what it was built to mean |
| BuilderRuns.UpdateMeans | SqlUpdateQueryBuilder.cpp:43-86 | whatever was assembled before, the same text, and every condition and assigned value of the prepared UPDATE is faithful |
| BuilderRuns.DeleteMeans | SqlDeleteQueryBuilder.cpp:39-72 | the same for DELETE |
| BuilderRuns.UnionMeans | SqlSelectQueryBuilder.cpp:207-216 | combining two builders, the first with offset 0, or one with itself, gives a prepared query in which every piece of both is faithful |
| Unions.UnionFaithful | SqlSelectQueryBuilder.cpp:207-216 | for two builders, the first with offset 0, every piece of the combined text is faithful under the combined list, whatever either list held |
| Unions.UnionNumerals | SqlSelectQueryBuilder.cpp:207-216 | the numeric placeholder tokens of the combined text are those of the first statement, then those of the second |
| TextLaws.UnionTextNumeralsExact | SqlSelectQueryBuilder.cpp:207-216 | the same for the characters of a union |
| Readers.UnionReadBack | SqlSelectQueryBuilder.cpp:207-216 | a reader of the combined text finds both halves again, and ALL exactly if it was asked for |
| TextLaws.TrimKeepsText | SqlUpdateQueryBuilder.cpp:43-86 | an UPDATE or DELETE whose caller's texts are not empty and have no blanks around them keeps its whole text |
| Unions.SelfUnionFaithful | SqlSelectQueryBuilder.cpp:207-216 | a builder with offset 0 combined with itself: every piece of both copies is faithful |
| Unions.SelfUnionOffsetExact | SqlSelectQueryBuilder.cpp:211-215 | with an offset, the first copy of a builder combined with itself is right whatever its values exactly if the offset leads to one of the four copies of them in the combined list |
| Unions.UnionOffsetResolves | SqlSelectQueryBuilder.cpp:211-215 | a first builder with an offset: the second half always finds its values, the first exactly if the combined list holds them where its placeholders point |
| Unions.UnionOffsetExact | SqlSelectQueryBuilder.cpp:211-215 | whatever values the two statements carry, the first half finds them exactly if its offset is 0 or it registers nothing |
| BuilderRuns.StaleOffsetMisbinds | SqlSelectQueryBuilder.cpp:211-215 | a concrete run: the second half of one union used as the first half of the next finds the other half's value |
| BuilderRuns.StaleOffsetAlone | SqlSelectQueryBuilder.cpp:212 | a concrete run: the second half of a union asked again alone has a placeholder bound to nothing |
| BuilderRuns.SelfStaleMisbinds | SqlSelectQueryBuilder.cpp:211-215 | a concrete run: a builder of two values with an offset of one, combined with itself, finds them swapped |
| TextLaws.NeverUnion | SqlSelectQueryBuilder.cpp:207-221 | a statement none of whose caller's texts holds the word UNION never has the text of a union, whatever was combined |
| Unions.OneColumnSpellsUnion | SqlSelectQueryBuilder.cpp:207-221 | and with it anything is possible: for every union there is one column text that renders as it |
| BuilderRuns.CombinedThenRequeried | SqlSelectQueryBuilder.cpp:114-122 | a combined builder that is invalidated and asked again has the text of its own fields, not the combined text if those do not hold the word UNION |
| BuilderRuns.CombinedThenCombined | SqlSelectQueryBuilder.cpp:207-221 | a combined builder used in another union, as first half, second half or both, contributes the text of its own fields, again not the combined text |
| BuilderLaws.RemoveSortColumnExact | SqlSelectQueryBuilder.cpp:74-84 | the loop ends exactly if the list is empty or its first column is the one to remove; otherwise it turns forever |
| InsertBuilder.AllAgreeExact | SqlInsertQueryBuilder.cpp:60-101 | all placeholders are right whatever the values are exactly if each column given a value other than the server-side time is named once, at the place of its name among the valued names |
| InsertBuilder.AgreesExact | SqlInsertQueryBuilder.cpp:96-100 | a placeholder is right whatever the values are exactly if as many valued names are smaller as there are columns in front |
| InsertBuilder.SlotBoundExact | SqlInsertQueryBuilder.cpp:96-100 | placeholder :i is bound to the value given for column i exactly if the driver sees the i-th value in key order alike |
| InsertBuilder.IncreasingAgrees | SqlInsertQueryBuilder.cpp:60-101 | with increasing names and all DEFAULT columns last every placeholder is right, server-side times included |
| InsertBuilder.SwappedNames | SqlInsertQueryBuilder.cpp:96-100 | a concrete input: columns b and a each get the other's value |
| TransactionRuns.RunIsLedger | SqlTransaction.cpp:30-76 | over every run that gives no transaction up twice, refused requests included, durable writes, pending writes and armed handles of every connection are the ledger's: counting refines "the last armed handle decides, once the request is granted" |
| TransactionRuns.GroupAtomicity | SqlTransaction.cpp:30-76 | the writes of a group become durable all together or not at all, decided solely by whether the event that gives up the last armed handle is a commit |
| TransactionRuns.EndingDecides | SqlTransaction.cpp:30-76 | in any run at all, what is pending in the driver's transaction and what joins it becomes durable together or not at all, as the event that ends it is a commit or not: the leftovers of a refused rollback follow the next group's decision |
| TransactionRuns.RunGood | SqlTransaction.cpp:30-76 | after every clean run counts are right and the driver is in a transaction exactly while the count is positive |
| TransactionRuns.CountedRunExact | SqlTransaction.cpp:30-76 | over any run, refused begins, commits and rollbacks included, every count is the number of live armed handles exactly if no event gives a transaction up twice |
| TransactionRuns.RunDrift | SqlTransaction.cpp:30-76 | over any run a count falls behind the armed handles by exactly the number of transactions given up twice |
| TransactionRuns.CountedExact | SqlTransaction.cpp:34-74 | whatever the driver answers, a step keeps count = number of live armed handles on every connection exactly unless a disarmed handle gives up again |
| TransactionRuns.CommittedTwice | SqlTransaction.cpp:52-63 | a concrete run: the first of two handles commits twice, and the driver commits while the second is still armed |
| TransactionRuns.SyncedExact | SqlTransaction.cpp:44-76 | a step keeps "in a driver transaction exactly while the count is positive" exactly unless the last rollback is refused |
| TransactionRuns.RefusedRollbackLeaks | SqlTransaction.cpp:69-75 | a concrete run: after a refused rollback the next group's commit saves the old group's write |
| TransactionRuns.TransactionsCountExact | SqlTransaction.cpp:78-81 | after every run that gives no transaction up twice the table size is the number of connections with an armed handle exactly if every connection on which a transaction was ever started has one now |
| TransactionRuns.CountStaysUp | SqlTransaction.cpp:78-81 | a concrete run: one transaction started and committed leaves a count of one |
| Reconnect.SqlQueryManager.CheckDbIsAlive | SqlQueryManager.cpp:118-183 | opens only a connection that is down, at most ten times, and ends open and valid or with all ten used; never returns exactly if an open succeeds while a query is cached; when it returns after a reopening that holds, every live query is on the new session with its text and bindings, subscriptions are exactly the wanted ones and the cache is clear; without a reopening nothing changes |
| Reconnect.SqlQueryManager.Exec | SqlQuery.cpp:73-100 | asks the driver, and again exactly if that failed and the connection is down; text and bindings survive, and neither request finds the query prepared on another session than the current one; hangs exactly if it reopens over a filled cache |
| Reconnect.SqlQueryManager.Prepare | SqlQuery.cpp:130-156 | asks the driver, and again exactly if that failed and the connection is down; success means prepared with the text, and every query of the connection still current; hangs exactly if it reopens over a filled cache |
| Locks.NeverStuckExact | SqlQueryManager.cpp:57-151 | no schedule of any number of threads gets stuck exactly if no thread that reopens a connection can find queries in the cache: neither its own or earlier ones, nor those of another thread |
| QueryCache.CacheRefines | SqlQueryCache.cpp:29-56 | over every history the nested map is the flat map of the inserts made while enabled since the last clear or switch |
| QueryCache.PrepareQuery | SqlQueryBuilderBase.cpp:80-90 | a cached statement is not prepared again, any other is asked of the driver once and the answer decides; the handle is prepared with the requested text on the builder's connection, and is cached afterwards if the cache is on; a failure changes nothing |
| SharedQueries.SharedExact | SqlQueryBuilderBase.cpp:80-90 | whatever values others carry, a prepared query still gives the driver its own ones exactly if no builder that shares it binds over them in between |
| SharedQueries.SecondOverwrites | SqlQueryBuilderBase.cpp:82-84 | a concrete run: two builders with one text, and the second one's value is in the first one's query |
| SharedQueries.RebindsSameText | SqlQueryBuilderBase.cpp:82-84 | only a builder with the same text on the same connection shares it, and only while it is cached |
| SharedQueries.PreparedGives | SqlQueryBuilderBase.cpp:80-90 | right after it was prepared and bound a query gives the driver its builder's values |
| Monitors.ChannelsDiffer | SqlMonitor.cpp:62-68 | for all values, hashes and tables a value channel is no table channel, not even lower-cased |
| Monitors.ValueChannelExact | SqlMonitor.h:76-79 | the channel is value, `_` and hash exactly if the value brings no place marker up to 2 |
| Monitors.ValueLost | SqlMonitor.h:76-79 | a concrete input: the value %1 is lost from its channel |
| Reconnect.UnsubscribeExact | SqlMonitor.cpp:80-86 | unsubscribing values never drops a table channel, and what the other monitors of the connection want stays subscribed exactly if none of them shares a value |
| Reconnect.SharedValueLost | SqlMonitor.cpp:80-86 | a concrete run: of two monitors of one value one unsubscribes, and the other's channel is gone |
| Migration.ResumableMigration | SchemaUpdater.h:209-297 | any number of runs failing anywhere and then a success commit exactly each script in (start, target] once, in order, and the target version |
| Migration.FailedRunResumes | SchemaUpdater.h:249-294 | where a failed run leaves the stored version, and that what remains is what it did not do |
| Migration.RulesRetriedExact | SchemaUpdater.h:271-280 | rules that failed to be created are created by some later run exactly if the target version has no script; otherwise every later run does nothing |
| Migration.RulesNeverCreated | SchemaUpdater.h:271-280 | a concrete database: version 1 is stored without its rules and stays so |
| Migration.SchemaUpdater.ExecUpdates | SchemaUpdater.h:209-297 | a run has the effect of its result; the cache is on again exactly if the stored version was outdated and known or readable, the user agreed and every step was granted; a database is reported as up to date exactly if it is, or its version is neither known nor readable; the schema is in place before any script runs |
| SchemaSync.CreateMissing | SchemaUpdater.h:230-246 | both steps converge, stop only at a refused request, can be repeated after a failure, and issue no statement on a schema in place |
| Scripts.SplitJoinExact | SqlUtils.cpp:40-43 | splitting the joined parts gives them back exactly if none is empty or contains the separator |
| Scripts.SplitExact | SqlUtils.cpp:40-43 | any text is some parts with separators between them, and splitting gives those that are not empty |
| Scripts.StripIdempotent | SqlUtils.cpp:32-38 | stripping twice is stripping once, and leaves nothing the pattern matches |
| Scripts.StripExact | SqlUtils.cpp:32-38 | stripping takes comments out and then blanks, tabs and line breaks from both ends, all of them |
| Scripts.StripKeeps | SqlUtils.cpp:32-38 | a text without two dashes and without outer blanks is left alone |
| Scripts.CommentExtentExact | SqlUtils.cpp:34-36 | a comment takes its own line away and nothing else, whatever follows, exactly if there is text behind its dashes; an empty one takes the next line with it |
| Scripts.LastCommentExact | SqlUtils.cpp:34-36 | a comment on the last line goes as well, two dashes at the very end stay |
| Scripts.BatchExec | SqlUtils.cpp:45-84 | success runs, in order and in one transaction, exactly the stripped statements before the first one shorter than 3 characters; failure leaves nothing durable; inside an outer transaction what ran stays pending; which requests were made, and that nothing but a refused one ends it early |
| Digits.NumberRoundTrip | SqlConditionalQueryBuilderBase.cpp:41 | a printed number is a non-empty numeral whose value is the number, in any base up to 16 |
| Conditions.SqlCondition.AddValueCondition | SqlCondition.cpp:30-46 | appends exactly one leaf with the given parts; without case sensitivity a text value is lowered and its column wrapped in LOWER; the tree stays well-formed |
| Conditions.SqlCondition.AddPlaceholderCondition | SqlCondition.cpp:48-67 | appends one placeholder leaf, lowered without case sensitivity; the placeholder stays a user placeholder |
| Conditions.SqlCondition.AddColumnCondition | SqlCondition.cpp:69-78 | appends one column comparison and changes nothing else |
| Conditions.SqlCondition.AddCondition | SqlCondition.cpp:80-83 | appends a copy of the nested condition; well-formedness is kept if the nested one has it |
| Tokens.LexReadsBack | SqlConditionalQueryBuilderBase.cpp:45-70 | lexing the rendered text of condition tokens gives the tokens back; the lexer has its own table of SQL operators |
| Printing.PlaceholderInjective | SqlConditionalQueryBuilderBase.cpp:38-43 | placeholders of different indices differ |
| Printing.PrintedNumerals | SqlConditionalQueryBuilderBase.cpp:72-100 | the numeric placeholders of a printed condition are, in text order, those of the values it registers: consecutive, strictly increasing, none from a user placeholder |
| Semantics.BoundResolves | SqlQueryBuilderBase.cpp:57-73 | binding a list index by index resolves every slice of it and leaves user placeholders as they were |
| QueryCache.SqlQueryCache.Contains | SqlQueryCache.cpp:29-34 | true exactly if the cache is on and holds the statement for the connection |
| QueryCache.SqlQueryCache.Query | SqlQueryCache.cpp:36-39 | returns the handle filed under connection and statement |
| QueryCache.SqlQueryCache.InsertQuery | SqlQueryCache.cpp:41-45 | is the insert event |
| QueryCache.SqlQueryCache.ClearAll | SqlQueryCache.cpp:47-50 | is the clear event |
| QueryCache.SqlQueryCache.Enable | SqlQueryCache.cpp:52-56 | is the switch event, which clears |
| Builders.SqlConditionalQueryBuilder.RegisterBindValue | SqlConditionalQueryBuilderBase.cpp:38-43 | appends the value and returns the placeholder of its index plus offset |
| Builders.SqlConditionalQueryBuilder.ConditionToString | SqlConditionalQueryBuilderBase.cpp:72-100 | the text is the rendered tokens numbered from the next index, the list grows by exactly the condition's values |
| Builders.SqlConditionalQueryBuilder.BindValue | SqlQueryBuilderBase.cpp:57-73 | binds one index: a UUID as text, the server-side time not at all |
| Builders.SqlConditionalQueryBuilder.PrepareAndBind | SqlSelectQueryBuilder.cpp:124-133 | a cached text is taken, any other is prepared once and the driver's answer decides; the query has the assembled text and the whole list bound; a failed prepare leaves it as it was |
| Builders.SqlConditionalQueryBuilder.SelectToString | SqlSelectQueryBuilder.cpp:135-200 | the text of the pieces numbered from the next index; the list is extended, not cleared |
| Builders.SqlConditionalQueryBuilder.SelectQuery | SqlSelectQueryBuilder.cpp:114-122 | assembles once, marks the builder assembled even if preparing fails |
| Builders.SqlConditionalQueryBuilder.CombineQueries | SqlSelectQueryBuilder.cpp:207-221 | text, offset and bind list of a union for any two builders, distinct or the same one, with " UNION ALL " or " UNION " between the two texts; a builder in use is left alone |
| Builders.SqlConditionalQueryBuilder.UpdateQuery | SqlUpdateQueryBuilder.cpp:43-86 | text and bind list depend on the statement alone, not on earlier rounds |
| Builders.SqlConditionalQueryBuilder.DeleteQuery | SqlDeleteQueryBuilder.cpp:39-72 | the same for DELETE with its own binding loop |
| BuilderLaws.PiecesShift | SqlSelectQueryBuilder.cpp:135-200 | printing from another index changes the placeholder numbers only |
| BuilderLaws.LeafExpressionMeaning | SqlCondition.h:253-271 | two leaves combined by a C++ operator mean the SQL operator |
| BuilderLaws.ExtendExpressionMeaning | SqlCondition.h:324-342 | an expression extended by a leaf means its operator applied to both |
| InsertBuilder.PutCorrect | SqlInsertQueryBuilder.cpp:35 | inserting keeps the keys ordered, sets this key and leaves all others |
| InsertBuilder.SqlInsertQueryBuilder.AddColumnValue | SqlInsertQueryBuilder.cpp:32-36 | appends the column and files the value under its name, replacing an earlier one |
| InsertBuilder.SqlInsertQueryBuilder.ValueList | SqlInsertQueryBuilder.cpp:70-85 | slot i is DEFAULT, now() or :i as column i dictates, one slot for each column |
| InsertBuilder.SqlInsertQueryBuilder.Query | SqlInsertQueryBuilder.cpp:49-105 | assembles once, prepares, and binds the values in key order |
| Transactions.Connection.Commit | SqlTransaction.cpp:56-58 | the driver's commit: pending writes become durable, or nothing changes |
| Transactions.SqlTransaction.Start | SqlTransaction.cpp:30-40 | asks the driver to begin exactly at count 0, and again exactly if refused; the recorded answers decide, and a failure changes nothing |
| Transactions.SqlTransaction.Commit | SqlTransaction.cpp:52-63 | asks the driver to commit exactly at count 1, and again exactly if refused; a failure keeps the handle armed and the count |
| Transactions.SqlTransaction.Rollback | SqlTransaction.cpp:65-76 | gives up the handle first; asks the driver exactly as the last one, and again exactly if refused |
| Transactions.SqlTransaction.Destroy | SqlTransaction.cpp:42-50 | does nothing if disarmed; else gives up the count and asks the driver once, exactly as the last one |
| Monitors.ValueChannelEnd | SqlMonitor.h:76-79 | a value channel ends in `_` and the hash, or, exactly if the value brings a place marker below 2, in an unreplaced `_%2`; what comes before is stated too |
| Monitors.SqlMonitor.SetMonitorTables | SqlMonitor.cpp:43-52 | adds and subscribes exactly the channels not known yet, each once, in order |
| Monitors.SqlMonitor.Subscribe | SqlMonitor.cpp:54-60 | reports whether the channel was new; subscribed afterwards while the connection is open |
| Monitors.SqlMonitor.AddValueMonitor | SqlMonitor.h:66-86 | records the channel and subscribes it |
| Monitors.SqlMonitor.NotificationReceived | SqlMonitor.cpp:62-68 | a table change exactly for a known table channel, else a known value, else nothing; values and tables are never confused |
| Monitors.SqlMonitor.Resubscribe | SqlMonitor.cpp:70-78 | subscribes exactly the table and value channels of this monitor |
| Monitors.SqlMonitor.UnsubscribeValuesNotifications | SqlMonitor.cpp:80-86 | removes the value channels from the driver and forgets them |
| Reconnect.SqlQueryManager.SaveBindings | SqlQueryManager.cpp:126-131 | saves the bindings of every live query of the connection |
| Reconnect.SqlQueryManager.PrepareAgain | SqlQueryManager.cpp:154-167 | all texts and bindings are kept, other connections are untouched, and unless the connection drops every query with text is prepared on the current session |
| Reconnect.SqlQueryManager.Resubscribe | SqlQueryManager.cpp:171-180 | unless the connection drops the subscriptions are exactly those its monitors want |
| SchemaSync.CreateMissingTables | SqlCreateTable.h:383-400 | creates the missing declared tables in order up to the first refused one; every statement is legal when sent, nothing is lost, nothing is sent if all exist |
| SchemaSync.CreateMissingColumnsOf | SchemaUpdater.h:120-150 | the same for the columns of one table, after asking for those it has |
| SchemaSync.CreateMissingColumns | SchemaUpdater.h:305-309 | the same for all tables of the schema, stopping at the first refusal |
| Migration.SchemaUpdater.NeedsUpdate | SchemaUpdater.h:180-203 | reads the version exactly if it is not known, and compares it with the target |
| Migration.SchemaUpdater.PendingUpdates | SchemaUpdater.cpp:40-55 | the existing versions in (current, target], ascending |
| Migration.SchemaUpdater.ExecUpdate | SchemaUpdater.cpp:57-74 | asks the driver for the non-empty stripped statements in order, up to the first refused one, inside the transaction |
| Migration.SchemaUpdater.UpdateStep | SchemaUpdater.h:250-268 | begin, script, version and commit are requested in this order, and a rollback if one is refused; all happen, or nothing of it survives and the current version is unchanged; it fails only by a refusal |
| Migration.SchemaUpdater.RunScripts | SchemaUpdater.h:249-269 | the committed writes are those of the versions before the failed one, or of all; if every request is granted all are run |
| Migration.SchemaUpdater.Upgrade | SchemaUpdater.h:248-294 | its effect on the committed writes is the one of its result; the known version is the stored one; it completes exactly if scripts, rules and a missing version update are granted |
| Semantics.BoundToExact | SqlQueryBuilderBase.cpp:57-73 | after the binding loop a generated placeholder is bound to a value exactly if the list has at its index one the driver sees alike |
| Unions.StatementRevalued | SqlConditionalQueryBuilderBase.cpp:84-90 | a SELECT with other values registers those and has the same text |
| Locks.OneCheckSafe | SqlQueryManager.cpp:151 | one check alone gets stuck exactly if an open succeeds while something is cached |
| QtText.TrimmedSplit | SqlUtils.cpp:37 | trimming takes nothing but blanks, tabs and line breaks, from the two ends only, and leaves none there |
| QtText.TrimmedExact | SqlUtils.cpp:37 | and a text without them at its ends is what is left of it in the midst of them |
| Scripts.ToRunExact | SqlUtils.cpp:60-75 | the statements of a batch are the first so many of the script, in order, each stripped and of three characters at least, up to its end or a shorter one |
| Migration.StatementsAround | SchemaUpdater.cpp:62-72 | each part of an update script is run in its place if more than comments and blanks are in it |
| SchemaSync.MissingTablesExact | SqlCreateTable.h:383-400 | a table is created exactly if it is declared and not there |
| SchemaSync.MissingColumnsExact | SchemaUpdater.h:136-148 | a column is added exactly if it is declared and not there |
| InsertBuilder.KeyLessExact | SqlInsertQueryBuilder.cpp:97-99 | a name is before another if it is a proper prefix of it or has the smaller character where they first differ |
| InsertBuilder.SlotExact | SqlInsertQueryBuilder.cpp:70-85 | DEFAULT for a column without a value, now() for the server-side time, a numbered placeholder otherwise |
| Semantics.CombineExact | SqlCondition.h:253-271 | the reference meaning of AND and OR: true, false and unknown by what all or some of the parts are |
| Monitors.NewChannelsExact | SqlMonitor.cpp:43-52 | the channels a monitor adds are the lower-case table names with `changed`, those not known yet, each once |
| Monitors.ProcessedExact | SqlMonitor.h:69-74 | a UUID in braces loses them, a text without both braces is kept |
| Reconnect.WithoutExact | SqlQueryManager.cpp:65-71 | unregistering removes all occurrences of the query and none of another |

## Left out

- Tokens.LexReadsBack: only for column texts that are plain words or `LOWER( word ) `; an arbitrary column text (say `a = b`) cannot be told from operators. `Parsing.PrintParse` and `Semantics.MeaningPreserved` hold for all column texts.
- Reconnect.SqlQueryManager.CheckDbIsAlive: assumes that preparing a once accepted text again on an open connection fails only if the connection drops; the return value is ignored by the source.
- QueryCache.PrepareQuery: the liveness check of `prepare` is not repeated here. Where it clears the cache it either finds it empty and changes nothing, or never returns (`Reconnect.SqlQueryManager.CheckDbIsAlive`).
- Locks.NeverStuckExact: each step on the cache is atomic; the source guards the cache itself with no mutex. Every `CacheQuery` takes effect: an insertion into a disabled cache or under an existing key is not told apart.
- Transactions.SqlTransaction.Start: runs without connection loss; the reference counts are not reset by a reconnect, and on the main thread a loss ends the process. The liveness check before each call is therefore not repeated here.
- Transactions.Connection.Commit: a refused commit leaves the transaction open. A server that ends the transaction on a refused commit is not modelled.
- Migration.SchemaUpdater.ExecUpdate: a script that itself commits, or that changes the version table, is not modelled; the text of a script is otherwise arbitrary.
- SchemaSync.CreateMissingTables: the server's names are those it folds unquoted identifiers to; names stored case-sensitively are not modelled. Tables changed by migration scripts are not tracked in the catalogue.
- Qt SQL, QRegExp and PostgreSQL internals: abstract driver contracts; `stripComments` is modelled by the match its pattern has with minimal quantifiers.
- SharedQueries.SharedExact: a pool of its own, in which a failed prepare is no event; in the builders' contracts a cached copy may simply come with leftover bindings.
- Unicode case folding and digits: lower-casing is ASCII, and a user placeholder only must not start with an ASCII digit.
- Overflow of the bind index and of the reference count (`int`).
- Plain setters of the builders (columns, sort and group columns, locks, limits): they only append to or assign a field.
- Message boxes, signals, process exit, files: a run of the updater ends in a result value, the update directory is a map from versions to texts.
- Creating rules, permissions and triggers: only that the step may fail.
- SqlQueryWatcher and kdthreadrunner: process launching and timers.
- The compile-time macros of SqlSelect.h, SqlInsert.h, SqlDelete.h and the schema: tables and columns are plain data.
- Column definitions in CREATE TABLE, GRANT, trigger, rule and Graphviz text: straight concatenation.
- Detection of lock errors, the pretty-printing of live queries and monitors: single-branch facts.
