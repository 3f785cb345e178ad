# A verified model of psqlodbc2

psqlodbc2 is an ODBC driver for PostgreSQL. Beside its libpq calls it keeps a good deal of logic of
its own: a client-side overlay that makes an immutable result look updatable, a transaction and
savepoint protocol that must stay in step with the server, a scanner and a statement splitter that
must understand PostgreSQL's lexical structure, and several small codecs. This project models that
logic in Dafny and proves what it is for.

Where the driver updates state in place, the model is a class or a loop over an array, and each
method is proved equal to a function on values; the theorems are lemmas about those functions over
all inputs, all runs or all reachable states. The PostgreSQL server is a small abstract machine: a
transaction block with a savepoint stack, and a table keyed by ctid in which every UPDATE moves a
row to a ctid that was never used before.

| file | models |
|---|---|
| `Transactions.dfy` | the server's transaction block, `transaction_state`, the per-statement savepoint, autocommit |
| `Cursor.dfy`, `Statement.dfy` | scrolling, the keyset overlay, SQLSetPos, block fetches in both directions |
| `DirectCommands.dfy` | commands sent past the transaction protocol, and runs that mix them with it |
| `CursorSession.dfy` | positioned changes on a connection, what a rollback leaves of the overlay, and runs of both |
| `Lexer.dfy`, `Splitter.dfy` | PostgreSQL's lexical units (sections 4.1.2.4 and 4.1.5 of its manual) and the splitting of a text into statements |
| `ScannerModel.dfy`, `EscapeModel.dfy`, `Scanner.dfy` | the scanner that numbers parameter markers, expands nested brace escapes and reads procedure calls: its units, the whole scan as a function, and the scanner itself |
| `EscapeReading.dfy`, `CallReading.dfy` | what the scanner makes of the text inside escapes when nothing in it is rewritten, and of written procedure calls |
| `EscapeTrees.dfy`, `NestedEscapes.dfy`, `EscapeTranslation.dfy` | statements with escapes nested in one another as trees: what they mean, how the scanner reads them, and when it translates them into what they mean |
| `EscapeSpelling.dfy`, `CallTranslation.dfy`, `FunctionTemplates.dfy` | escapes and calls in any letter case and with any blanks, rewritings outside braces, and what each scalar function is translated into |
| `Tokens.dfy` | texts written from PostgreSQL's tokens (sections 4.1.1 to 4.1.5 of its manual), and how the lexers read them |
| `LexerAgreement.dfy` | where the scanner's lexer and the splitter's agree |
| `Numeric.dfy` | packing decimal text into a 128-bit SQL_NUMERIC_STRUCT and printing it |
| `Transcoding.dfy` | UTF-8 and UTF-16 (section 4 of RFC 3629, section 2 of RFC 2781) and the truncation of wide text |
| `Diagnostics.dfy` | the record store and the paging of SQLGetDiagRec |
| `ConnectionString.dfy` | parsing a connection string and printing the one SQLDriverConnect returns |
| `Literals.dfy` | hex-encoded binary parameters, bytea text, quoted SQL literals and the catalog filters made of them |
| `LiteralLexing.dfy` | how the driver's own lexers read the literals that it writes |
| `Common.dfy` | shared helpers: bytes, ASCII comparison, optional values, cutting a sequence into blocks |

## What the proofs found

Each of these is a lemma with the exact condition under which the code does what its comments say.

- COMMIT of a transaction that the driver marked failed reports success and publishes nothing, and a
  savepoint that the server refuses loses the whole transaction (`CommitPublishes`).
- SQLSetPos sends its UPDATE and DELETE without a transaction, a savepoint or a failure mark. Outside
  a transaction the change is published at once even with autocommit off (`IdleChangeIsPublished`).
  Driver and server stay matched if and only if no positioned change is refused in an unharmed
  transaction (`CursorRunKeepsMatch`); after one, every guarded statement fails and COMMIT reports
  success while it publishes nothing (`LostRun`). A row added by a statement is lost this way when a
  positioned DELETE is refused behind it (`RefusedDeleteLosesRow`).
- Over runs that mix statements, SQLEndTran, autocommit switches and positioned changes, the data
  and the return codes are those of a ledger, driver and server are matched in the end if and only if
  no refused change was the last to touch the transaction (`MixedRunRefines`), and COMMIT publishes a
  fold of what succeeded (`CommitPublishesMixed`, `CommitPublishesByMode`).
- ROLLBACK leaves the overlay of an open cursor stale if and only if a positioned change was applied
  in the transaction (`RollbackLeavesCursorStale`); over mixed runs the overlay agrees all along if
  and only if no statement takes effect on a row of the cursor and no transaction is dropped, by
  SQLEndTran or by a statement that fails in transaction mode, after a positioned change
  (`MixedRunInStep`). A row deleted and rolled back stays deleted in the
  open cursor (`RolledBackDeleteStaysDeleted`). ROLLBACK TO a savepoint of the application brings
  deleted rows back but not updated values (`ApplicationSavepoint`).
- After a block fetch, SQLSetPos row number n + 1 names element n of the rowset if and only if none
  of the n rows after the first one is deleted (`RowNumberNamesElement`). After a single-row fetch it
  names the fetched row if and only if no earlier block rowset is remembered, or one with the same
  first row (`RowNumberAfterSingleFetch`); DELETE can remove another row (`DeleteRemovesAnotherRow`).
  The comment in src/statement.h:424-428 says otherwise; the model follows the code.
- Only block fetches skip deleted rows, although src/statement.h:574-578 asks it of every fetch. What
  is delivered is live exactly when the fetch is a block fetch or lands on no deleted row
  (`DeliveredRowsAreCurrent`, `DeletedRowIsDelivered`).
- Fetching PRIOR once more after the first no-data starts over at the end (`PriorWrapsAround`), so a
  backward sweep is over at its first no-data.
- SQLFetch keeps counting behind the last row, so scrolling back by one from there finds no row,
  while SQLFetchScroll parks exactly behind the last row (`FetchLeavesRange`, `ScrollStaysInRange`).
- After a scroll that finds no row the rows-fetched counter still holds what an earlier fetch
  delivered, unless the scroll was a block fetch; SQLFetch always sets it, and so does
  SQLExtendedFetch with its caller's own count (contracts of `ExtendedFetch` and `Fetch`).
- Row number 0 of SQLSetPos means the first row of the rowset, not all of it (`RowNumberZeroIsOne`);
  behind a block fetch it deletes, updates, reads or moves to exactly the first delivered row
  (`SetPosOnElement`).
- A text of PostgreSQL's tokens is split exactly at its semicolons and holds exactly its markers, and
  every literal, name, dollar quote and comment ends where it was written (`TokensAreRead`). A text
  that ends inside one is left open, with all of it in the last statement (`UnfinishedIsRead`).
- The scanner decides whether a `$` opens a dollar quote by looking at its output, the splitter by
  looking at the input. On a text in which the scanner meets nothing to rewrite, the two visit the
  same states if and only if no marker stands directly before a dollar quote
  (`ScannerAgreesExactly`); on `?$$?$$` the scanner counts two parameters and the splitter's lexer
  one (`DollarAfterMarkDisagrees`).
- Function, outer-join, LIKE and datetime escapes nested to any depth are expanded from the inside
  out, and their markers are numbered in the order of their positions, if and only if no parenthesis
  outside the function calls begins "() VALUES ()" in an INSERT statement (`TreeIsTranslated`); the
  scanner then writes DEFAULT VALUES, in `insert into t () values ()` just the same
  (`EmptyInsertIsRewritten`). `{fn ucase({fn lcase(?)})}` stands for `upper(lower($1))`
  (`NestedExample`). What each scalar function becomes is spelled out for all arguments, so LOCATE
  hands its two arguments to strpos the other way round (`LocateText`).
- A written literal ends where it was written, is closed, and lets the semicolon behind it end the
  statement, if and only if backslashes are plain text or none of them acts on a quote
  (`LiteralEndsWhereWritten`, `ClosedExactlyWhenIntact`, `LiteralEndsStatement`). The writer never
  doubles a backslash, so with `standard_conforming_strings` off a value of one backslash swallows
  the semicolon (`BackslashSwallowsSemicolon`).
- Counting the room left in the unsigned arithmetic of the machine, the writes of a chain of catalog
  filters stay inside the query buffer if and only if everything in front of each value fits with one
  character to spare (`WritesStayInside`). A schema pattern as long as the buffer, well within a
  16-bit length, breaks this for any table pattern behind it (`LongPatternLeavesBuffer`).
- A number is restored from its text if and only if its scale is at most 48 and its precision covers
  the digits of the mantissa (`ParseAfterFormat`). Whole digits behind the 48th turn the scale
  negative (`ScaleBelowZero`), which the printing does not expect.
- Paging through the diagnostic records loses nothing if and only if no text is left on pages behind
  the largest 16-bit record number (`PagingLosesNothing`).
- SQLGetDiagRec describes the record of the page that its number names, with that record's SQLSTATE
  and native error (`RetrievedIsPage`), and text in UTF-16 becomes well-formed UTF-8 if and only if no
  surrogate stands alone (`EncodedIsWellFormed`).
- A value printed alone into a connection string is restored if and only if it holds no semicolon,
  does not begin with a brace or a blank and does not end in a blank (`RestoredExactlyWhenPlain`).
- A written literal is measured correctly if and only if the text behind it does not begin with a
  quote (`MeasureAfterDoubling`).

## Model

| member | source | states |
|---|---|---|
| TransactionModel.CommitPublishes | src/connection.c:493-760 | after any run of statements with any failures, COMMIT publishes exactly the successful ones (statement mode), those after the last failure (transaction mode), or all or nothing; nothing is visible before it |
| TransactionModel.RunRefines | src/connection.h:378-416 | over any run of statements, SQLEndTran calls and autocommit switches the driver's state matches the server's block, the server holds at most one driver savepoint, and the observable data and return codes are those of the simple ledger |
| TransactionModel.StepRefines | src/connection.c:493-760 | every single request keeps that match and does to the observable data what the ledger does |
| TransactionModel.ExecRefines | src/statement.c:1605-1757 | one statement in the documented order (ensure, savepoint, run, mark, handle) either takes effect or leaves no trace |
| TransactionModel.GuardedState | src/connection.c:626-719 | before a statement runs, the server is in a block with exactly one driver savepoint holding the data from before it, or has given the block up because a savepoint command was refused; a refused BEGIN changes nothing |
| TransactionModel.EnsureBegins | src/connection.c:626-646 | ensuring a transaction opens a block on the published data, keeps an open one as it is, or changes nothing when BEGIN is refused |
| TransactionModel.SavepointGuards | src/connection.c:666-719 | from any open, unharmed block the release and savepoint commands end with one savepoint on the current data, or in an aborted block exactly when one was refused in statement mode |
| TransactionModel.RunGuarded | src/statement.c:389-404 | running a guarded statement ends matched: with its effect on success, with the data from before it on failure in statement mode |
| TransactionModel.ErrorHandled | src/connection.c:721-760 | handling the error brings the savepoint's data back, drops the transaction or leaves it failed, and driver and server agree again |
| TransactionModel.LedgerPublishes | src/connection.h:378-416 | what COMMIT of the ledger publishes, as a fold over the attempted statements |
| TransactionDriver.Connection.BeginTransaction | src/connection.c:493-534 | afterwards a block is open, on the published data when there was none; it fails exactly when BEGIN was sent and refused, and then nothing has changed |
| TransactionDriver.Connection.Commit | src/connection.c:536-579 | keeps driver and server matched; publishes the pending work, or nothing when the transaction had failed or COMMIT was refused, and is idle in any case |
| TransactionDriver.Connection.Rollback | src/connection.c:581-624 | keeps driver and server matched and drops all pending work |
| TransactionDriver.Connection.EnsureTransaction | src/connection.c:626-646 | nothing in autocommit mode or a failed transaction; otherwise an unharmed block with the same data to see and the same data published, unless BEGIN is refused |
| TransactionDriver.Connection.EffectiveRollbackOnError | src/connection.c:648-664 | an explicit mode is returned as it is; without one it is statement mode |
| TransactionDriver.Connection.BeginStatementSavepoint | src/connection.c:666-719 | leaves exactly one driver savepoint holding the data from before the statement, or a block that the server gave up because a command was refused |
| TransactionDriver.Connection.HandleStatementError | src/connection.c:721-760 | driver and server agree again: on the savepoint's data, on no transaction, or on a failed one, by mode; nothing is published |
| TransactionDriver.Connection.ExecuteStatement | src/statement.c:1605-1757 | keeps driver and server matched and has the ledger's effect and return code |
| TransactionDriver.Connection.SetAutocommit | src/odbc_api.c:2325-2350 | switching on ends the open transaction, by ROLLBACK when it failed and by COMMIT otherwise; a refused COMMIT leaves autocommit off |
| CursorModel.KeysetRefinesTable | src/results.c:2647-2924 | after any run of SQLSetPos, fetches and rebindings: live rows have distinct ctids, each names where its row lives now, the overlay shows the server's value, other rows are untouched, and the rows are what the accepted changes make of those first read |
| CursorModel.RunAgrees | src/results.c:3117-3174 | the same from any agreeing cursor |
| CursorModel.StepAgrees | src/results.c:3117-3174 | every single request keeps the agreement and changes exactly the row it names |
| CursorModel.UpdateAgrees | src/results.c:2763-2869 | a positioned update changes the assigned columns of its row and nothing else, also the second time although the row has moved; it fails exactly when the server refuses it |
| CursorModel.DeleteAgrees | src/results.c:2877-2910 | a positioned delete removes its row and nothing else, and leaves everything as it was when refused |
| CursorModel.RefreshReadsServer | src/results.c:2917-2924 | a refresh without a round trip shows the row of the server |
| CursorModel.SweepsVisitLiveRowsOnce | src/results.c:2048-2168 | NEXT from before the first row and PRIOR from the end deliver every row that is not deleted exactly once, in ascending order, in full blocks except perhaps the last |
| CursorModel.ForwardSweepIsExact | src/results.c:2048-2168 | from any position the forward blocks are the live rows ahead, cut from the front |
| CursorModel.BackwardSweepIsExact | src/results.c:2080-2104 | from any position the backward blocks are the live rows before the rowset, cut from the back |
| CursorModel.PriorWrapsAround | src/results.c:2080-2113 | after a PRIOR without data the next PRIOR fetches what LAST does |
| CursorModel.RowNumberNamesElement | src/results.c:3147-3151 | a row number names the delivered element if and only if no deleted row lies among those that follow the first |
| CursorModel.RowNumberZeroIsOne | src/results.c:3144-3151 | for every cursor and operation, row number 0 does what row number 1 does |
| CursorModel.SetPosOnElement | src/results.c:3144-3174 | after a block fetch a row number that names element n, which 0 and 1 always do for the first, deletes, updates, reads or moves to exactly that row: the rows as a whole, the rest of the table and the answer are given, refused or not |
| CursorModel.SetPosAnswers | src/results.c:3118-3182 | which requests fail and with which SQLSTATE, and that a request that fails changes nothing |
| CursorModel.RowWithoutCtid | src/results.c:2763-2888 | a row without a ctid cannot be updated, and a delete only marks it |
| CursorModel.ColumnsAfterUpdate | src/results.c:2783-2838 | each column takes the value of the last bound column of its number that is not ignored and keeps its own when there is none; the ctid column is never assigned |
| CursorModel.BlockExtent | src/results.c:2054-2168 | a block holds no more rows than the array takes, nor than 256, and its extent is remembered |
| CursorModel.RowNumberAfterSingleFetch | src/results.c:3147-3151 | after any run on a cursor, row number 1 names the row a single-row fetch delivered if and only if the history of block fetches leaves no rowset remembered, or one with the same first row |
| CursorModel.DeleteRemovesAnotherRow | src/results.c:3147-3151 | a run of three requests after which deleting row number 1 removes a row other than the one just fetched |
| CursorModel.DeliveredRowsAreCurrent | src/results.c:2193-2219 | the delivered rows are live and hold the server's values if and only if the fetch is a block fetch or lands on rows none of which is deleted |
| CursorModel.DeletedRowIsDelivered | src/results.c:2365-2413 | a row fetched, deleted and fetched again is delivered although the server's table is empty |
| CursorModel.ScrollStaysInRange | src/results.c:2269-2378 | any run of scrolls and positioned operations keeps the position between before-first and behind-last |
| CursorModel.FetchLeavesRange | src/results.c:2193-2201 | SQLFetch stays in that range if and only if it starts before the end; from behind the end RELATIVE -1 finds no row |
| CursorModel.RelativeMovesAdd | src/results.c:2319-2324 | RELATIVE a then RELATIVE b is RELATIVE a + b when the first landing is a row |
| CursorModel.RelativeMoves | src/results.c:2281-2324 | RELATIVE n is ABSOLUTE of the position it moves to, or parks at the end that it passes; NEXT is RELATIVE 1, and PRIOR is RELATIVE -1 unless the cursor is more than one behind the end |
| CursorModel.AbsoluteCounts | src/results.c:2299-2317 | ABSOLUTE counts rows from 1 or back from the end: which rows it delivers, how many, where it leaves the cursor, and when it is clamped or finds none |
| CursorModel.FetchIsNext | src/results.c:2170-2214 | SQLFetch is NEXT up to the row behind the last one, and counts on from there without a row |
| CursorModel.ScrollErrors | src/results.c:2250-2362 | which scrolls fail and with which SQLSTATE; the cursor stays where it is |
| CursorModel.PlainSweepIsExact | src/results.c:1712-1758 | forward rowsets of a plain cursor are the rows ahead, cut from the front, and then there is no more data |
| Blocks.FromFrontPartitions | src/results.c:2098-2104 | blocks cut from the front join to the whole, all full but the last |
| Blocks.FromBackPartitions | src/results.c:2098-2132 | blocks cut from the back join to the whole in reverse, all full but the last |
| CursorSessions.PositionedKeepsMatch | src/results.c:2763-2910 | one positioned request keeps driver and server matched if and only if it is not refused in an unharmed transaction; the overlay agrees in every case |
| CursorSessions.EndedBlockRefuses | src/results.c:2840-2905 | in a block that an error has ended every positioned change is refused and changes neither side; anywhere else the server's own answer counts |
| CursorSessions.CursorRunKeepsMatch | src/results.c:2844-2858 | the same over any run of requests on a cursor |
| CursorSessions.IdleChangeIsPublished | src/results.c:2844-2858 | outside a transaction a positioned change is published at once, whatever autocommit says, and SQLEndTran takes nothing back |
| DirectCommands.LostStatement | src/connection.c:666-760 | after a refused positioned change the next statement fails and the work before it is gone, in statement mode too |
| DirectCommands.LostRun | src/connection.c:536-760 | every later statement fails, and COMMIT reports success and publishes nothing |
| DirectCommands.MixedStepRefines | src/connection.c:493-760 | one statement, SQLEndTran, autocommit switch or command sent past the protocol does what the ledger says, and the transaction is lost behind it exactly when such a command failed in an unharmed block |
| DirectCommands.MixedRunRefines | src/results.c:2844-2858 | over any run of both kinds the data and return codes are those of the ledger, and driver and server are matched in the end if and only if no such command has lost the transaction since the last statement or SQLEndTran |
| DirectCommands.CommitPublishesMixed | src/connection.c:536-579 | in the default mode COMMIT publishes all statements and commands that succeeded, or, once a savepoint command was refused or a command failed in the open transaction, only what was sent before the first statement |
| DirectCommands.CommitPublishesByMode | src/connection.c:536-760 | in every mode COMMIT publishes a fold of what succeeded: what gives up the transaction takes it back to what was published before, for good or, in transaction mode, up to the next statement |
| CursorSessions.RollbackLeavesCursorStale | src/connection.c:581-624 | after ROLLBACK the open cursor agrees with the table if and only if no positioned change was applied in the transaction, for a run of cursor requests from an agreeing cursor |
| CursorSessions.MixedRunInStep | src/connection.c:581-760 | over any run of statements, SQLEndTran, autocommit switches and cursor requests, the overlay agrees with the connection's table all along if and only if no statement takes effect on a row of the cursor and no transaction is dropped, by SQLEndTran or a statement failing in transaction mode, after a positioned change was applied in it |
| CursorSessions.RefusedDeleteLosesRow | src/results.c:2893-2906 | a statement adds a row, a positioned DELETE is refused, and COMMIT reports success without publishing the row |
| CursorSessions.RolledBackDeleteStaysDeleted | src/connection.c:581-624 | a row deleted through the cursor and brought back by ROLLBACK stays deleted in the open cursor |
| CursorRollback.RollbackLeavesOverlay | src/connection.c:581-624 | for any run of requests: the overlay agrees with the table from before it if and only if no request changed a row |
| CursorRollback.SavepointRestoresDeletes | src/statement.c:3032-3104 | restoring the flags of a savepoint restores agreement if and only if no positioned UPDATE was applied since, and then every row of the overlay |
| CursorRollback.RestoreIsExact | src/statement.c:3068-3098 | restoring a snapshot gives every row its remembered flag, marks rows added since as deleted, parks the cursor before the first row and changes nothing else |
| CursorRollback.EmptyTakesNoSlot | src/statement.c:3034-3036 | a result without rows takes no slot |
| CursorRollback.ApplicationSavepoint | src/statement.c:3032-3104 | the same from SAVEPOINT to ROLLBACK TO by name, with deletes lost as well when all eight slots hold other names |
| StatementHandle.Statement.KeysetRowCtid | src/results.c:2647-2671 | with an agreeing overlay the ctid names the row's current place and values on the server, nothing once it is deleted, and no other live row |
| StatementHandle.Statement.KeysetStoreRowOverlay | src/results.c:2723-2753 | the overlay of one row becomes the returned row in the cursor's own width; all other rows keep theirs |
| StatementHandle.Statement.CollectAssignments | src/results.c:2783-2837 | every bound, visible, not ignored column once, in slot order |
| StatementHandle.Statement.KeysetPositionedUpdate | src/results.c:2763-2869 | new overlay, server table and outcome of a positioned update, including the missing ctid, the empty SET list and the server's refusal |
| StatementHandle.Statement.KeysetPositionedDelete | src/results.c:2877-2910 | new overlay, server table and outcome of a positioned delete |
| StatementHandle.Statement.KeysetPositionedRefresh | src/results.c:2917-2924 | reads the row through the overlay and leaves the cursor where it was |
| StatementHandle.Statement.SetPos | src/results.c:3117-3174 | target row, errors and effect; an agreeing cursor stays in agreement with the server |
| StatementHandle.Statement.KeysetSnapshotSavepoint | src/statement.c:3032-3064 | a later ROLLBACK TO the name restores the flags of this moment, unless all slots are taken by other names |
| StatementHandle.Statement.KeysetRestoreSavepoint | src/statement.c:3071-3104 | the in-place restore sets exactly the remembered flags, marks later rows deleted and parks the cursor before the first row |
| StatementHandle.Statement.RowValues | src/statement.c:2928-2967 | with an agreeing overlay the values read for a live row are those the server holds under its ctid |
| StatementHandle.Statement.CollectLiveRows | src/results.c:2096-2104 | the first (or last) rows in scan direction that are not deleted, as many as fit the rowset |
| StatementHandle.Statement.FlipCollected | src/results.c:2124-2132 | reverses the collected rows in place |
| StatementHandle.Statement.DeliverCollected | src/results.c:2106-2168 | parks at the boundary without rows; otherwise remembers first row, size and last row of the rowset |
| StatementHandle.Statement.KeysetBlockFetch | src/results.c:2048-2168 | position, rowset and delivered values of a block fetch over the overlay, with the rows-fetched counter and the row statuses |
| StatementHandle.Statement.MarkRows | src/results.c:1731-1745 | the statuses of the first rows say success, those of the rest of the rowset no row, and those behind stay |
| StatementHandle.Statement.PopulateBoundRowset | src/results.c:1712-1758 | delivers the consecutive rows from the landed one on, stops on the last, and sets the counter and every status of the rowset |
| StatementHandle.Statement.Fetch | src/results.c:2170-2220 | SQLFetch on plain and updatable cursors: rows, values and position; the counter is what was delivered, and the statuses are set when there are rows and left alone otherwise |
| CursorModel.OrientationsAgree | src/results.c:2281-2363 | the orientations name each other's rows: NEXT from before the first is FIRST, PRIOR from behind the last is LAST, a negative ABSOLUTE counts from the end and is clamped exactly when it runs off the front, a bookmark is an ABSOLUTE row, PRIOR undoes NEXT |
| StatementHandle.Statement.MoveTo | src/results.c:2365-2413 | parks before the first or exactly behind the last row, or delivers the rowset |
| StatementHandle.Statement.ExtendedFetch | src/results.c:2228-2443 | every orientation and its errors; the handle's counter is what was delivered if and only if rows were, a block fetch found none, or it was 0 before; the caller's own count always is, and the caller's own statuses say so, with info exactly when an ABSOLUTE was clamped, and the first one also when there was no row |
| SqlLexer.NextUnitShift | src/query_parser.c:1483-1607 | a lexical unit depends only on the text from a point where a dollar quote may open |
| SqlLexer.NextUnitPrefix | src/query_parser.c:1483-1607 | a unit that ends within a prefix of the text is a unit of the prefix |
| SqlLexer.NextUnitOvershoot | src/query_parser.c:1483-1607 | a unit that reaches across a blank or a semicolon leaves something open before it |
| SqlLexer.IdentifierCharacters | src/query_parser.c:48-57 | identifiers are made of the 26 letters in either case, underscores and, but for their first character, digits |
| StatementSplitter.SplitIsStable | src/query_parser.c:1457-1618 | every fragment is non-empty, trimmed, and splits into itself |
| StatementSplitter.SplitIsCompositional | src/query_parser.c:1457-1618 | splitting a + ";" + b is splitting a, then b, whenever a leaves nothing open |
| StatementSplitter.PiecesAreUnique | src/query_parser.c:1483-1607 | the pieces are the one and only way to cut the text at semicolons into texts that cannot be cut further and leave nothing open |
| StatementSplitter.PiecesAtomic | src/query_parser.c:1483-1607 | no piece can be cut again and all but the last are closed |
| StatementSplitter.PiecesJoin | src/query_parser.c:1483-1607 | the pieces joined by semicolons are the text |
| StatementSplitter.SplitKeepsMarkers | src/query_parser.c:1457-1618 | the markers of the fragments add up to those of the text |
| StatementSplitter.TrimKeepsLexing | src/query_parser.c:1419-1433 | trimming a piece changes neither that it is one piece nor its markers |
| StatementSplitter.TrimDropsBlanks | src/query_parser.c:1416-1432 | trimming takes away spaces, tabs and line ends at either end and nothing else, and leaves none there |
| StatementSplitter.AppendRange | src/query_parser.c:1415-1455 | appends the trimmed range, unless nothing is left of it |
| StatementSplitter.MatchDollarQuoteOpen | src/query_parser.c:86-107 | the length of an opening $tag$, or 0 |
| StatementSplitter.SkipDollarBody | src/query_parser.c:1502-1516 | ends just behind the first matching delimiter, or at the end of the text |
| StatementSplitter.Advance | src/query_parser.c:1483-1607 | one turn of the loop is one lexical unit, with the nesting depth of comments |
| StatementSplitter.SplitStatements | src/query_parser.c:1457-1618 | the loop yields exactly the split |
| QueryScanner.QueryAnalyze | src/query_parser.c:1170-1225 | the loop is the scan as a function, with everything nested in escapes; every marker gets the next number and what is written or recorded carries the number of its own "?"; where nothing is rewritten the text comes through unchanged but for numbers, and the states visited are the splitter's if and only if no marker met stands directly before a dollar quote |
| LexerAgreement.LexersAgree | src/query_parser.c:1483-1607 | of the two lexers that decide by the input, the one that takes "??" as a unit visits only states and comment depths that the splitter visits, and the splitter stops elsewhere only inside such a pair |
| LexerAgreement.ScanUnitAgrees | src/query_parser.c:67-74 | one unit decided by the output is the unit decided by the input if and only if the output does not end in a marker before a dollar quote; then it is one character |
| LexerAgreement.PassAgreesExactly | src/query_parser.c:67-74 | a pass over any text that decides about dollar quotes by what it has written visits the positions, states and comment depths that the input alone decides if and only if no marker met stands directly before a dollar quote |
| LexerAgreement.ScannerAgreesExactly | src/query_parser.c:973-1166 | on a text in which it meets nothing to rewrite, the scanner's output is the text but for the numbers, no call is recorded, and its steps visit the states that the input decides if and only if no marker met stands directly before a dollar quote |
| LexerAgreement.OrdinaryIsRead | src/query_parser.c:973-1166 | where no rewriting and no such marker is met, the pass counts exactly the markers of the text |
| LexerAgreement.PlainIsScanned | src/query_parser.c:1170-1225 | a text with neither rewritings nor such markers comes through unchanged but for the numbers, in the splitter's states, and the scanner consumes exactly its markers |
| LexerAgreement.DollarAfterMarkDisagrees | src/query_parser.c:67-74 | the scanner consumes two markers of "?$$?$$", the splitter's lexer sees one, and they visit different states |
| LexerAgreement.FragmentCountsAddUp | src/query_parser.c:1457-1618 | for a text without rewritings and quoted markers outside literals and comments, every fragment is such a text, and the parameters that the scanner counts in the fragments add up to those it counts in the whole |
| Tokens.TokensAreRead | src/query_parser.c:1457-1618 | a text of tokens (words, symbols, literals, escape strings, quoted names, dollar quotes, line comments, nested block comments, markers, semicolons) is split exactly at its semicolons, holds exactly its markers and leaves nothing open |
| Tokens.UnfinishedIsRead | src/query_parser.c:1457-1618 | a text that ends in a line comment, in block comments nested to any depth, in a quoted name or in a dollar quote is left open, and all of it from there is in the last statement and holds no marker |
| Tokens.TokensAreScanned | src/query_parser.c:1170-1225 | where the scanner finds nothing to rewrite it counts exactly the markers of the tokens and writes the text back |
| Tokens.CommentEndsWithLine | src/query_parser.c:1582-1587 | the semicolon on the line behind a comment ends its statement, for any comment and any text behind |
| Tokens.LineLeads | src/query_parser.c:1582-1587 | the lexers stay in a line comment up to its line feed, meeting no separator and no marker |
| Tokens.InnerLeads | src/query_parser.c:1588-1603 | whatever stands in a block comment, nested comments included, leaves its depth as it was |
| Tokens.NameLeads | src/query_parser.c:1567-1581 | the lexers stay in a quoted name up to its first quote that is not doubled |
| Tokens.DollarLeads | src/query_parser.c:67-105 | a dollar quote ends with the first delimiter of its own tag |
| CallReading.WrittenCallIsRead | src/query_parser.c:634-732 | up to 32 arguments written as a list, markers with casts and balanced literals alike, are read back as they were, up to the closing parenthesis |
| CallReading.ArgumentsAreCapped | src/query_parser.c:634-732 | arguments are added behind those before, and never more than 32 are kept |
| CallReading.ReadArgumentsNumbered | src/query_parser.c:634-732 | the arguments of a list carry increasing numbers of markers consumed in it, in the order of their positions |
| CallTranslation.CallStep | src/query_parser.c:741-860 | one step reads a whole call in any letter case and with any blanks, with or without returned value and list: the head that it writes, the name, the arguments, the count of returned values and the role of the first marker |
| ScannerModel.FunctionTextNumbered | src/query_parser.c:459-486 | a template that reorders, repeats or drops arguments writes only markers with numbers that were consumed |
| ScannerModel.CanOpenAfterRendered | src/query_parser.c:67-74 | the test on output items is the test on the last character of the text written |
| ScannerModel.DecimalStands | src/query_parser.c:305-307 | the digits written for the number of a marker stand for that number, without leading zeros |
| FunctionTemplates.ConcatText | src/query_parser.c:169-181 | CONCAT in any letter case becomes concat of both arguments cast to text |
| FunctionTemplates.LocateText | src/query_parser.c:169-181 | LOCATE of two arguments becomes strpos with the arguments the other way round |
| FunctionTemplates.LocateFromText | src/query_parser.c:169-181 | LOCATE of three arguments searches the second from the third on and counts from its beginning |
| FunctionTemplates.SpaceText | src/query_parser.c:169-181 | SPACE repeats a blank |
| FunctionTemplates.RenamedText | src/query_parser.c:169-181 | SUBSTRING, LENGTH, LCASE, UCASE and IFNULL get their other name, with all arguments in order and separated by commas |
| FunctionTemplates.UnmappedText | src/query_parser.c:532-548 | every other function, and LOCATE with another number of arguments, is called as it was written |
| EscapeModel.StepSound | src/query_parser.c:973-1166 | one step, with every escape nested in it, numbers the markers it consumes on from those before, in the order of their positions, and only adds to the output and the recorded arguments |
| EscapeModel.CollectSound | src/query_parser.c:356-453 | the arguments of a call carry only markers with numbers consumed before their end |
| EscapeModel.ScannedSound | src/query_parser.c:1170-1225 | over a whole text every marker, however deep in an escape, is numbered in the order of the positions, and everything written carries one of those numbers |
| NestedEscapes.FnStep | src/query_parser.c:493-558 | one step reads a printed function escape, whatever is nested in it, and leaves its meaning: each call expanded from the meanings of its arguments, every marker under the next number; a join inside it must hold no "() VALUES ()" of an INSERT |
| NestedEscapes.JoinStep | src/query_parser.c:617-626 | one step reads a printed outer join, whatever is nested in its body, and leaves what the body means |
| NestedEscapes.LikeStep | src/query_parser.c:598-615 | one step turns a printed LIKE escape into ESCAPE and its pattern |
| NestedEscapes.StampStep | src/query_parser.c:566-595 | one step turns a printed date, time or timestamp into the value without the padding behind it, with its cast |
| NestedEscapes.VerbatimReached | src/query_parser.c:1003-1067 | a quoted identifier, an escape string or a comment of any content comes through unchanged and nothing in it is rewritten or numbered |
| NestedEscapes.PartsReached | src/query_parser.c:973-1166 | the scanner steps from the beginning of a printed tree to its end, never stopping at a '}' that closes nothing in it, and leaves its meaning |
| NestedEscapes.PartsCollected | src/query_parser.c:384-437 | collecting printed text inside a call leaves its meaning in the argument, at the same nesting depth |
| NestedEscapes.ArgumentsCollected | src/query_parser.c:356-453 | collecting a printed argument list yields the meanings of its arguments, none for a list of padding, and ends behind its parenthesis |
| EscapeTranslation.TreeIsTranslated | src/query_parser.c:973-1166 | a statement printed from a tree of characters, literals, quoted identifiers, comments, groups, markers and function, outer-join, LIKE and datetime escapes, nested to any depth, is translated into the meaning of the tree if and only if no parenthesis outside the function calls begins "() VALUES ()" in an INSERT, and then its markers are numbered in order; left out are INSERTs with such a run in an outer join inside a function call |
| EscapeTranslation.TranslatedWithoutRuns | src/query_parser.c:973-1166 | every printed statement without such a run, and so every one that is no INSERT, is translated into the meaning of its tree |
| EscapeTranslation.EmptyInsertIsRewritten | src/query_parser.c:880-919 | "insert into t () values ()" is the print of a tree, and its output is not what the tree means |
| EscapeTranslation.NestedExample | src/query_parser.c:493-558 | "{fn ucase({fn lcase(?)})}" stands for upper(lower($1)) |
| EscapeSpelling.HeadRead | src/query_parser.c:932-971 | each of the six keywords, in any letter case and with any blanks around it, opens its own escape |
| EscapeSpelling.KeywordInAnyCase | src/query_parser.c:109-134 | a word is the keyword that it spells if and only if no character of an identifier stands behind it |
| Ascii.LettersFold | src/query_parser.c:115-134 | the 26 capital letters fold to the small ones, and every other character stays |
| EscapeSpelling.FnSpelled | src/query_parser.c:493-558 | a function call is expanded in the same way wherever blanks stand around its keyword, in front of its list and behind it |
| EscapeSpelling.BareFnStep | src/query_parser.c:512-524 | a function without a list leaves its name, and the rest up to the brace is dropped |
| EscapeSpelling.TooManyArguments | src/query_parser.c:526-530 | a list of more than 16 arguments is read and dropped with its function |
| EscapeSpelling.StampSpelled | src/query_parser.c:566-595 | a date, time or timestamp in any spelling becomes its value with its own cast |
| EscapeSpelling.LikeSpelled | src/query_parser.c:598-615 | a LIKE escape in any spelling becomes ESCAPE and its body |
| EscapeSpelling.JoinSpelled | src/query_parser.c:617-626 | the body of an outer join in any spelling is copied from its first character on |
| EscapeSpelling.UnclosedEscape | src/query_parser.c:566-615 | a datetime or LIKE escape that nothing closes takes the rest of the text |
| EscapeSpelling.OtherBrace | src/query_parser.c:962-965 | a brace behind which no escape begins stands for itself |
| EscapeSpelling.IdentityStep | src/query_parser.c:979-990 | @@identity in any letter case, as a whole word, becomes lastval() |
| EscapeSpelling.RunStep | src/query_parser.c:863-919 | in an INSERT two empty lists around VALUES, in any letter case and with any blanks, become DEFAULT VALUES |
| EscapeSpelling.InsertSpelled | src/query_parser.c:863-872 | a text that begins with INSERT in any letter case, behind any blanks, is an INSERT |
| QueryScanner.Scanner.MaybeRewriteInsertDefaultValues | src/query_parser.c:880-919 | rewrites exactly an empty column list followed by an empty VALUES list, and ends behind it |
| QueryScanner.Scanner.ConsumeMarker | src/query_parser.c:285-301 | the marker at the current position gets the next number and its role |
| EscapeReading.CollectCallReads | src/query_parser.c:356-453 | where no unit of a call outside literals and comments is rewritten, the output is as before, it fails exactly when there are too many arguments, and the arguments are the text up to the closing parenthesis, scanned and cut at its top-level commas |
| EscapeReading.CollectReads | src/query_parser.c:384-437 | the same from inside a call on, with what was collected before |
| QueryScanner.Scanner.CollectUntilClosed | src/query_parser.c:384-437 | the loop is the collection as a function: arguments, the scan behind them, and whether there was room |
| QueryScanner.Scanner.EmitFunctionTemplate | src/query_parser.c:459-486 | "$N" stands for the argument N, "$*" for all of them joined |
| QueryScanner.Scanner.HandleDatetimeEscape | src/query_parser.c:566-595 | the body up to the brace without trailing padding, then the cast |
| QueryScanner.Scanner.HandleLikeEscape | src/query_parser.c:598-615 | ESCAPE and the body up to the brace |
| EscapeReading.CopyBodyReads | src/query_parser.c:336-347 | where no unit of a body outside literals and comments is rewritten, copying it stops behind its first closing brace outside literals and comments and leaves the body, scanned |
| QueryScanner.Scanner.CopyEscapeBody | src/query_parser.c:336-347 | the loop is the copying as a function, with escapes nested in the body |
| QueryScanner.Scanner.ReadLiteral | src/query_parser.c:690-717 | a literal argument up to its top-level comma or parenthesis, at most 127 characters, without trailing padding |
| QueryScanner.Scanner.ParseCallArgument | src/query_parser.c:656-717 | a marker argument takes the next number and its cast; anything else takes none and is copied |
| QueryScanner.Scanner.ParseCallArguments | src/query_parser.c:634-732 | arguments, consumed markers, roles and end are those of the list |
| QueryScanner.Scanner.ReadReturnValue | src/query_parser.c:741-772 | a leading marker is consumed as return value with the next number |
| QueryScanner.Scanner.ScanNormal | src/query_parser.c:1003-1067 | one unit outside literals, copied |
| QueryScanner.Scanner.ScanMark | src/query_parser.c:993-1002 | "??" becomes a plain question mark, a single one the next marker |
| Positional.MulAddExact | src/type_mapping.c:290-303 | multiplying the byte array by ten and adding a digit is exact up to the carry, which never exceeds 9 |
| Positional.Div10Exact | src/type_mapping.c:335-350 | long division yields quotient and last digit of the 128-bit value, every quotient fitting a byte |
| Positional.PaddedDigitsUnique | src/type_mapping.c:358-376 | digits padded to the length of any representation are that representation |
| NumericText.CollectDecimal | src/type_mapping.c:254-286 | which digits of a decimal text are stored, with what scale, and when whole digits are dropped |
| NumericText.SpacesSkipped | src/type_mapping.c:230-235 | leading white space, all six characters of it and nothing else, is skipped |
| NumericText.SignRead | src/type_mapping.c:237-244 | one sign in front of the digits decides the sign and nothing else; plus is the default |
| NumericText.NumberEnds | src/type_mapping.c:254-286 | the number ends at the first character that is neither a digit nor its decimal point |
| NumericText.OverflowIsExact | src/type_mapping.c:254-303 | the mantissa is the unscaled value modulo 2^128 and the flag is set if and only if it needs more |
| NumericText.FormatAfterParse | src/type_mapping.c:218-382 | canonical text with at most 48 stored digits is printed as it was written if and only if its unscaled value is below 2^128 |
| NumericText.ParseAfterFormat | src/type_mapping.c:218-382 | sign, scale and all 16 bytes are restored if and only if the scale is at most 48 and the precision covers the mantissa; reading a printed number never overflows |
| NumericText.PrintedNumberFits | src/type_mapping.c:306-382 | what is printed never needs more than 128 bits, for every scale from 0 on |
| NumericText.ScaleBelowZero | src/type_mapping.c:254-286 | beyond 48 significant whole digits each counts the signed-byte scale down; up to 176 of them the scale is negative if and only if there are more than 48 |
| NumericDriver.SqlNumeric.MultiplyByTenAndAdd | src/type_mapping.c:290-303 | the in-place loop multiplies by ten and adds exactly, up to its carry |
| NumericDriver.SqlNumeric.StoreDigits | src/type_mapping.c:288-303 | the accumulated bytes are the number modulo 2^128, with the exact overflow |
| NumericDriver.SqlNumeric.CollectDigits | src/type_mapping.c:254-286 | digits, scale and dropped flag of the collecting loop |
| NumericDriver.SqlNumeric.ParseNumericText | src/type_mapping.c:218-304 | sign, precision, scale, mantissa and overflow of the parsed text |
| NumericDriver.SqlNumeric.DivideWindow | src/type_mapping.c:335-350 | divides in place over a shrinking window; every byte outside it is zero |
| NumericDriver.SqlNumeric.ExtractDigits | src/type_mapping.c:327-350 | the decimal digits of the mantissa, least significant first, up to the limit |
| NumericDriver.SqlNumeric.WriteDigits | src/type_mapping.c:365-376 | writes a range of digits downwards, zeros for those that are missing |
| NumericDriver.SqlNumeric.FormatNumericText | src/type_mapping.c:306-382 | refuses a small buffer; for every scale from 0 to 127 the text fits 256 characters and is the number |
| Utf.DecodeAfterEncode | src/type_mapping.c:396-542 | every sequence of 16-bit units, lone surrogates included, survives UTF-8 |
| Utf.EncodeAfterDecode | src/type_mapping.c:396-542 | every well-formed UTF-8 string survives UTF-16 |
| Utf.HeadDecodes | src/type_mapping.c:426-462 | a lead byte and the bytes that it asks for give one code point, whatever these bytes are |
| Utf.OwnValueDecodes | src/type_mapping.c:426-462 | a byte that leads nothing, or more than is left, stands for the unit of its own value |
| Utf.EncodedIsWellFormed | src/type_mapping.c:482-542 | units encode to well-formed UTF-8 if and only if no surrogate among them stands alone |
| Utf.TruncationKeepsCharacters | src/results.c:1160-1178 | the copied units are the longest prefix that fits without splitting a pair, and transcode back to a prefix of the source |
| Utf.CutIsBoundary | src/results.c:1166-1178 | a cut that splits no pair falls between two characters of the source |
| Utf.FittingIsCopied | src/results.c:1160-1178 | text is copied whole if and only if it fits, and otherwise up to the room or one unit less |
| TranscodingLoops.Utf8ToUtf16 | src/type_mapping.c:396-480 | decodes any bytes, never emitting more units than bytes consumed |
| TranscodingLoops.DecodeSequence | src/type_mapping.c:426-462 | one sequence, or its lead byte alone when it runs past the end |
| TranscodingLoops.Utf16ToUtf8 | src/type_mapping.c:482-542 | encodes any units within four bytes each |
| TranscodingLoops.DeliverWideText | src/results.c:1132-1204 | the full length is reported, the units that fit beside the terminator are copied, and nothing behind is touched |
| TranscodingLoops.InMemoryAt | src/results.c:1160-1190 | every delivered unit stands in two bytes, the low one first |
| TranscodingLoops.RoomIsLargest | src/results.c:1150-1165 | as many units are delivered as have room beside two bytes of terminator |
| DiagnosticPaging.PagingLosesNothing | src/odbc_api.c:719-815 | reading records 1, 2, 3, ... with one buffer size until no-data or the largest 16-bit number returns all stored messages if and only if no text is left on the pages behind that number |
| DiagnosticPaging.RetrievedIsPage | src/odbc_api.c:739-818 | a call returns the SQLSTATE and native error of the record of its page, the length of the page, as much of its text as the buffer takes, and truncation if and only if that is less; a number behind the last page finds nothing |
| DiagnosticPaging.PageSizeIsAgreed | src/odbc_api.c:719-737 | the page size is fixed by the last call for record 1 whose buffer held any text, or by the first call at all; every other call keeps it |
| DiagnosticPaging.InvalidExactlyBelowOne | src/odbc_api.c:686-688 | exactly the record numbers below 1 are refused, and they agree on nothing |
| DiagnosticPaging.ReadAllPages | src/odbc_api.c:719-815 | the calls return the pages of the records one after the other, as far as 16-bit numbers reach |
| DiagnosticPaging.NumbersMatchChunks | src/odbc_api.c:739-769 | a number finds a chunk if and only if it is at most the number of chunks, and it is the number of that chunk |
| DiagnosticPaging.ChunksHaveNumbers | src/odbc_api.c:739-769 | every chunk of every record has a number that finds it |
| DiagnosticPaging.LocateIsPage | src/odbc_api.c:739-795 | a record number is an index into the pages in reading order |
| DiagnosticPaging.ChunksCounted | src/odbc_api.c:750-756 | the rounded-up quotient counts the chunks; an empty message has one |
| DiagnosticPaging.RetrievalIsIdempotent | src/odbc_api.c:719-737 | repeating a call gives the same answer and no record changes |
| DiagnosticHandle.DiagnosticRecords.Clear | src/diagnostics.c:20-36 | forgets all records and the chunk size |
| DiagnosticHandle.DiagnosticRecords.AddRecord | src/diagnostics.c:38-71 | appends one record with defaults, or drops it when the store is full |
| DiagnosticHandle.DiagnosticRecords.GetRecord | src/diagnostics.c:73-105 | finds exactly the stored record numbers |
| DiagnosticHandle.DiagnosticRecords.GetDiagRec | src/odbc_api.c:673-818 | chunk size, chunk, length and truncation of one call |
| DiagnosticHandle.DiagnosticRecords.LocateChunk | src/odbc_api.c:739-769 | the walk finds the record and chunk of a number |
| DiagnosticHandle.DiagnosticRecords.SliceChunk | src/odbc_api.c:781-815 | the part of a chunk that fits the buffer, and the full length of the chunk |
| ConnectionStrings.PrintThenParse | src/odbc_api.c:584-628 | what is printed restores server, port, database, user name and sslmode of every connection whose values are plain; the password is not printed |
| ConnectionStrings.RestoredExactlyWhenPlain | src/connection_string.c:220-309 | a value printed alone is restored if and only if it needs no braces |
| ConnectionStrings.BracesKeepValue | src/connection_string.c:269-283 | braces carry any value without a closing brace, semicolons and blanks included |
| ConnectionStrings.ParseField | src/connection_string.c:220-309 | a printed pair stores exactly its value under its key |
| ConnectionStrings.ParsePair | src/connection_string.c:220-309 | a pair stores its value under its key whatever semicolons and blanks stand in front and whatever blanks surround key and value; a key is cut off at 255 characters |
| ConnectionStrings.ParseBracedPair | src/connection_string.c:220-309 | so does a value in braces; without a closing one it takes the rest of the text |
| ConnectionStrings.NamelessPair | src/connection_string.c:220-309 | a pair without a key is passed over |
| ConnectionStrings.NoPair | src/connection_string.c:227-238 | text without an equals sign stores nothing |
| ConnectionStrings.PrintFits | src/odbc_api.c:584-628 | the printed text never fills the 2048-character buffer |
| ConnectionStrings.StoreSetsNamedField | src/connection_string.c:36-184 | every field is afterwards the cut value when the key is one of its names in any letter case, and as before otherwise |
| ConnectionParameters.Parameters.StoreParameter | src/connection_string.c:36-184 | field by field: the cut value under the field's own keywords, unchanged under every other |
| ConnectionParameters.Parameters.ParseString | src/connection_string.c:186-309 | the nested loops store the pairs one after the other; a key without '=' ends the parsing |
| ConnectionParameters.Parameters.ScanBraced | src/connection_string.c:269-283 | a value in braces and the text behind it |
| ConnectionParameters.Parameters.ScanBare | src/connection_string.c:284-296 | a value up to the semicolon without trailing blanks |
| ConnectionParameters.Parameters.BuildOutput | src/odbc_api.c:584-628 | the fields that are set, in order, without the last semicolon |
| ByteaText.HexRoundTrip | src/parameter.c:471-487 | a hex-encoded binary parameter decodes to the same bytes |
| ByteaText.EscapeRoundTrip | src/results.c:150-162 | what the server writes in escape format is decoded to the same bytes and never taken for hex |
| ByteaText.EitherCaseIsRead | src/results.c:163-190 | hex text in either letter case decodes to its bytes, up to the first pair that is not hexadecimal |
| ByteaText.HexDigitsAre | src/results.c:141-148 | the hexadecimal digits are the sixteen in either letter case, each with its place as its value |
| ByteaText.EscapeUnitIs | src/results.c:190-215 | a backslash stands for itself unless another one or three octal digits follow |
| ByteaText.EncodeBinary | src/parameter.c:471-487 | the encoded text and its terminator fill the buffer exactly |
| ByteaText.DecodeByteaText | src/results.c:163-215 | the counting pass equals the filling pass, and nothing behind is written |
| QuotedLiterals.AppendEscapedLiteral | src/catalog.c:109-125 | for any remaining size, 0 included, where the limit wraps around: the memory afterwards is the one before with the doubling of the longest prefix that fits the limit and a terminator written at the start, and nothing else |
| QuotedLiterals.AppendQuoted | src/catalog.c:150-156 | the doubled value and its closing quote, wherever the clause in front of it has ended; nothing else is written |
| QuotedLiterals.AppendFilter | src/catalog.c:131-183 | whether or not the buffer has room: what lies outside the ranges of WritesStayInside keeps its content, and where the literal finds room the memory afterwards is the one before with the clause written at the offset, in full whenever it fits and always terminated |
| QuotedLiterals.FilteredInside | src/catalog.c:131-183 | the three writes of a filter whose literal finds room, each over the terminator of the one before, amount to one stretch of text |
| QuotedLiterals.WritesStayInside | src/catalog.c:131-183 | with remaining sizes that wrap around as unsigned numbers do, every range that a chain of filters writes lies inside the buffer if and only if what stands in front of each value fits with one character to spare |
| QuotedLiterals.RangesAreWritten | src/catalog.c:131-183 | for a filter that finds room the ranges are exactly the stretch that the filter writes |
| QuotedLiterals.LongPatternLeavesBuffer | src/catalog.c:131-183 | an 8192-character buffer, a schema pattern at least that long with a 16-bit length, and any table pattern: a write leaves the buffer |
| QuotedLiterals.FitIsLongest | src/catalog.c:109-125 | exactly the prefixes up to that one fit |
| QuotedLiterals.MeasureStringLiteral | src/query_parser.c:1294-1313 | the characters of a literal and where it ends |
| QuotedLiterals.MeasureAfterDoubling | src/query_parser.c:1294-1313 | measuring a written literal gives the original length and stops behind it, if and only if no quote follows |
| LiteralLexing.WrittenLiteralIsOpaque | src/query_parser.c:1483-1607 | the driver's lexers pass over an intact literal whole, wherever it stands: it ends no statement, holds no marker and leaves nothing open |
| LiteralLexing.LiteralEndsWhereWritten | src/catalog.c:103-125 | the lexer finds the end of a written literal where it was written if and only if backslashes are plain text or none of the value acts on a quote |
| LiteralLexing.ClosedExactlyWhenIntact | src/catalog.c:103-125 | a written literal leaves nothing open if and only if the same holds |
| LiteralLexing.LiteralEndsStatement | src/query_parser.c:1457-1618 | the semicolon behind a written literal ends its statement, and the rest is split as if alone, if and only if the same holds |
| LiteralLexing.BackslashSwallowsSemicolon | src/catalog.c:103-125 | with special backslashes the literal of one backslash stays open and swallows the semicolon behind it |
| LiteralLexing.WrittenLiteralIsOneFragment | src/query_parser.c:1457-1618 | an intact written literal is one statement |

## Left out

- libpq, sockets, notices, COPY and allocation failures: foreign calls; the answers of the server are parameters.
- Lost connections, disconnecting inside a transaction, commands exempt from transactions and large-object transactions: runs stay inside one connected session.
- SQL_ADD and SQLBulkOperations: added rows have no ctid in the result. In the model every operation of SQLSetPos but the four named ones is refused.
- Savepoints of the application: their effect on the overlay is modelled; the parsing of SAVEPOINT and ROLLBACK TO and their place on the server's savepoint stack are not.
- StatementHandle.Statement.CollectAssignments: the conversion of bound buffers is not modelled. A SET clause of more than 2047 characters is the case of a refused update, HY000 and no change, but in a transaction it breaks nothing since nothing is sent; a column bound twice is left to the server's refusal.
- StatementHandle.Statement.Fetch: the status of a row whose value was cut off, a statement without a result and applications without a status array or counter are not modelled; rows are delivered as values.
- StatementHandle.Statement.ExtendedFetch: the caller's status array is not the one bound to the handle, and the status of a row whose value was cut off is not modelled.
- StatementHandle.Statement.KeysetSnapshotSavepoint: names are of any length, where the source's slot holds 63 characters; its parser ignores a savepoint command with a longer name.
- CursorSessions.MixedRunInStep: statements keep the law of the table that a ctid is never used again; VACUUM, which lets the server reuse one, is not modelled.
- EscapeTranslation.TreeIsTranslated: trees hold no call escapes, dollar quotes or '@'; what those leave is the function `EscapeModel.Escaped`, which the scanner is proved equal to. An INSERT with "() VALUES ()" in an outer join inside a function call is left out.
- NestedEscapes.FnStep: the same for a join inside the call.
- QueryScanner.Scanner.ConsumeMarker: the cast suffix of a parameter is not modelled.
- QueryScanner.Scanner.ScanNormal: the MS Access boolean rewrite, a local edit of the output in front of a ')', is not modelled.
- NumericDriver.SqlNumeric.FormatNumericText: negative scales are excluded, because there the source reads outside its array of digits; `ScaleBelowZero` says when parsing produces one.
- QuotedLiterals.AppendEscapedLiteral: the memory around the buffer is part of the array, which reaches as far as the writes go; what a machine does behind the end of its memory is not modelled.
- QuotedLiterals.AppendFilter: the same, with the buffer at the beginning of the memory.
- DiagnosticHandle.DiagnosticRecords.GetDiagRec: missing output pointers are not modelled; the text is returned as a string.
- TranscodingLoops.DeliverWideText: the line-feed expansion and the hex text of bytea columns before the delivery are not modelled.
- ConnectionParameters.Parameters.StoreParameter: keywords that set numbers and flags leave the modelled fields alone; a DSN is taken as unknown to odbc.ini and then names the database; the character arrays of a connection are strings with the arrays' capacities.
- Text is taken to hold no NUL character, and positions and lengths are unbounded integers.
- Catalog SQL text, information and type tables, descriptors, data-at-execution and array execution: many easy members.
