# Verified models of ILUVTrade's stateful protocols

This Dafny project models the parts of ILUVTrade that are protocols, ledgers and long loops, and proves
what they promise, over all inputs, all interleavings and all failures. `dafny verify dfyconfig.toml`
checks all of it.

Each part exists twice. Once as functions over values, about which the properties are proved; and once
in the source's own form (classes whose fields are updated in place, loops, early returns), with every
method proved to compute exactly what the functions say.

| file | subject |
|---|---|
| SessionProtocol, SessionOutcomes, SessionRunner, SessionLauncher | a trading session: users and runner threads on one row, any interleaving; what its requests and runs come to; and what one process's launcher adds |
| Projection | the session's tables, rewritten at irregular records from the engine's book |
| CanonicalJson, AuditHash, AuditChain, AuditTampering | the audit hash chain: what is hashed, appending, verifying, the backfill, and what tampering looks like |
| RowExamination, RowReading, DuplicatesAndOrder, CleaningFile, CleaningLogs | cleaning an uploaded file: its rows cell by cell, duplicates and order, the loop, and what it logs |
| Spacing, SpacingMeasures, Ingest | the declared bar interval, the measure gaps are taken in, and moving start-stamped bars to their end |
| Decimals, Strategies, TradingRules | the three strategies, with capture and restore; how decimals are spelled and read; and when the strategies trade |
| RateLimit | the fixed-window limiter with its lazy sweep |
| JobQueue | the backtest queue and its workers |
| Marketplace, MarketplaceService | listings, purchases, entitlements, refunds, payouts |
| JsonLines | JSON Lines objects: writing, and verified reading in chunks |
| Backup | the recovery backup, step by step |
| Ordering, Numerals, Wrappers | the order of strings; whole numbers in digits; Option and Result |

## How the model is set up

- A database transaction is one atomic step. Users, threads and workers interleave freely between
  transactions, and an exception may be raised in any of them.
- Time, file contents, what a provider or a tool answers, and whether a step fails are arbitrary:
  parameters, or choices made nondeterministically.
- The digest is any function without collisions; that the genesis link is never an event's hash is
  derived. The audit chain's canonical JSON and the decimals of a captured state are written out and read
  back character by character; JSON rows are any faithful encoding.
- Instants are whole microseconds. The strategies' decimals are an unscaled integer and an exponent, and
  what is computed from them, like cleaned prices and money, an exact rational. The bands compare squares
  instead of square roots, which is shown to be the same comparison.
- A zone is its offset at every instant and the civil date its clock shows. A wall-clock label names an
  instant only if its zone shows it at no other, as reading it requires.
- A strategy is fed bars only with parameters within the bounds the registry enforces: windows are not
  empty and the entry threshold is positive.

## Where the code does not do what its documentation says

The model follows the code. Each of these is a lemma, with the exact condition where there is one.

- HALTED is documented as final. The exception handler of a second runner writes FAILED over it, and
  another pending write can then make it PAUSED (HaltedIsNotAbsorbing). It is final exactly as long as no
  handler writes (HaltedExactly), and KillIsFinal holds always.
- One runner per session is promised. A resume that commits before the paused runner has finished breaks
  it, and nothing else does (ExclusionExactly), where a second process or a direct call of `run_session`
  can start the other runner. Within one process, the default, the launcher does nothing while the old
  thread is alive: the promise holds (OneRunnerAlive), and it is the resume that is lost
  (EarlyResumeIsLost), and the session with it unless that thread was already writing PAUSED
  (EarlyResumeStopsTheSession).
- A stop request is lost when a runner is already carrying PAUSED to its last write, and only then
  (StopHonouredExactly).
- Deleting an audit event is described as producing a run of breaks. It produces exactly two, both at the
  following event (DeletionReported).
- KEEP_LAST promises the last row of each key. A late, out-of-order repetition removes the row and is
  then rejected itself (KeepLastKeepsExactly).
- The audit writer's documentation lists an altered row among what is detected. The row's own hash
  detects it wherever it now belongs (EditsReportedExactly); but an organization whose last row was edited
  into another organization reports nothing itself (MovedRowReports).
- The limiter's sweep compares window numbers of different lengths, so a short policy can wipe the
  counters of a long one (ToldTheTruthExactly, ShortWindowForgetsLong); and the retry time is cut to whole
  seconds, so waiting that long may not be enough (RetrySucceedsExactly).
- A job's terminal state can be overwritten if orphans are put back while a worker still runs, exactly
  when it failed under a worker on its way to store a result (TerminalStandsExactly, RequeueUnderAWorker).
- A session replayed for fewer records keeps the later rows of the longer run (ShorterReplayExactly).
- The backup looks at the running services once and at the database's connections twice. Whoever still has
  a connection at the second look is noticed, a service as well (LastsUnlessOneLeaves). A service that was
  started, connected, wrote and has stopped again is not, and the bundle may be of no state at all
  (OneStateExactly, WriterComesAndGoes). A client that did so is not either; the bundle is then the state
  at the dump, but perhaps no longer the deployment's (LastedExactly, ClientAloneOutdates).

## Model

| member | source | states |
|---|---|---|
| SessionProtocol.ClaimsArePaidFor | backend/iluvtrade/trading/sessions.py:271-365 | In every interleaving of users and runner threads, start succeeds at most once and no claim is made that a successful start or resume did not pay for. |
| SessionProtocol.ExclusionExactly | backend/iluvtrade/trading/runner.py:187-215 | At every moment of an interleaving at most one runner owns the session or may come to own it, if and only if no resume takes effect while a runner is between its claim and its last write. |
| SessionProtocol.TwoRunnersAfterEarlyResume | backend/iluvtrade/trading/sessions.py:381-401 | The failing half, concretely: a resume before the paused runner has finished puts two runners, of two processes or one called directly, inside the record loop at once. |
| SessionLauncher.OneRunnerAlive | backend/iluvtrade/trading/runner.py:487-508 | Within one process, which launches a thread only when none is alive, at most one runner is alive at every moment of every interleaving, whenever anybody resumes. |
| SessionLauncher.EarlyResumeIsLost | backend/iluvtrade/trading/runner.py:487-508 | The price of that guard: a resume that commits while the paused runner has not finished is lost. Until somebody resumes again no runner claims the session, the old one advances at most one more record, and once it has ended the session is no longer STARTING. |
| SessionLauncher.EarlyResumeStopsTheSession | backend/iluvtrade/trading/runner.py:152-159 | Unless the old runner was already carrying PAUSED to its last write, that session can never be resumed again either. |
| SessionProtocol.KillIsFinal | backend/iluvtrade/trading/sessions.py:424-440 | After the kill switch commits, no sequence of user actions, runner steps, pending last writes or exception handlers puts the session in CREATED, STARTING or RUNNING, and nothing more is started, resumed or claimed. |
| SessionProtocol.HaltedExactly | backend/iluvtrade/trading/runner.py:518-528 | From the kill on, the session reads HALTED at every moment of an interleaving if and only if no exception handler writes in it. |
| SessionProtocol.HaltedIsNotAbsorbing | backend/iluvtrade/trading/runner.py:518-528 | The handler writes FAILED over HALTED, after which a pending last write can make the row read PAUSED; the kill-switch column alone refuses the resume. |
| SessionProtocol.AtMostOneMoreRecord | backend/iluvtrade/trading/runner.py:312-324 | While the status is not on its way to RUNNING and nobody resumes, a runner advances at most the one record it had already polled for. |
| SessionProtocol.KillStopsRecords | backend/iluvtrade/trading/sessions.py:434-438 | After the kill switch every runner, in every interleaving, advances at most one more record. |
| SessionProtocol.PauseOrStopHonoured | backend/iluvtrade/trading/sessions.py:368-421 | A pause or stop that takes effect is honoured within one record, until somebody resumes. |
| SessionProtocol.StopHonouredExactly | backend/iluvtrade/trading/runner.py:452-455 | After any history, a stop request keeps the session down in every continuation if and only if no runner was already carrying PAUSED to its last write. |
| SessionOutcomes.StopStaysDownExactly | backend/iluvtrade/trading/sessions.py:404-421 | A stop asked of any session leaves it on its way down, and down it stays in every continuation, if and only if no runner is already carrying PAUSED to its last write (a halted session stays down in any case). |
| SessionOutcomes.PauseTakes | backend/iluvtrade/trading/sessions.py:368-378 | After a pause no row reads RUNNING: a running session is PAUSED and every other is as it was; then every runner advances at most one more record until somebody resumes. |
| SessionOutcomes.KillTakes | backend/iluvtrade/trading/sessions.py:424-440 | The kill switch halts every session, whatever its status, and after any continuation a resume changes nothing. |
| SessionOutcomes.GoesExactly | backend/iluvtrade/trading/sessions.py:344-401 | A start of a CREATED session and a resume of a PAUSED one not killed set it going: the next thread launched claims it and stands before the first record. Anywhere else the two change nothing at all. |
| SessionOutcomes.ParksAsAsked | backend/iluvtrade/trading/runner.py:312-324 | A runner that polls and then makes its last write parks the session as it found it asked: PAUSED where it read PAUSED, HALTED where HALTED, STOPPED otherwise and at the end of the data; where it read RUNNING it goes on. |
| SessionOutcomes.FailuresShow | backend/iluvtrade/trading/runner.py:518-528 | A strategy that fails on a record ends the session FAILED unless it was halted; an exception that is handled ends it FAILED in any case. |
| SessionOutcomes.RunsToTheEnd | backend/iluvtrade/trading/runner.py:312-455 | Left alone, a session that is started advances every record once and ends STOPPED. |
| SessionRunner.TradingSession.Transition | backend/iluvtrade/trading/sessions.py:271-341 | The conditional update: it takes effect, and says so, exactly when the status was among the allowed ones. |
| SessionRunner.TradingSession.Request | backend/iluvtrade/trading/sessions.py:344-440 | Each of the five user actions changes the row exactly as the protocol says, and raises exactly where it refuses; said of the columns themselves: a stop takes on every session not yet going down, a pause on a running one, the kill switch on all, start and resume only where a session may go. |
| SessionRunner.TradingSession.TryClaim | backend/iluvtrade/trading/runner.py:194-215 | A runner enters its loop only by turning STARTING into RUNNING itself; otherwise it ends without touching the row. |
| SessionRunner.TradingSession.ShouldContinue | backend/iluvtrade/trading/runner.py:152-159 | A poll goes on exactly when it read RUNNING; otherwise the runner leaves with the terminal status for what it read. |
| SessionRunner.TradingSession.FinishSession | backend/iluvtrade/trading/runner.py:452-455 | The last write sets the terminal status, except over HALTED. |
| SessionRunner.TradingSession.RunSession | backend/iluvtrade/trading/runner.py:175-476 | One whole run, with anything happening between its transactions and an exception possible at each: it takes only steps of the protocol, and has advanced exactly the number of records it reports. |
| Projection.ProjectingWritesBook | backend/iluvtrade/trading/projection.py:79-187 | Whatever rows of the run are stored, one projection writes exactly the engine book over them and leaves the rows beyond it alone. |
| Projection.ScheduleDoesNotMatter | backend/iluvtrade/trading/runner.py:344-363 | Projecting any moments of a run, in any number and order, and then its last one, leaves exactly the tables of that one final projection. |
| Projection.ProjectingTwice | backend/iluvtrade/trading/projection.py:79-187 | Projecting the same book twice changes nothing, whatever the tables held. |
| Projection.ShorterReplayExactly | backend/iluvtrade/trading/projection.py:94-159 | A replay that ends earlier than the run before it leaves the tables of its own final projection if and only if no order or fill rows lie beyond it. |
| Projection.SessionTables.PendingOrders | backend/iluvtrade/trading/projection.py:94-135 | The order rows after the projection; a mismatch is raised exactly when some stored order has another engine id at its sequence. |
| Projection.SessionTables.PendingFills | backend/iluvtrade/trading/projection.py:137-168 | The fill rows after the projection; a mismatch is raised exactly when some stored fill has another engine id at its sequence. |
| Projection.ProjectedHolds | backend/iluvtrade/trading/projection.py:94-187 | A projection without a mismatch leaves every column of every row as the engine has it (absent or empty numbers as "0"): orders with their progress and, as first written, what is fixed; fills as first written; positions and summary; and a mismatch is a stored row whose id is not the engine's at its sequence. |
| Projection.SessionTables.Project | backend/iluvtrade/trading/projection.py:79-187 | One projection on the stored rows: it writes exactly the tables that result, column by column what the engine has, or on a mismatch none of them. |
| Projection.SessionTables.Replay | backend/iluvtrade/trading/runner.py:344-351 | Over the record loop the tables are at all times the whole book of one moment, at most 24 records old and with every current fill. |
| CanonicalJson.PreimageDetermines | backend/iluvtrade/platform/audit.py:163-227 | What the digest is fed determines every covered field and the previous hash: a reader gets back all of them whatever text follows. |
| CanonicalJson.SpelledOut | backend/iluvtrade/platform/audit.py:186-227 | The bytes in full: an object of the eleven fields, each under its own name in the order of the names, nulls as null, strings quoted, separated by commas alone; then a bar and the previous hash. |
| CanonicalJson.EscapesExactly | backend/iluvtrade/platform/audit.py:202-204 | Inside a string exactly the quote, the backslash and the control characters are escaped, each as JSON has it. |
| AuditHash.SchemeIsIdeal | backend/iluvtrade/platform/audit.py:207-227 | For a digest without collisions, the event hash determines its content and link and is never the genesis link (which follows, and is not assumed). |
| AuditChain.ReportExactly | backend/iluvtrade/platform/audit.py:272-333 | The verifier reports nothing exactly when sequences are 1..n and every link and every hash is right. |
| AuditChain.HeadDeterminesHistory | backend/iluvtrade/platform/audit.py:207-350 | Two intact chains with the same head hash have the same length and agree in every covered field, link and hash of every event. |
| AuditTampering.EditsReportedExactly | backend/iluvtrade/platform/audit.py:272-333 | Rows of the table edited in place, however many and in whatever covered fields (sequence and organization included, so also rows trading places): every chain verifies afterwards if and only if nothing was changed. |
| AuditTampering.EditedRowReported | backend/iluvtrade/platform/audit.py:272-333 | Each edited row is reported for its content, by the organization it now claims to belong to. |
| AuditTampering.EditedAlone | backend/iluvtrade/platform/audit.py:272-333 | An edit that keeps number and organization is reported by its own organization at that row and nowhere else, and by no other organization. |
| AuditTampering.MovedRowReports | backend/iluvtrade/platform/audit.py:272-333 | A row edited into another organization: the one it left reports exactly two breaks at the event that followed, or nothing at all if it was the last; the one it joined reports its content. |
| AuditTampering.RehashedExactly | backend/iluvtrade/platform/audit.py:272-333 | A row edited in any covered field with its own hash recomputed goes unreported if and only if it is the last of its chain, keeps its number, and stays in its organization or, being its only row, moves to an organization that has none. |
| AuditTampering.RehashedAlone | backend/iluvtrade/platform/audit.py:272-333 | Within its organization, such an edit of an earlier row is reported at the next row and nowhere else. |
| AuditTampering.DeletedRowExactly | backend/iluvtrade/platform/audit.py:272-333 | After any row is deleted from the table every chain verifies if and only if it was the last of its chain. |
| AuditTampering.InsertedRowExactly | backend/iluvtrade/platform/audit.py:272-333 | After any row is inserted every chain verifies if and only if it is exactly the row that recording would have appended. |
| AuditChain.DeletionReported | backend/iluvtrade/platform/audit.py:272-333 | A deleted event other than the last is reported as exactly two breaks, both at the event that followed it. |
| AuditChain.TruncationUnreported | backend/iluvtrade/platform/audit.py:272-333 | Every prefix of an intact chain verifies: cutting off the end is not reported. |
| AuditChain.SelectIsOrderBy | backend/iluvtrade/platform/audit.py:336-350 | The modelled query returns exactly the organization's rows, ordered by sequence. |
| AuditChain.RecordsKeepChains | backend/iluvtrade/platform/audit.py:97-155 | Any interleaving of records across organizations keeps every chain intact, rewrites nothing, and extends each chain by its own entries in order. |
| AuditChain.BackfillThenRecords | backend/migrations/versions/0002_audit_chain.py:104-141 | The migration's chains, and everything recorded after them, verify. |
| AuditChain.AuditLog.Record | backend/iluvtrade/platform/audit.py:97-155 | Appending writes one row after its organization's head and keeps every chain intact. |
| AuditChain.AuditLog.VerifyChain | backend/iluvtrade/platform/audit.py:272-333 | The verifier's loop computes exactly the report, and reports nothing exactly for an intact chain. |
| AuditChain.Backfill | backend/migrations/versions/0002_audit_chain.py:104-141 | The migration's loop over a map of heads writes exactly the table that recording the rows one by one would have written. |
| RowExamination.ExamineSound | backend/iluvtrade/data/cleaning.py:300-541 | Whatever the row, an accepted bar meets everything its policy asks of prices and extras, and all it logged is under its own line. |
| RowReading.ExamineExactly | backend/iluvtrade/data/cleaning.py:300-541 | A row is accepted if and only if it reaches its required columns, its time and close read, its other prices and its volume read or may be blank, and the prices stand under the policy; and then every column of the bar is its own cell's, or for a blank cell the policy's default. |
| RowReading.ReasonIsTrue | backend/iluvtrade/data/cleaning.py:300-541 | A row is refused only for something that is so of its cells, reason by reason. |
| RowReading.LogExactly | backend/iluvtrade/data/cleaning.py:300-541 | An accepted row logs exactly what was done to it, in order. |
| RowReading.NumberReads | backend/iluvtrade/data/cleaning.py:238-252 | White space around a number and commas anywhere in it make no difference to what it is read as. |
| DuplicatesAndOrder.AdmittedExactly | backend/iluvtrade/data/cleaning.py:544-609 | Under every policy the loop's look-up tables, its popped list and its refusal are exactly a declarative definition: the rows kept are the survivors, and every bar is a row, a rejection or a dropped duplicate. |
| DuplicatesAndOrder.DefaultKeepsMaxima | backend/iluvtrade/data/cleaning.py:544-609 | With KEEP_FIRST and out-of-order dropping, the rows kept are exactly the strict left-to-right maxima of each instrument's valid timestamps. |
| DuplicatesAndOrder.KeepLastKeepsExactly | backend/iluvtrade/data/cleaning.py:567-592 | Under KEEP_LAST with order enforced, a key has a row at the end if and only if its last bar is in order. |
| DuplicatesAndOrder.LateRepetitionLosesKey | backend/iluvtrade/data/cleaning.py:567-592 | A late out-of-order repetition pops the kept row and is then itself rejected: its key ends with no row. |
| CleaningFile.Conserved | backend/iluvtrade/data/cleaning.py:206-236 | For every policy and every file not refused, input rows equal accepted rows plus rejections plus dropped duplicates. |
| CleaningFile.CleanedIsAdmitted | backend/iluvtrade/data/cleaning.py:300-609 | The file's rows are what the duplicate step makes of the valid bars alone: validation and duplicates do not interfere. |
| CleaningFile.FileRowsExactly | backend/iluvtrade/data/cleaning.py:544-609 | A file is refused exactly when the policy refuses duplicates and a kept bar is repeated, and is then empty; otherwise its rows are exactly the survivors of its valid bars. |
| CleaningFile.OutputExactly | backend/iluvtrade/data/cleaning.py:611-627 | The output is the survivors, each once, in strict (timestamp, symbol) order, so no two rows share a key. |
| CleaningFile.CleaningAgainKeepsAll | backend/iluvtrade/data/cleaning.py:544-627 | Fed its own sorted output, under every policy, the duplicate step and the sort keep every row, reject nothing and move nothing. |
| CleaningFile.CountsAreExact | backend/iluvtrade/data/cleaning.py:219-235 | The counters count every rejection and every change, however many the capped logs hold. |
| CleaningLogs.StepLogsExactly | backend/iluvtrade/data/cleaning.py:544-609 | The rejections and displacements of the duplicate step, in order: every repeated or late bar under its own line with its own reason, every displaced row under the line it came from. |
| CleaningLogs.FileLogsExactly | backend/iluvtrade/data/cleaning.py:300-627 | The complete logs of a file: each refused row under its line for its reason, each change to a row, each displaced row, in the file's order; finally that rows were sorted, if and only if they were not in order; and input rows are the lines that are neither the header nor blank. |
| CleaningFile.LineGivesBar | backend/iluvtrade/data/cleaning.py:300-541 | A line of the file gives a bar exactly when it is neither the header nor blank and may be accepted, and the bar is what the line says. |
| CleaningFile.CleaningResult.Reject | backend/iluvtrade/data/cleaning.py:219-222 | A rejection is always counted, and logged while fewer than 500 are. |
| CleaningFile.CleaningResult.Transform | backend/iluvtrade/data/cleaning.py:224-227 | A change is always counted, and logged while fewer than 500 are. |
| CleaningFile.CleaningResult.PopFirst | backend/iluvtrade/data/cleaning.py:568-583 | Popping in place removes exactly the first row with the key. |
| CleaningFile.CleanedFileExactly | backend/iluvtrade/data/cleaning.py:255-629 | For every file of lines and every policy: unless refused, input rows equal output rows plus rejections plus dropped duplicates, and the output is the survivors, each once, in strict order without repeated keys. |
| CleaningFile.Clean | backend/iluvtrade/data/cleaning.py:255-629 | The whole loop, over the result it updates in place: rows, capped logs, exact counts and refusal are exactly those of the declarative run; on the result's own fields nothing is lost, the rows are the survivors in strict order, and every row carries the cells of its own line. |
| Spacing.StepsExactly | backend/iluvtrade/data/temporal.py:487-524 | The pair loop accepts exactly when every gap is the unit one or more times; it counts the pairs exactly one unit apart, and exact plus longer gaps are all the gaps. |
| Spacing.FirstBadGapNamed | backend/iluvtrade/data/temporal.py:498-519 | It refuses at the first bad gap, and says whether that is too short or irregular. |
| Spacing.WholeExactly | backend/iluvtrade/data/temporal.py:505-519 | "The unit one or more times" is the source's test by remainder. |
| Spacing.AcceptedExactly | backend/iluvtrade/data/temporal.py:364-450 | A file is accepted exactly when each instrument's own bars are and the confirmed instruments are exactly the ambiguous ones; the report is then each instrument's own. |
| Spacing.FirstRefusalNamed | backend/iluvtrade/data/temporal.py:411-436 | A file refused for its spacing is refused for the first instrument in name order whose own bars are refused. |
| Spacing.NoInstrumentVouchesForAnother | backend/iluvtrade/data/temporal.py:373-389 | An instrument alone in a file is reported exactly as it is among others. |
| SpacingMeasures.FixedExactly | backend/iluvtrade/data/temporal.py:410-428 | An instrument's bars of a fixed interval are accepted exactly when every gap between consecutive labels is the interval one or more times and no start-stamped wall-clock bar crosses a change of the clock; the gaps being those the zone's clock shows for dates and wall-clock times, and elapsed time for absolute instants. |
| SpacingMeasures.FixedCounts | backend/iluvtrade/data/temporal.py:487-524 | Accepted, the gaps of exactly one interval in that measure are counted, and all others as longer. |
| SpacingMeasures.ClockDecides | backend/iluvtrade/data/temporal.py:416-421 | Two labels one interval apart on the zone's clock are one exact gap, for dates whatever the offset does in between. |
| SpacingMeasures.FixedRefusal | backend/iluvtrade/data/temporal.py:498-519 | The first gap that is not whole decides whether the refusal is of a too short or of an irregular gap. |
| SpacingMeasures.SpanRefusal | backend/iluvtrade/data/temporal.py:422-428 | Where all gaps are whole, the bars are refused exactly when one of them crosses a change of the clock. |
| SpacingMeasures.MonthsExactly | backend/iluvtrade/data/temporal.py:527-563 | Monthly bars are accepted exactly when their civil labels share a time of day and a day (or are always the month's last) and every gap is a positive multiple of the count in months; the exact ones are counted. |
| SpacingMeasures.MonthLengths | backend/iluvtrade/data/temporal.py:539-540 | The months' lengths behind "always the month's last", other than February's. |
| SpacingMeasures.FebruaryLength | backend/iluvtrade/data/temporal.py:539-540 | February has 29 days in years divisible by 4, except centuries not divisible by 400. |
| SpacingMeasures.ReportSays | backend/iluvtrade/data/temporal.py:429-449 | Of each instrument the report gives its bars, its exact and longer gaps and whether it was confirmed, and lists as ambiguous exactly those that never show the interval. |
| SpacingMeasures.ConfirmationRefusal | backend/iluvtrade/data/temporal.py:458-484 | A confirmation is refused for naming an instrument not in the file, then for naming one that needs none, then for leaving out one that does; and only then. |
| Spacing.AcceptedSeries | backend/iluvtrade/data/temporal.py:487-524 | Accepted labels of a fixed interval are strictly increasing and a whole number of intervals apart, and exact plus longer gaps equal bars minus one. |
| Spacing.AcceptedMonths | backend/iluvtrade/data/temporal.py:527-563 | Accepted monthly labels share a time of day and a day (or are always the month's last), increase strictly, and are whole multiples of the interval in months apart. |
| Spacing.IntervalIsDetermined | backend/iluvtrade/data/temporal.py:374-389 | Of all fixed intervals at most one is accepted for a file with bars and no ambiguous instrument. |
| Spacing.EndsBeforeNextStart | backend/iluvtrade/data/temporal.py:566-652 | Moved to its end, an accepted start-stamped bar ends no later than a later bar of its instrument starts: for absolute instants, and on a wall clock for labels that name a single instant, which the others are refused for, in a zone whose clock does not jump ahead by more than one interval and back within it. |
| Spacing.EndsInOrdinaryZone | backend/iluvtrade/data/temporal.py:566-652 | In particular in every zone that changes its offset at most once inside one interval. |
| Spacing.LongJumpsOverlap | backend/iluvtrade/data/temporal.py:566-652 | That bound cannot be dropped: a clock with a longer jump has two labels, each naming a single instant, that are accepted although the second bar starts before the first one is over. |
| Spacing.FixedSteps | backend/iluvtrade/data/temporal.py:487-524 | The loop with its rounding computes exactly the pair count or refusal. |
| Spacing.MonthSteps | backend/iluvtrade/data/temporal.py:527-563 | The loop over civil dates, with its sets of times and days, computes exactly the month count or refusal. |
| Spacing.FindSpanning | backend/iluvtrade/data/temporal.py:566-584 | The loop finds a bar crossing an offset change exactly when there is one. |
| Spacing.CheckSpacing | backend/iluvtrade/data/temporal.py:364-450 | The whole check, loop by loop, returns exactly the specified report or refusal, in the measure the reading calls for. |
| Ingest.MovedDataset | backend/iluvtrade/data/ingest.py:269-303 | A checked and moved dataset: every bar is the cleaned bar at its interval's end and otherwise unchanged, still in strict (timestamp, symbol) order without repeated keys, and no bar ends after the next bar of its instrument starts. |
| Ingest.MovedExactly | backend/iluvtrade/data/ingest.py:269-303 | Whose bars are moved at all: those of an accepted start-stamped version with rows, each by the interval and each logged; where the interval has no fixed length or the engine refuses a bar the version fails and keeps none; any other version stays as it is. |
| Ingest.ImportedFile | backend/iluvtrade/data/ingest.py:243-303 | From the lines of a file to its dataset: cleaned, accepted by the interval check and moved, the bars are in strict order, one for each key, at the ends of their intervals, and none is known before the next bar of its instrument has begun. |
| Ingest.CheckSpacing | backend/iluvtrade/data/ingest.py:243-266 | A refusal fails the version and empties it; acceptance reports and changes nothing. |
| Ingest.ToIntervalEnd | backend/iluvtrade/data/ingest.py:269-303 | Every start-stamped bar is moved by the declared interval and logged; at the first bar that cannot be moved the version fails and keeps none, and the count is what was moved. |
| Decimals.TextReadBack | backend/iluvtrade/alphalab_bridge/strategies.py:112-113 | A decimal written as its text is read back exactly, exponent included, in plain and in scientific notation. |
| Decimals.PlainExactly | backend/iluvtrade/alphalab_bridge/strategies.py:112-113 | The text is plain exactly when the exponent is not positive and the first digit stands no further than six places behind the point; otherwise it is in scientific notation. |
| Decimals.CanonicalExactly | backend/iluvtrade/alphalab_bridge/strategies.py:116-123 | Two parameters have the same canonical spelling if and only if they are the same number. |
| Decimals.CanonicalIsPlain | backend/iluvtrade/alphalab_bridge/strategies.py:116-123 | That spelling is a plain text of the number, never in scientific notation and never with zeros at the end of a fraction. |
| Strategies.RestoreExactly | backend/iluvtrade/alphalab_bridge/strategies.py:126-134 | A captured state is restored exactly, digit for digit, and only under the current version into an instance whose parameters are the same numbers. |
| Strategies.ResumeIsInvisible | backend/iluvtrade/alphalab_bridge/strategies.py:194-207 | For the crossover and the bands, at any point of any stream: capture, restore into a fresh instance and go on gives the intents and the final memory of the uninterrupted run. |
| Strategies.RespelledResumeIsInvisible | backend/iluvtrade/alphalab_bridge/strategies.py:116-207 | Resuming in an instance whose parameters are the same numbers spelled differently is accepted, and gives the same memory and the same intents, targets equal as numbers. |
| Strategies.HoldResumeIsInvisible | backend/iluvtrade/alphalab_bridge/strategies.py:238-248 | The same for buy-and-hold, whose set goes through a sorted list. |
| Strategies.InstrumentsDoNotInterfere | backend/iluvtrade/alphalab_bridge/strategies.py:159-178 | In any interleaved stream an instrument's intents, window and flag are those of a run fed its own bars only. |
| Strategies.WindowIsLastCloses | backend/iluvtrade/alphalab_bridge/strategies.py:161-164 | An instrument's window is exactly its last closes, as many as it holds or as there are. |
| Strategies.TargetsAlternate | backend/iluvtrade/alphalab_bridge/strategies.py:172-177 | An instrument's targets alternate between buying and selling the quantity, and add up to the quantity while long and to nothing while flat. |
| TradingRules.TradesExactly | backend/iluvtrade/alphalab_bridge/strategies.py:142-291 | In any interleaved stream an instrument is held after its bars exactly when its rule, said of the sums of its own last closes, says so, and its intents are exactly a purchase where that begins and a sale where it ends, each with the quantity, strategy and time of its bar. |
| TradingRules.CrossoverIsLongExactly | backend/iluvtrade/alphalab_bridge/strategies.py:159-178 | The crossover is long after at least slow bars of the instrument if and only if the mean of its last fast closes exceeds the mean of its last slow closes. |
| TradingRules.BandsTurnExactly | backend/iluvtrade/alphalab_bridge/strategies.py:270-291 | The bands enter a flat instrument at a close more than entry deviations below the mean, where the deviation is the positive root of the variance, and leave it at the first close that has come back to the mean. |
| Strategies.BuysOnceEach | backend/iluvtrade/alphalab_bridge/strategies.py:221-233 | Buy-and-hold emits exactly one purchase per instrument, at its first bar. |
| Strategies.FarBelowExactly | backend/iluvtrade/alphalab_bridge/strategies.py:279-285 | Comparing squares is the source's comparison with the square root of the variance. |
| Strategies.BuildCrossover | backend/iluvtrade/alphalab_bridge/strategies.py:150-157 | Construction is refused exactly when the fast window is not shorter than the slow one; otherwise the instance is blank. |
| Strategies.MovingAverageCrossover.OnBar | backend/iluvtrade/alphalab_bridge/strategies.py:159-178 | One bar updates the window and the flag in place and emits exactly the step's intent; TradingRules says over a whole stream which way it trades. |
| Strategies.MovingAverageCrossover.RestoreState | backend/iluvtrade/alphalab_bridge/strategies.py:201-207 | A payload is accepted exactly when version and parameters match; a refusal changes nothing. |
| Strategies.MeanReversionBands.OnBar | backend/iluvtrade/alphalab_bridge/strategies.py:270-291 | One bar updates the window and the flag in place and emits exactly the step's intent; TradingRules says over a whole stream which way it trades. |
| Strategies.BuyAndHold.OnBar | backend/iluvtrade/alphalab_bridge/strategies.py:221-233 | One bar updates the set in place and emits exactly the specified intent. |
| Strategies.RunWithStop | backend/iluvtrade/alphalab_bridge/strategies.py:142-207 | On the objects: fed, captured, restored into a fresh instance and fed the rest, the intents are those of one uninterrupted run. |
| RateLimit.NeverOvercounts | backend/iluvtrade/platform/ratelimit.py:174-182 | Whatever the clock does and whatever lengths are mixed, a stored counter is at least one and never exceeds the real number of hits in its window. |
| RateLimit.NeverRefusedEarly | backend/iluvtrade/platform/ratelimit.py:221-227 | A caller is refused only after really exceeding the limit in the window. |
| RateLimit.ToldTheTruthExactly | backend/iluvtrade/platform/ratelimit.py:174-182 | With mixed lengths, the count returned is the real one if and only if no sweep has forgotten hits of that window. |
| RateLimit.ExactDespiteSweeps | backend/iluvtrade/platform/ratelimit.py:174-182 | With one window length and a clock that never goes back, every count returned is the real one, sweeps or not. |
| RateLimit.WindowAcceptsExactly | backend/iluvtrade/platform/ratelimit.py:214-227 | Each window lets through exactly min(limit, hits). |
| RateLimit.AnyIntervalAtMostTwice | backend/iluvtrade/platform/ratelimit.py:214-227 | Any interval as long as a window, wherever it starts, lets through at most twice the limit. |
| RateLimit.ShortWindowForgetsLong | backend/iluvtrade/platform/ratelimit.py:177-178 | With more than 4096 live keys, one hit under a much higher window number wipes them, and a second hit of an old key in the same window is counted as its first. |
| RateLimit.RetrySucceedsExactly | backend/iluvtrade/platform/ratelimit.py:214-227 | A caller refused who comes back exactly when told, and not before, is let through if and only if the time left at the refusal was a whole number of seconds or less than one. |
| RateLimit.InMemoryBackend.Hit | backend/iluvtrade/platform/ratelimit.py:174-182 | One hit is counted in its own window, stored under its key, and sweeps away exactly the old entries of a full table. |
| RateLimit.RateLimiter.Check | backend/iluvtrade/platform/ratelimit.py:214-227 | A hit is refused exactly when its count exceeds the limit, with the retry time; a disabled limiter touches nothing. |
| RateLimit.Replay | backend/iluvtrade/platform/ratelimit.py:214-227 | On the objects, over any history of one policy and any callers: a call passes exactly when it is among its own caller's first limit calls in that window. |
| JobQueue.EveryRunSound | backend/iluvtrade/backtests/worker.py:52-193 | Every run in which orphans are put back only while no worker holds a job: a completed job has exactly one result and no cancellation request, every other has no result, a job in hand is running and in one worker's hands, and attempts stay within max(1, max attempts). |
| JobQueue.TerminalStandsExactly | backend/iluvtrade/backtests/worker.py:52-193 | In any run, requeueing at any time: a job that has ended keeps its status in every continuation if and only if it has not failed under a worker that is on its way to store a result. |
| JobQueue.TerminalStands | backend/iluvtrade/db/models/backtest.py:37-46 | In runs that requeue only while no worker holds a job, a terminal status is never left. |
| JobQueue.RequeueUnderAWorker | backend/iluvtrade/backtests/worker.py:163-193 | Requeueing under a live worker fails its job, and the worker then completes it: FAILED becomes COMPLETED. |
| JobQueue.AttemptsAreClaims | backend/iluvtrade/backtests/service.py:423-425 | The attempts column counts exactly the claims that put the job into a worker's hands. |
| JobQueue.ClaimsAreBounded | backend/iluvtrade/backtests/worker.py:163-193 | No job is claimed more than max(1, max attempts) times, in any run. |
| JobQueue.CancelledNeverCompletes | backend/iluvtrade/backtests/worker.py:133-145 | Once cancellation was requested of a job not completed, it never completes. |
| JobQueue.OneJobPerKey | backend/iluvtrade/backtests/service.py:51-100 | However often a request is repeated, its key has exactly one job. |
| JobQueue.Deployment.SubmitJob | backend/iluvtrade/backtests/service.py:35-121 | Returns the job of this key, new exactly when there was none and the request was valid. |
| JobQueue.Deployment.CancelJob | backend/iluvtrade/backtests/service.py:137-163 | A queued job is cancelled outright, a running one asked to stop, an ended one refused. |
| JobQueue.Deployment.OldestQueued | backend/iluvtrade/backtests/service.py:404-415 | Finds a queued job that none was queued before, or that there is none. |
| JobQueue.Deployment.ClaimNext | backend/iluvtrade/backtests/service.py:395-425 | Claims exactly the oldest queued job, or ends it if it was cancelled. |
| JobQueue.Deployment.StoreResult | backend/iluvtrade/backtests/worker.py:133-153 | Stores the result and completes the job, or drops the result if it was cancelled meanwhile; a failure writes nothing. |
| JobQueue.Deployment.RequeueOrphans | backend/iluvtrade/backtests/worker.py:163-193 | Every running job goes back to the queue or, out of attempts, fails; the count is of those put back. |
| JobQueue.Deployment.ProcessOne | backend/iluvtrade/backtests/worker.py:52-160 | With the deployment acting between its transactions and an exception possible in each, the worker ends up free and the job it claimed has ended, unless the handler itself raised. |
| Marketplace.EveryRunGood | backend/iluvtrade/reddesk/marketplace.py:149-212 | Every run: one current version per listing; every offer and entitlement is a published version of the listing's strategy with evidence from that version or none; each purchase was settled, adds up with a fee of a fifth to the nearest cent, is the only one under its key and granted exactly one entitlement, which is not active once refunded. |
| Marketplace.StepKeepsEntitlement | backend/iluvtrade/reddesk/entitlements.py:214-261 | An entitlement's version moves only when it is rolling, active and advanced, and then to a current version of its listing. |
| Marketplace.EntitlementsOverRuns | backend/iluvtrade/reddesk/entitlements.py:214-317 | Over any run an inactive entitlement never becomes active and a pinned one never changes version. |
| Marketplace.PurchasesOverRuns | backend/iluvtrade/reddesk/marketplace.py:793-883 | A purchase keeps all but its status, and a refund is final. |
| Marketplace.RefundIsFinal | backend/iluvtrade/reddesk/marketplace.py:836-852 | From a refund on, the entitlement of that purchase is never active again. |
| Marketplace.RetryBuysNothing | backend/iluvtrade/reddesk/marketplace.py:591-606 | Repeating a keyed purchase, whatever happened in between, changes nothing. |
| Marketplace.ResolveIsSound | backend/iluvtrade/reddesk/entitlements.py:75-169 | A grant names one published version of the strategy asked for, and the organization owns the strategy or holds a live entitlement to exactly that version from its own, unrefunded purchase. |
| Marketplace.ResolveVersionExactly | backend/iluvtrade/reddesk/entitlements.py:95-128 | A named version is granted to its owner unless it is a draft, and to anybody else exactly when the row the query found is active, begun and not ended. |
| Marketplace.OwnerResolves | backend/iluvtrade/reddesk/entitlements.py:130-150 | A strategy named alone resolves for its owner to its newest published version. |
| Marketplace.LicenceResolves | backend/iluvtrade/reddesk/entitlements.py:152-169 | For anybody else it resolves to the version of the newest of its licences, exactly when that one is good right now. |
| Marketplace.PayoutsAddUp | backend/iluvtrade/reddesk/marketplace.py:917-930 | In any state of the ledger, payouts over adjacent periods add up to the payout over their union. |
| Marketplace.SaleReachesSeller | backend/iluvtrade/reddesk/marketplace.py:886-930 | A sale adds its price and its nearest-cent fee of a fifth to the payout of the seller for the period it falls into, and to no other payout. |
| Marketplace.RefundLeavesPayout | backend/iluvtrade/reddesk/marketplace.py:886-930 | A refund takes exactly its own sale out of the payout of its period and out of no other. |
| Marketplace.ClosedPayoutStands | backend/iluvtrade/reddesk/marketplace.py:886-930 | Over any run whose later sales come after the period: a payout recorded again later differs from the first exactly by the sales of the period refunded in between. |
| MarketplaceService.Service.OfferStrategyVersion | backend/iluvtrade/reddesk/marketplace.py:149-212 | Offering adds or updates the one offer and, asked to, makes it the listing's only current one, every other offer as before; otherwise refused without change. |
| MarketplaceService.PurchaseIsAsPromised | backend/iluvtrade/reddesk/marketplace.py:554-714 | In every state a run can reach, a new purchase leaves one row with the listing's price, the fee and the rest for the seller, and one licence to the version on offer, ending after 30 days, after 365 days or never as the cadence says. |
| MarketplaceService.Service.PurchaseListing | backend/iluvtrade/reddesk/marketplace.py:564-714 | A purchase succeeds exactly when the listing is on sale by somebody else, has a current version and the charge settles, or was made before under its key; its row and licence are as promised column by column, and an unsettled charge leaves no row behind. |
| MarketplaceService.Service.RefundPurchase | backend/iluvtrade/reddesk/marketplace.py:793-883 | A refund marks the purchase and revokes what it granted; refused exactly as specified. |
| MarketplaceService.Service.AdvanceRolling | backend/iluvtrade/reddesk/entitlements.py:214-261 | Advances exactly the entitlements that may be. |
| MarketplaceService.Service.ExpireEntitlements | backend/iluvtrade/reddesk/entitlements.py:305-317 | Expires exactly the active entitlements whose end is not in the future, and returns how many there were. |
| MarketplaceService.Service.RecordPayout | backend/iluvtrade/reddesk/marketplace.py:886-930 | The loop's totals are exactly what is owed for paid, unrefunded sales of the period. |
| JsonLines.LinesAreAll | backend/iluvtrade/common/storage.py:178-184 | The lines of a file are, joined, the whole file. |
| JsonLines.BlankExactly | backend/iluvtrade/common/storage.py:158-164 | A line counts as blank exactly when all of it is white space as bytes.strip has it. |
| JsonLines.ScanCountsRows | backend/iluvtrade/common/storage.py:151-165 | Counting byte by byte is counting the lines that are not blank. |
| JsonLines.TalliedIsScan | backend/iluvtrade/common/storage.py:157-163 | Handling a chunk part by part, with the flag carried over, is scanning it byte by byte. |
| JsonLines.FirstPass | backend/iluvtrade/common/storage.py:151-165 | However the file is cut into chunks, the pass hashes the whole of it and counts exactly its lines that are not blank. |
| JsonLines.ReadsBackExactly | backend/iluvtrade/common/storage.py:133-198 | Reading under the digest and count that writing returned succeeds exactly when both passes found the bytes written, and gives exactly the rows written. |
| JsonLines.CountsAgree | backend/iluvtrade/common/storage.py:167-198 | If a file's rows parse there are exactly as many as the first pass counted. |
| JsonLines.ReadVerified | backend/iluvtrade/common/storage.py:133-198 | The two-pass read returns exactly the specified rows or error, whatever the two passes found. |
| JsonLines.Store.WriteJsonl | backend/iluvtrade/common/storage.py:88-117 | Success stores exactly the rows and returns their digest and number; any failure leaves the old object whole. |
| JsonLines.WriteThenRead | backend/iluvtrade/common/storage.py:88-198 | Written and read back in any chunks, the rows are the ones written. |
| Backup.OneStateExactly | scripts/backup_recovery.py:834-879 | On the schedule of a successful capture, for every value that could be written on it: the bundle is always one state of the deployment, and then always the one at the moment of the dump, if and only if no service that has a database connection writes between the dump and the copy. |
| Backup.BundleIsDumpState | scripts/backup_recovery.py:824-879 | In particular if no service is started while the capture runs, however others come, write and go. |
| Backup.WriterComesAndGoes | scripts/backup_recovery.py:824-879 | A service that is started, connects, writes and is disconnected again between the two looks goes unseen, and the bundle is of no state at all. |
| Backup.LastedExactly | scripts/backup_recovery.py:834-879 | On the schedule of a successful capture, for every value that could be written on it: the bundle is the deployment's state from the first look to the second if and only if nobody who has a connection writes in between. |
| Backup.LastsUnlessOneLeaves | scripts/backup_recovery.py:552-578 | What the two looks guarantee: if no connection is given up in between, whatever is started and whoever connects, the bundle is the deployment's state all that time. |
| Backup.ClientAloneOutdates | scripts/backup_recovery.py:552-578 | A client that comes, writes and leaves between the two looks goes unseen: the bundle is one state but no longer the deployment's. |
| Backup.Host.ReadOut | scripts/backup_recovery.py:834-879 | A dump and a copy come back only if the database had no connection, of a service or of anybody else, before the dump and none after the copy, however the world moved since the services were looked at. |
| Backup.Host.Resume | scripts/backup_recovery.py:942-966 | Starting again succeeds only if every service that had run is seen running. |
| Backup.Host.CaptureBundle | scripts/backup_recovery.py:753-988 | Whatever step fails, every writer that was told to stop is told to start again; success means they run, and that the bundle is new and was read between two looks that found no connection, after a look that found no writer running; no earlier bundle is touched. |
| Backup.Host.UploadAndRetain | scripts/backup_recovery.py:1125-1162 | Whatever fails, the recorded steps are a prefix of upload, snapshot seen, retention, snapshot seen again, and all four if it succeeds. |
| Backup.Host.UploadAndRemove | scripts/backup_recovery.py:1194-1216 | A bundle is removed only after an upload whose snapshot was seen before and after retention. |
| Backup.Host.PerformBackup | scripts/backup_recovery.py:1165-1177 | A backup keeps the record orderly and every earlier bundle in place; a bundle whose upload fails is retained. |
| Backup.RunMany | scripts/backup_recovery.py:1165-1216 | Over any number of backups and retries, failing anywhere: stops are undone, removals are safe, and every bundle there was or that was captured on the way is still staged as captured or was safely removed. |

## Left out

- AlphaLab itself: its step is an abstract history of engine states, its reading of timestamps a
  parameter, and its move to the interval end is adding the interval's length, unless it refuses the bar.
- HTTP routes, authorization by role, tenancy checks beyond the owner comparisons modelled, notifications
  and log events: they do not change the rows modelled here.
- Rows that are deleted while a thread or worker still uses them: every session, job and version modelled
  stays in its table.
- Concurrency inside a transaction: locks, isolation levels and `SKIP LOCKED` are taken to make each
  transaction atomic.
- `redact`, and the UTF-8 encoding of audit texts: the payload is the text already redacted, and strings
  stand for their encoding.
- Float representation of timestamps, the epsilon of the spacing check and rounding inside `Decimal`
  contexts (28 digits, also in `normalize`): exact integers, decimals and rationals take their place.
- Decimals that are not finite, and the negative zero.
- Strategies.MovingAverageCrossover.RestoreState: every close in a payload is taken to spell a decimal; one
  that does not raises in the source, after the parameters were accepted.
- How the zone database decides that a wall time is shown twice or never (its fold attribute): the model
  has the fact, that no other instant shows it.
- Reading CSV text, detecting the schema and the text of messages: a file is its lines of cells, and a
  refusal is its kind.
- Checking a temporal declaration against the survey of a file: what `validate` establishes is assumed
  where the source asserts it.
- The spacing report's name for the arithmetic used, which follows from how the times are written.
- The process-wide map of runner threads, in SessionProtocol: a session may be launched any number of times,
  as by several processes. SessionLauncher has the map's guard, for a process that is not restarted.
- Validating, submitting and reviewing a listing: a listing is on sale or not. The version status DEPRECATED,
  which nothing sets.
- Which licence `resolve_version` looks at where an organization holds several to one version: its query
  has no order, so the row found first is a parameter, and a live licence behind it is passed over.
- Charging and refunding at the provider: its answer is a parameter. Purchases in different currencies are
  added up as the source adds them.
- Files copied one by one while the backup runs: the copy is taken at one moment. A writer started by
  somebody else is an event of the world, and its consequences are shown.
- A service that writes its storage without any connection to the database: a request is authorized there
  first, and the connection is then kept in the pool.
- A bundle directory removed halfway: removal either happened or did not.
- The unique (organization, sequence) constraint on audit rows: what is shown of edits holds for those it
  would refuse as well.
- JobQueue.Deployment.ProcessOne: orphans are not put back while it runs; RequeueUnderAWorker shows why.
- Projection.SessionTables.Replay: starts from empty tables; replays over older rows are
  ScheduleDoesNotMatter and ShorterReplayExactly.
- Strategies.RunWithStop: written for the crossover; the other two strategies have the same law as lemmas.
- RateLimit.Replay: one policy at a time; mixed policies are ToldTheTruthExactly.
