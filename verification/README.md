# Verification model of the expense backend

A Dafny model of the backend's data-keeping core: offline sync, the `amount_base` sweep, FX
arithmetic, usage metering, the parse rate limiter and the billing webhook, with proofs of what
holds over every run. `dafny verify dfyconfig.toml` checks all of it.

## How it is organised

| module | what it models |
|---|---|
| `Expenses` | the tables, the guarded upsert, the sequence trigger, the usage counter, the enriching writes, as functions on table contents |
| `PushValidation` | the dedupe loop, the ownership checks and the per-record statuses of a push |
| `PullPages` | the pull query, its cursor, and the high-water mark |
| `Sweep` | the bounded `amount_base` sweep |
| `Drain` | which rows repeated sweeps fill, and when they fill none |
| `Database` | class `Store`: the endpoints and sweeps as methods that update the tables in place, each tied to the functions above |
| `Machine` | one state machine over the tables. A push is two steps (validate, upsert), a swept row is two (read, write), so any number of requests and sweeps interleave |
| `Refinement` | whole operations of `Database` are runs of the machine |
| `LastWriterWins`, `Metering`, `Replay`, `Transparency`, `Freshness`, `Replica` | one property over all runs each |
| `Creation` | when rows were added, and the order in which sweeps take them |
| `Ownership` | when a push changes a row that another user inserted after its validation |
| `CommitOrder`, `Transactions` | transactions that draw `server_seq` in one order and become visible in another, and the machine's steps as such transactions |
| `Decimal`, `Converter`, `FxIngest` | Python's decimal rounding, conversion through USD, rate ingestion (class `RateStore`) |
| `RateLimit` | class `RateLimiter`, and the two windows as a timed state machine over Redis's clock |
| `Webhooks`, `Overlap` | class `WebhookHandler` and deliveries one at a time, then deliveries whose reads and writes interleave |
| `Entitlements` | what the resulting row and the counter mean for access and quota |
| `Prelude` | options, extrema, finite sums |

Methods that change state are specified by functions of the old state; the lemmas are about those
functions and about runs of them. Times are integers (microseconds for the database, milliseconds for
Redis and the billing provider), dates are day numbers, amounts and rates are reals that every
operation of the code's decimal context rounds as Python does (28 digits, half to even). Ids are
natural numbers. A pushed record is well-formed, malformed with a usable id, or malformed without one.
The order in which a query leaves ties, and in which one `UPDATE` meets its rows, is left open: what is
proved holds for every such order.

## Where the code and its documentation disagree

The model follows the code in each case.

- `app/api/v1/sync.py:80-81` calls a replay a true no-op. Rows and counters do not change, but the
  trigger runs before the conflict is found, so each replayed record still draws a sequence value
  (`Replay.ReplayIsNoOp`).
- `app/services/currency/converter.py:44-46` says `convert` never raises. It divides by a zero
  rate and quantizes without regard to the context's precision; `Converter.RaisesIff` says exactly when it raises.
- `app/services/fx/ingest.py:44-46` says one bad entry never blocks the rest of a payload. A positive
  rate of at least 10^20 less half of the eighth place does (`FxIngest.BlockedIff`, `FxIngest.BlockedExample`).
- The positivity test of `app/services/fx/ingest.py:70` comes before the quantization, so a positive rate
  of at most 0.5e-8 is stored as zero (`FxIngest.PositiveIff`).
- An id that occurs twice in a batch is reported as rejected, although its first copy is upserted
  (`Database.RejectedYetStored`, `Database.RowUntouchedIff`).
- The cursor's premise that every row past it is newer (`app/api/v1/sync.py:254-259`) needs commits to
  become visible in `server_seq` order, which the sequence alone does not give. `CommitOrder` proves
  the premise sufficient, says exactly which commits break it, and exhibits a client that misses a row for good.
- The sweep updates by id only, so an edit that commits between its read and its write can leave a wrong
  amount (`Freshness.WriteIsFreshIff`, `Freshness.RaceExample`).
- `app/services/fx/recompute.py:29-31` bounds each sweep so that repeated ones work off the backlog. A row is
  sure to be reached only while fewer stuck rows than the limit, and no row whose conversion raises, are no newer
  than it (`Drain.SureImplies`); one raising row keeps every newer one waiting for good (`Drain.OlderRaisingBlocks`,
  `Drain.ZeroRateBlocks`).
- `app/api/v1/sync.py:151-153` rejects a record whose id belongs to another user, by the rows read at validation. The
  upsert does not look at the owner again, so a row another user inserts in between is edited if its revision is
  lower (`Ownership.ForeignRowChangedIff`, `Ownership.ForeignEditIsReachable`).
- `app/api/v1/webhooks.py:23-26` skips events older than the one that last changed the row. The check reads the
  row without a lock and the upsert at line 126 does not repeat it, so of two overlapping deliveries the
  older can write last (`Overlap.CrossingLosesLatest`); `Overlap` says exactly when that does not happen.
- `limit or FX_RECOMPUTE_BATCH` takes a limit of zero for an absent one (`Sweep.EffectiveLimit`).

## Model

| member | source | states |
|---|---|---|
| `Replica.ReplicasConverge` | `app/api/v1/sync.py:247-272` | with each step visible as it commits: over every interleaving of pushes, sweeps, null sweeps, base changes and pulls of any number of clients, a client holds exactly the current row for each of its user's rows up to its cursor, and the user's whole slice, tombstones included, after a page with has_more false |
| `Replica.PullSyncs` | `app/api/v1/sync.py:261-272` | storing one page by id and moving to next_cursor keeps a client in sync; a short page completes its mirror |
| `Replica.ChangeSyncedIff` | `alembic/versions/20260913_0000_000000000002_add_expenses_server_seq.py:39-55` | a change of the table keeps a client in sync if and only if every changed row of its user is stamped past its cursor |
| `CommitOrder.OrderedHistorySyncs` | `alembic/versions/20260913_0000_000000000002_add_expenses_server_seq.py:39-55` | with any number of open transactions, rollbacks and polls, commits that become visible in server_seq order keep every client in sync |
| `CommitOrder.OrderedClientsConverge` | `app/api/v1/sync.py:261-272` | in such a history a page with has_more false leaves a client with its user's whole slice of the committed rows |
| `CommitOrder.CommitSyncsIff` | `alembic/versions/20260913_0000_000000000002_add_expenses_server_seq.py:39-55` | in any history, ordered or not, a commit keeps a client in sync if and only if all it publishes for that client is stamped past the client's cursor |
| `CommitOrder.AlwaysInSyncIff` | `alembic/versions/20260913_0000_000000000002_add_expenses_server_seq.py:39-55` | every client is in sync throughout a history if and only if each of its commits publishes past the cursors of its time |
| `CommitOrder.RolledBackIsGone` | `alembic/versions/20260913_0000_000000000002_add_expenses_server_seq.py:39-55` | a rollback withdraws what its transaction wrote and nothing of any other, and the sequence values stay drawn |
| `Transactions.StepIsATransaction` | `alembic/versions/20260913_0000_000000000002_add_expenses_server_seq.py:39-55` | every step of the machine is a transaction of such a history, with its writes, the values it burns and its commit, beside any other open transactions; committed at once it is in order |
| `CommitOrder.MissedForever` | `app/api/v1/sync.py:261-272` | a row missed by a client stays missed through every later event, until a commit publishes it again or the client starts over |
| `CommitOrder.OvertakenCommitIsMissed` | `alembic/versions/20260913_0000_000000000002_add_expenses_server_seq.py:39-55` | a history of two overlapping transactions after which a client has missed a row for good |
| `PullPages.PagingIsTheSortedList` | `app/api/v1/sync.py:261-272` | following next_cursor with any page size lists the user's n rows past since exactly once, strictly ascending, in floor(n / limit) + 1 pages |
| `PullPages.SelectedLists` | `app/api/v1/sync.py:261-270` | one page lists its stretch of stamps completely and in order, and a page shorter than the limit reaches the end |
| `PullPages.HighWaterIsGreatest` | `app/api/v1/sync.py:52-56` | the high-water mark is the greatest stamp of the user's rows, and zero when there are none |
| `Expenses.UpsertOutcome` | `app/api/v1/sync.py:158-204` | what one record of a batch does to its row: nothing unless absent or older; else the client's columns under a fresh stamp. A new row belongs to the pusher and the record's device, has no amount_base, and was created at the statement's now, no client date; an edited one keeps owner, device and creation time, and amount_base exactly when original amount, currency and spent_at are as before |
| `Expenses.UpsertTouchesOnlyItsIds` | `app/api/v1/sync.py:158-204` | the statement leaves every other row as it was |
| `Expenses.ReturningExact` | `app/api/v1/sync.py:198-209` | RETURNING lists exactly the applied records, each with the stamp it is stored under and whether it was inserted |
| `Expenses.UpsertAdvances` | `alembic/versions/20260913_0000_000000000002_add_expenses_server_seq.py:39-55` | an upsert loses no row, keeps stamps unique, and stamps every changed row above all earlier stamps |
| `Expenses.SequenceDraws` | `alembic/versions/20260913_0000_000000000002_add_expenses_server_seq.py:39-55` | a batch draws one sequence value per record and one more per row it updates, so stale replays burn values |
| `Expenses.StampIsLastDrawn` | `alembic/versions/20260913_0000_000000000002_add_expenses_server_seq.py:39-55` | the stamp an applied record's row keeps, to the value: the last drawn by then, the update's own where the row was already there |
| `Expenses.NullAmountBaseAdvances` | `app/services/fx/recompute.py:93-97` | the null sweep does the same, in whatever order the trigger meets the rows |
| `Expenses.NullAmountBaseExact` | `app/services/fx/recompute.py:93-97` | the null sweep for every row: those of the user that hold an amount lose amount_base and currency_base and get a new stamp, no other row changes, and one sequence value is drawn for each |
| `Expenses.StampsExist` | `alembic/versions/20260913_0000_000000000002_add_expenses_server_seq.py:39-55` | the trigger can stamp any set of rows with distinct new values |
| `PushValidation.DedupeExact` | `app/api/v1/sync.py:103-126` | what rejects, parsed and order hold for each id after the loop, from the batch alone |
| `PushValidation.OrderIsFirstAppearance` | `app/api/v1/sync.py:107-126` | order lists ids by first appearance and repeats none |
| `PushValidation.ValidExact` | `app/api/v1/sync.py:128-154` | a record reaches the upsert if and only if it is the first of its id, well-formed, from an owned device, and its row, if any, is the user's |
| `PushValidation.ValidIsDistinct` | `app/api/v1/sync.py:121-154` | the upsert is never given an id twice |
| `PushValidation.StatusExact` | `app/api/v1/sync.py:214-231` | every listed id gets the status it is owed, whatever was committed between validation and upsert |
| `Database.CommitExact` | `app/api/v1/sync.py:156-244` | whatever was committed between validation and upsert, the response lists every distinct usable id once in first-appearance order with the status it is owed, and server_high_water is the user's greatest stamp, which covers every reported one but those of rows another user owned by then |
| `Database.PushExact` | `app/api/v1/sync.py:103-244` | with nothing in between, server_high_water, the user's greatest stamp, covers every reported one |
| `Database.RowUntouchedIff` | `app/api/v1/sync.py:121-154` | a push leaves a row alone if and only if the batch's first copy of its id does not land |
| `Database.RejectedYetStored` | `app/api/v1/sync.py:121-123` | an id with a later valid copy is reported as a rejected duplicate although its first copy is stored |
| `Database.Store.DedupeBatch` | `app/api/v1/sync.py:103-126` | the loop over the raw records computes the dedupe function |
| `Database.Store.ValidatePush` | `app/api/v1/sync.py:128-154` | both reads and the loop over the parsed records compute the validated batch |
| `Database.Store.SeqsById` | `app/api/v1/sync.py:208` | the dictionary of returned stamps, the last of an id winning |
| `Database.Store.ListResults` | `app/api/v1/sync.py:214-231` | the results loop gives each id in order its status |
| `Database.Store.CommitPush` | `app/api/v1/sync.py:156-244` | upsert, metering and response, as a function of the tables it finds |
| `Database.Store.PushSync` | `app/api/v1/sync.py:68-244` | a whole push, as a function of the old tables |
| `Database.Store.PullSync` | `app/api/v1/sync.py:247-272` | the page lists exactly the user's rows stamped past since up to next_cursor, ascending, at most limit of them, and leaves none behind when has_more is false; nothing changes |
| `Database.Store.RecomputeAmountBase` | `app/services/fx/recompute.py:26-77` | a sweep over any batch the query may return leaves the swept tables; it raises if and only if a row of the batch does, and otherwise reports as scanned the smaller of limit and backlog, as recomputed the rows whose amount_base went from NULL to a value, which are those with a conversion, and as still missing those without a rate |
| `Database.Store.UpdateSelected` | `app/services/fx/recompute.py:60-77` | the loop over the selected rows; a conversion that raises undoes the updates but not the sequence values drawn |
| `Database.Store.NullAmountBaseForUser` | `app/services/fx/recompute.py:80-99` | every enriched row of the user loses its derived columns and gets a new stamp, and the count is the number of them |
| `Sweep.EffectiveLimit` | `app/services/fx/recompute.py:40` | a positive limit is kept; none, or zero, means the configured batch of 500 |
| `Sweep.BatchExists` | `app/services/fx/recompute.py:42-58` | the selection has a result for every table and limit, ties broken somehow |
| `Sweep.SweepRaisesIff` | `app/services/fx/recompute.py:61-66` | a sweep raises if and only if the conversion of some selected row does |
| `Sweep.SweepCounts` | `app/services/fx/recompute.py:60-77` | recomputed is the number of the batch's rows that had a conversion, these are exactly the rows that got an amount, and the rest lacked a rate |
| `Sweep.LoopCounts` | `app/services/fx/recompute.py:60-72` | the loop's count is the number of selected rows whose conversion has a value |
| `Sweep.LoopDraws` | `app/services/fx/recompute.py:67-72` | and it draws one sequence value for each of them |
| `Sweep.RolledBackDraws` | `app/services/fx/recompute.py:60-74` | a sweep that raises changes no row, and keeps drawn exactly the values of the rows it had updated before |
| `Sweep.BacklogIff` | `app/services/fx/recompute.py:42-66` | from expenses, users and fx_rates alone: a row is left for want of a rate, makes the sweep raise, or is filled, if and only if it is live and has no amount and, respectively, one of two different currencies has no rate up to the UTC day of spent_at, the source rate is zero or the result has too many digits, or neither |
| `Sweep.PricedAsFoundIsPricedBy` | `app/services/fx/recompute.py:61-64` | when rates change during a sweep the same holds of each row by the rates found for it |
| `Sweep.SweepSets` | `app/services/fx/recompute.py:42-75` | a sweep whose batch holds no raising row takes exactly its convertible rows out of the backlog and changes no other row's conversion; any other is rolled back and changes nothing but the sequence |
| `Sweep.SweepProgress` | `app/services/fx/recompute.py:40-77` | when no backlog conversion raises: with u rows missing a rate and a limit above u, a sweep fills at least min(c, limit - u) of c convertible rows, for any order of ties |
| `Sweep.SweepsDrain` | `app/services/fx/recompute.py:40-77` | when no backlog conversion raises: k sweeps with k * (limit - u) at least c fill every convertible row |
| `Drain.RowFilledWithin` | `app/services/fx/recompute.py:40-77` | a convertible row with u < limit stuck rows and c convertible ones no newer than it, older than every raising row and with none of these or at least limit rows that stay before them, is filled, with what it converts to, by any k sweeps with k * (limit - u) at least c, for any order of ties |
| `Drain.FilledEventuallyIff` | `app/services/fx/recompute.py:40-77` | when nothing raises, or at least limit rows stay before every raising row while this one waits: some number of sweeps is sure to fill the row if and only if fewer than limit stuck rows, and no raising row, are no newer than it |
| `Drain.SureImplies` | `app/services/fx/recompute.py:40-77` | whatever raises: a row is sure to be filled only if fewer than limit stuck rows and no raising row are no newer than it, and every raising row has at least limit strictly older ones |
| `Drain.DrainsEventuallyIff` | `app/services/fx/recompute.py:40-77` | when that holds of the raising rows for each convertible row: repeated sweeps are sure to fill all of them if and only if fewer than limit stuck rows, and no raising row, are no newer than any |
| `Drain.RowMayWait` | `app/services/fx/recompute.py:42-75` | with limit stuck rows or a raising row no newer than it, or a raising row with fewer than limit strictly older ones, there are runs of any length after which the row still waits |
| `Drain.InEveryBatchIff` | `app/services/fx/recompute.py:42-58` | a waiting row is in every batch the query may return if and only if at most limit rows, itself among them, are no newer |
| `Drain.InSomeBatchIff` | `app/services/fx/recompute.py:42-58` | and in some batch if and only if fewer than limit are strictly older |
| `Drain.OlderRaisingBlocks` | `app/services/fx/recompute.py:60-74` | while a row whose conversion raises waits, no sweeps of any number ever change a strictly newer row, whatever the limit |
| `Drain.RaisingRowBlocks` | `app/services/fx/recompute.py:60-74` | while such a row is in every batch, sweeps change nothing but the sequence, however many there are |
| `Drain.ZeroRateBlocks` | `app/services/fx/recompute.py:60-74` | an expense in a currency whose rate was stored as zero, and a later one in the base currency, which no sweeps ever fill |
| `Drain.RemainderBlocks` | `app/services/fx/recompute.py:60-74` | with a limit of two, three convertible rows and then a raising one: the third is never filled |
| `Sweep.HeadOfLineBlocks` | `app/services/fx/recompute.py:42-66` | when at least limit rows without a rate are older than every convertible row, a sweep changes nothing at all |
| `Machine.RunAdvances` | `app/api/v1/sync.py:183-204` | in every run no row is lost, changes owner or falls in revision, stamps stay unique, and every change is stamped anew |
| `Creation.CreatedWhenAdded` | `app/db/mixins.py:24-28` | in every run a row's created_at is the database's clock of the upsert that added it, whose pusher is its owner |
| `Creation.AddedOnce` | `app/api/v1/sync.py:159-204` | the rows of a run are those some step of it added, and none is added twice |
| `Creation.SweepsByArrival` | `app/services/fx/recompute.py:42-58` | after any run a sweep's batch goes by arrival: no waiting row left out, and no later one of the batch, was added at an earlier clock, whatever dates the clients sent |
| `Ownership.ForeignRowChangedIff` | `app/api/v1/sync.py:141-204` | in every run a commit changes another user's row if and only if that row was not there yet at the push's validation and the batch's first copy of its id is well-formed, from a device of the pusher, and of higher revision; it then takes the copy's columns and keeps its owner |
| `Ownership.ForeignEditIsReachable` | `app/api/v1/sync.py:141-204` | a run that ends with one user's row holding another user's columns |
| `Refinement.PushIsTwoSteps` | `app/api/v1/sync.py:103-212` | a push that nothing interleaves is its two steps of the machine |
| `Refinement.SweepIsARun` | `app/services/fx/recompute.py:58-77` | a sweep that raises nowhere is a run of row reads followed by row writes |
| `Refinement.NullSweepIsAStep` | `app/services/fx/recompute.py:93-98` | the null sweep is one step of the machine |
| `Refinement.BaseChangeRearms` | `app/services/fx/recompute.py:80-92` | a change of base currency, with its null sweep, sets that currency and leaves every live row of the user waiting again, and other users' rows alone |
| `LastWriterWins.GreatestRevisionWins` | `app/api/v1/sync.py:188-204` | in every run a row exists exactly for the ids ever upserted; its client columns are those of the first-arriving upsert of greatest revision, its owner and device those of the first |
| `LastWriterWins.OrderDoesNotMatter` | `app/api/v1/sync.py:198-202` | two runs in which the same upserts of an id arrive, with distinct revisions and in any order, leave the same client columns |
| `Metering.UsageConserved` | `app/api/v1/sync.py:206-212` | in every run each user's counters over all periods sum to the number of that user's rows |
| `Metering.RowsCountWhereTheyLand` | `app/services/metering/usage.py:35-56` | in every run each counter is the number of its user's rows whose insertion fell in its period |
| `Metering.UpsertCounts` | `app/api/v1/sync.py:202-211` | a user's rows grow by exactly the number of returned rows marked inserted |
| `Metering.UsageNeverFalls` | `app/services/metering/usage.py:43-56` | no step lowers a counter |
| `Replay.ReplayIsNoOp` | `app/api/v1/sync.py:198-231` | re-validating and re-upserting an earlier batch after any steps changes no row and no counter, lifts no tombstone, reports nothing applied, and moves the sequence by one per record |
| `Replay.SettledUpsert` | `alembic/versions/20260913_0000_000000000002_add_expenses_server_seq.py:39-55` | upserting records that are not newer returns nothing and only burns sequence values |
| `Transparency.EnrichmentIsTransparent` | `app/services/fx/recompute.py:67-97` | taking every sweep and null sweep out of a run leaves client columns, owners, revisions, counters and pending pushes the same |
| `Transparency.VerdictsAreTransparent` | `app/api/v1/sync.py:214-231` | and every push answers each id the same but for stamps |
| `Freshness.AmountBaseIsFresh` | `app/services/fx/recompute.py:60-72` | in every run whose sweep writes find their rows still priced as read, a non-NULL amount_base is the conversion of the row's current columns into its owner's current base currency, under the rates of the sweep that wrote it |
| `Freshness.UndisturbedSweepsStayFresh` | `app/services/fx/recompute.py:61-72` | so it is in every run where, between a sweep's read of a row and its write, no edit of the amount, currency or date lands on it and its owner's base currency stays |
| `Freshness.FreshRowIsConversion` | `app/services/currency/converter.py:37-59` | such an amount is what convert answers for the row as it stands, on the UTC day of its spent_at, under the rates of the sweep that wrote it |
| `Freshness.WriteIsFreshIff` | `app/services/fx/recompute.py:61-71` | a sweep write leaves the amount right if and only if the row as it stands then converts to what the sweep computed, into the same base currency |
| `Freshness.AlwaysFreshIff` | `app/services/fx/recompute.py:61-71` | over whole runs: every amount is right at all times if and only if that holds of every sweep write |
| `Freshness.SweepRace` | `app/services/fx/recompute.py:61-71` | whatever happened between a sweep's read and its write, the amount is wrong under the sweep's own rates if and only if these make something else of the row by then |
| `Freshness.EditRace` | `app/api/v1/sync.py:183-194` | so after an edit in any batch that prices apart from what was read, committed right before the write |
| `Freshness.RaceIsReachable` | `app/services/fx/recompute.py:61-71` | for any two records of one id that the rates tell apart, a run from the empty store that ends so |
| `Freshness.RaceExample` | `app/services/fx/recompute.py:61-71` | with the converter itself: 10 dollars edited to 20 end with an amount_base of 10 |
| `Converter.RateIsLatestOnOrBefore` | `app/services/currency/converter.py:25-34` | the lookup finds the rate of the latest stored date not after as_of, none only when there is none, and one for the dollar |
| `Converter.MissingIff` | `app/services/currency/converter.py:48-57` | a conversion is None if and only if the currencies differ and one of them, not the dollar, has no rate dated on or before as_of; between equal ones it is the amount |
| `Converter.ConversionIsLocal` | `app/services/currency/converter.py:28-34` | whatever happens at date d, a conversion can change only through a currency touched at d, and only for an as_of from d up to that currency's next date |
| `Converter.OneWriteIsLocal` | `app/services/currency/converter.py:28-34` | one rate written at d changes no conversion outside the dates from d up to the next one with a rate for that currency |
| `Converter.LookupAfterWrite` | `app/services/currency/converter.py:28-34` | and inside those dates it is exactly the rate found |
| `Converter.ConversionErrorBound` | `app/services/currency/converter.py:37-59` | with the latest rates by as_of, the source one positive, a conversion is within 0.00005 plus a relative 2e-27 of exact arithmetic, and is defined below 10^14 |
| `Converter.ValueIsRounded` | `app/services/currency/converter.py:59` | its value comes of three roundings and no others: the ratio of the rates and the product to 28 digits, and the product to the nearest fourth place, the even one of two |
| `Converter.RaisesIff` | `app/services/currency/converter.py:44-59` | a conversion raises if and only if the currencies differ, both rates are known, and the source rate is zero or the amount times the rounded ratio of the rates reaches 10^24 - 0.00005 in magnitude |
| `Converter.RaisesExample` | `app/services/currency/converter.py:59` | an amount that raises at par |
| `Converter.RoundTrip` | `app/services/currency/converter.py:51-59` | converting there and back returns within 0.00005 * (1 + rate_A / rate_B) of the start, up to the context's relative error |
| `Converter.Triangulation` | `app/services/currency/converter.py:51-59` | converting through a third currency stays within 0.00005 * (2 + rate_C / rate_B) of the direct conversion, up to the context's relative error |
| `Decimal.HalfEvenIsNearest` | `app/services/currency/converter.py:59` | rounding picks the nearest integer, the even one of two equally near |
| `Decimal.Round28Error` | `app/services/currency/converter.py:59` | an operation in the default context is off by at most half a unit in the 28th digit and keeps the sign |
| `Decimal.Round28Shape` | `app/services/currency/converter.py:59` | and its result has at most 28 significant digits |
| `Decimal.QuantizeError` | `app/services/currency/converter.py:22` | quantizing to four or eight places is off by at most half a place, and is defined well within 28 digits |
| `FxIngest.NormalizeToUsdPivot` | `app/services/fx/ingest.py:33-76` | the loop computes the normalized table, or fails, for any order of the payload's items |
| `FxIngest.ScaleInvariance` | `app/services/fx/ingest.py:57-66` | quoting a non-USD payload in any other positive unit changes nothing |
| `FxIngest.PivotIsRatios` | `app/services/fx/ingest.py:57-66` | a non-USD base is the USD base applied to the quoted ratios |
| `FxIngest.NormalizedEntries` | `app/services/fx/ingest.py:54-76` | USD is exactly 1; any other code is present if and only if the payload quotes it positively and, off a non-USD base, quotes the dollar positively too; its rate is within half of the eighth place of the quote, or of the quoted ratio up to the context's rounding |
| `FxIngest.OneQuoteAffectsOnlyItself` | `app/services/fx/ingest.py:44-46` | one currency's quote never shows in another's rate |
| `FxIngest.BlockedIff` | `app/services/fx/ingest.py:70-73` | nothing is produced at all if and only if some positive candidate needs more than 28 digits |
| `FxIngest.BlockedExample` | `app/services/fx/ingest.py:70-73` | a payload with one such entry that loses the others |
| `FxIngest.PositiveIff` | `app/services/fx/ingest.py:70-73` | a stored rate is positive if and only if its candidate exceeds 0.5e-8 |
| `FxIngest.TinyRateExample` | `app/services/fx/ingest.py:70-73` | a payload whose positive rate is stored as zero, after which every conversion from that currency raises |
| `FxIngest.RateStore.UpsertRates` | `app/services/fx/ingest.py:79-105` | each rate is stored under its code and the date, every other key is as it was, and the count is the number of rates |
| `FxIngest.RateStore.IngestSnapshot` | `app/services/fx/ingest.py:108-117` | one payload normalized and stored, or nothing changed when normalization fails |
| `FxIngest.IngestReports` | `app/services/fx/ingest.py:112-117` | its result names the date, counts the dollar and the codes with a positive rate, and lists as skipped every other code of the payload |
| `FxIngest.RateStore.BackfillRange` | `app/services/fx/ingest.py:120-144` | the loop over the dates computes the backfill function |
| `FxIngest.BackfillComposes` | `app/services/fx/ingest.py:131-144` | backfilling [a, b] and then [b + 1, c] is backfilling [a, c] |
| `FxIngest.BackfillContents` | `app/services/fx/ingest.py:131-144` | a backfill, completed or stopped, stores exactly the normalized rates of the dates with data before the first that blocks, and keeps every other key |
| `FxIngest.BackfillReports` | `app/services/fx/ingest.py:131-144` | its results are those of the dates with data before the first that blocks, each once and in order |
| `FxIngest.BackfillIdempotent` | `app/services/fx/ingest.py:131-144` | running a backfill again with the same answers changes no rate, whether it had completed or stopped |
| `FxIngest.BackfillKeepsKeys` | `app/services/fx/ingest.py:82-84` | no stored key ever disappears, completed or not |
| `FxIngest.CompletesIff` | `app/services/fx/ingest.py:133-143` | a backfill completes if and only if no date of its range has a payload that blocks normalization; failed fetches are skipped |
| `FxIngest.BackfillKeepsPositive` | `app/services/fx/ingest.py:70-73` | without tiny candidates every stored rate stays positive |
| `FxIngest.PositiveRatesNeverDivideByZero` | `app/services/currency/converter.py:59` | with positive rates a conversion can raise only for too many digits |
| `RateLimit.RequestBound` | `app/services/ratelimit/dependency.py:74-99` | over every timed run of both endpoints: per scope, at most the minute limit of requests is let through per lifetime of the minute's key and at most twice that less one in any closed 60000 ms, and at once the same of the daily limit and 86400000 ms |
| `RateLimit.StretchBound` | `app/services/ratelimit/limiter.py:14-21` | for the hits of one key: at most 2 * limit - 1 pass in any closed stretch of 1000 * window_seconds milliseconds |
| `RateLimit.StretchBoundIsReached` | `app/services/ratelimit/limiter.py:14-21` | for every limit and window some run reaches that bound |
| `RateLimit.LifetimeBound` | `app/services/ratelimit/limiter.py:14-40` | one lifetime of a key spans at most 1000 * window_seconds milliseconds and passes at most limit hits |
| `RateLimit.PassesIff` | `app/services/ratelimit/limiter.py:14-21` | a hit passes if and only if fewer than limit hits, rejected ones included, came before it in its key's lifetime |
| `RateLimit.SameLifetimeIff` | `app/services/ratelimit/limiter.py:14-40` | two hits share a lifetime if and only if the later is within 1000 * window_seconds milliseconds of its start: no hit prolongs it |
| `RateLimit.KeysAlwaysExpire` | `app/services/ratelimit/limiter.py:3-9` | in every run, whatever the clock does, every key has a TTL |
| `RateLimit.HitOutcome` | `app/services/ratelimit/limiter.py:14-40` | a live counter goes up by one and keeps its expiry, any other starts at one and expires 1000 * window_seconds milliseconds later, and no other key changes |
| `RateLimit.EnforcedIsTwoEvents` | `app/services/ratelimit/dependency.py:74-99` | a request is two events of the run; it is admitted if and only if both pass, and otherwise told what is left of the first that does not |
| `RateLimit.RetryAfterIsLeast` | `app/services/ratelimit/dependency.py:93` | Retry-After is the least whole number of seconds, at least one, that covers the remaining TTL |
| `RateLimit.RetryAfterIsEnough` | `app/services/ratelimit/dependency.py:91-98` | a client that waits longer than Retry-After meets a new lifetime, and one second less does not do |
| `RateLimit.ScopesAreShared` | `app/services/ratelimit/dependency.py:35-55` | two requests are counted together if and only if they are one user's and name the same device of that user, or none: no header lets one user spend another's limit |
| `RateLimit.RateLimiter.Hit` | `app/services/ratelimit/limiter.py:24-41` | the script as INCR, conditional PEXPIRE and PTTL |
| `RateLimit.RateLimiter.HitWindows` | `app/services/ratelimit/dependency.py:76-81` | every window is hit, whatever the others say |
| `RateLimit.RateLimiter.EnforceParseRateLimit` | `app/services/ratelimit/dependency.py:64-99` | both loops compute the verdict and the counters left behind |
| `Overlap.OrderedIsSerial` | `app/api/v1/webhooks.py:139-192` | a run of overlapping deliveries whose writes each find no newer watermark leaves the tables that its deliveries leave one at a time, in the order they end |
| `Overlap.LatestEventWinsOverlapping` | `app/api/v1/webhooks.py:131-192` | in such a run, with any redeliveries and rollbacks, a user has a row if and only if some event concerned them, and it is in the state of a latest such event |
| `Overlap.OverlappingDeliveriesConverge` | `app/api/v1/webhooks.py:139-192` | two such runs that end the same events, reordered and repeated at will, leave the same tier, status and watermark |
| `Overlap.OverlappingOutcomeExact` | `app/api/v1/webhooks.py:149-192` | each delivery's answer, from the deliveries that had ended by its reads alone |
| `Overlap.RolledBackIsRetried` | `app/api/v1/webhooks.py:25-26` | a delivery that rolls back records nothing, so a retry of its event gets through |
| `Overlap.OverlappingLatestCarries` | `app/api/v1/webhooks.py:115-124` | the state and every column the latest event carries are that event's, however the deliveries overlapped |
| `Overlap.LatestEventDecides` | `app/api/v1/webhooks.py:51-59` | in such a run the row is pro and active after a latest purchase, renewal, product change or uncancellation, pro and cancelled after a cancellation, pro and in grace after a billing issue, free and expired after an expiration |
| `Overlap.OtherKindsChangeNothing` | `app/api/v1/webhooks.py:180-184` | in every run an event of any other type is recorded and changes no row |
| `Overlap.WriteIsDeliveryIff` | `app/api/v1/webhooks.py:166-189` | a write leaves what a delivery of its event at that moment would if and only if it finds no newer watermark |
| `Overlap.WriteFollowsIff` | `app/api/v1/webhooks.py:166-189` | a write leaves its user in the state of a latest event if and only if it finds no newer watermark |
| `Overlap.AlwaysFollowsIff` | `app/api/v1/webhooks.py:166-189` | over whole runs: every user is in the state of a latest event at all times if and only if no write finds a newer watermark |
| `Overlap.LateWriteLosesLatest` | `app/api/v1/webhooks.py:166-189` | whenever one does, however it came to be there, the row is left in the state of an event that is not a latest one |
| `Overlap.OrderedIffWrittenAscend` | `app/api/v1/webhooks.py:126` | a run's writes all find no newer watermark if and only if, for every user, the timestamps of the events written never fall |
| `Overlap.RowIsLastWritten` | `app/api/v1/webhooks.py:87-127` | in every run, in order or not, the row is the last written event's state with the last product, store and period end that any written event carried |
| `Overlap.StoreIsLastNamed` | `app/api/v1/webhooks.py:61-78` | in every run the row's store is the last one of the four known names that an event written for the user carried, both of Apple's being one, and none if none did |
| `Overlap.WrittenAscend` | `app/api/v1/webhooks.py:167-178` | when each write finds no newer watermark and timestamps are distinct, those of the events written for a user strictly ascend |
| `Overlap.CrossingLosesLatest` | `app/api/v1/webhooks.py:166-190` | it happens: from empty tables, two deliveries of one user both read before the newer and then the older is written end in the older one's state |
| `Webhooks.LatestFirstForgets` | `app/api/v1/webhooks.py:115-124` | delivered first, the latest event keeps out every value it does not carry itself |
| `Webhooks.ProductDependsOnOrder` | `app/api/v1/webhooks.py:119-120` | for any such pair of events the order decides whether the product is known |
| `Webhooks.WebhookHandler.ApplyEntitlementTransition` | `app/api/v1/webhooks.py:87-127` | insert stores what the event carries, update overwrites optional columns only when present |
| `Webhooks.WebhookHandler.ReadDelivery` | `app/api/v1/webhooks.py:137-186` | the handler up to its last read: duplicate, unmapped user, stale, unhandled type, or a state to write, in that order |
| `Webhooks.WebhookHandler.CommitDelivery` | `app/api/v1/webhooks.py:139-192` | the rest of it, on whatever the tables are by then: the audit row, and the unconditional upsert |
| `Webhooks.WebhookHandler.RevenueCatWebhook` | `app/api/v1/webhooks.py:131-192` | both halves with nothing in between are one delivery |
| `Entitlements.AccessFollowsLatest` | `app/services/entitlements/resolver.py:48-54` | however deliveries overlap, as long as no write finds a newer watermark, the user is pro if and only if the latest event is no expiration and the period has not lapsed; nothing else matters when that event carries the period end |
| `Entitlements.NoEventNoAccess` | `app/services/entitlements/resolver.py:40-44` | a user no event concerned is free and active |
| `Entitlements.ProStatesRetainAccess` | `app/services/entitlements/resolver.py:18-20` | every event type that grants the pro tier leaves a status that keeps access |
| `Entitlements.ResolvedExact` | `app/services/entitlements/resolver.py:46-54` | tier and status are answered as stored; the user is pro unless free, expired, or at or past the period end |
| `Entitlements.SignalAfterEvent` | `app/services/metering/signal.py:16-35` | after any run of the machine and any overlapping deliveries in order, the signal reports the latest event's tier and status, uses as many as the user's rows inserted in the period, and is over quota if and only if these reach the quota and the user is not pro, who has none |
| `Entitlements.SignalWithoutEvent` | `app/services/metering/signal.py:16-35` | without an event that concerns the user it is free, active and bound by the quota |
| `Entitlements.OverQuotaPersists` | `app/services/metering/signal.py:16-35` | once over quota, always over quota for the period: through any run of the machine, at any later time, and through any overlapping deliveries that do not write the user's row |

## Left out

- HTTP routing, authentication, request parsing, rate-limit and webhook HTTP responses, logging and metrics: only the decisions are modelled. `limit` and `since` are taken within their declared ranges.
- The parse endpoints, the LLM, speech and FX provider clients, storage, and Celery scheduling: an FX payload is an arbitrary map with upper-case codes, and the state machine allows every order of steps a schedule could produce.
- SQL and Redis internals: a statement or a script is one step. `xmax = 0` is modelled as the row being absent before the statement. Rolled-back transactions keep the sequence values they drew.
- Redis outages and the fail-open or fail-closed choice: the rate bounds are about runs in which every script succeeds. A key counts as live up to and including its expiry instant, as in Redis.
- Column widths (`Numeric(18,4)`, `Numeric(18,8)`, `BigInteger`): stored amounts and rates are not truncated or overflowed by the tables. Decimal exponent limits and signalling NaNs are not modelled.
- Float rounding in `expiration_at_ms / 1000`: period ends are kept in exact milliseconds.
- The text of a metering period (`app/services/metering/usage.py:22-23`): a commit carries the period of the server's clock.
- User and device creation and deletion: both sets are fixed for a run, and the lazily created user is taken to exist.
- `updated_at` and parse-status columns, and the `entitlement` block of the push response, whose signal is modelled in `Entitlements` beside the push rather than inside it.
- Upper-casing of codes and store names, parsing of UUIDs and of the event type's text: events arrive with these already read, and an unknown type or store keeps its name.
- The high-water mark of a push is read in the same step as its commit; the code reads it in a later transaction, which can only see more.
- Drain.FilledEventuallyIff: with raising rows that fewer than limit lasting rows stand before, what is needed (`Drain.SureImplies`) is not enough (`Drain.RemainderBlocks`); whether a row is reached then depends on how the batches before it happen to divide, and only the two one-way results are stated.
- Refinement.SweepIsARun: a sweep whose conversion raises is not a run of the machine, because the rollback that `Database.Store.UpdateSelected` describes undoes writes the machine has already made.
- Replica.ReplicasConverge: the machine's steps become visible at once; transactions that overlap are in `CommitOrder`, whose writes are of arbitrary rows that keep their owner.
- Webhooks.WebhookHandler.RevenueCatWebhook: the handler with nothing in between; `Overlap` has its halves interleave with other deliveries.
- Overlap: a second delivery of an event that an open transaction has already recorded waits for it, as the unique key makes it.
- Overlap.OverlappingDeliveriesConverge: states the convergence of tier, status and watermark only, because product, store and period end do depend on the order (`Webhooks.LatestFirstForgets`, `Webhooks.ProductDependsOnOrder`).
