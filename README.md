# BudgetTracker core in Dafny

BudgetTracker gathers closed futures positions from four crypto exchanges:
Bybit, MEXC, Gate.io and Bitget. It stores them in PostgreSQL next to
hand-entered withdrawals and monthly incomes, sums them per exchange and per
month, and reports a total balance over the stored API credentials. A
background sync service fetches one exchange's positions on every tick,
upserts them and broadcasts an update. A browser-side WebSocket service
receives these updates and reconnects with capped exponential backoff.

The model covers the following, one Dafny module per source file:

- **Exchange adapters.**
  - Bybit's 7-day window loop and cursor pagination, its execution-history
    path with grouping by order id, and the `signV5` payload.
  - MEXC's paged fetch and its canonical sorted query.
  - Gate's and Bitget's signing payloads and status rule.
  - Bybit's, MEXC's and Bitget's balance decoding.
- **Repositories,** as classes holding in-memory tables:
  - positions keyed by `order_id`;
  - credentials keyed by `exchange`;
  - append-only withdrawals and monthly incomes.
- **Services,** as classes over those repositories: the filtered sums,
  balance aggregation, and the sync step with its tick/stop loop.
- **Handlers:** secret masking, ordered credential saving, and demo-data
  generation and deletion.
- **Small pure helpers:** the manual-id format and the DSN string.
- **Frontend:**
  - the `WebSocketService` state machine, as a class;
  - the frontend exchange table.

Remote calls are parameters of the operations that make them:

- HTTP round trips (`send`);
- exchange page replies, as oracles indexed by window or page number;
- JSON decoding;
- HMAC-SHA256 (`Mac`), hex and base64;
- the clock;
- random draws;
- database faults.

Shared modules are `Wrappers` (Option/Result), `Text` (decimal and hex
rendering, join, prefix/contains, byte order on strings and an insertion
sort), `Ordering` (filter, descending sort by key, sums), `Model` (the
records and the `Http` request/status rule), `Sql` (a query and scan loop
with faults) and `Calendar` (UTC month starts with Go's month normalisation).

## Model

| member | source | states |
|---|---|---|
| Config.GetDsn | backend/pkg/config/config.go:43-45 | the DSN starts with `postgres://`, ends with `?sslmode=` + SSLMode, and its length is the sum of the field lengths + 24 |
| Config.ParseGetDsn | backend/pkg/config/config.go:43-45 | a configuration whose fields are free of their delimiters is read back exactly from its DSN |
| Config.UnescapedFieldsCollide | backend/pkg/config/config.go:44 | with no escaping, two different configurations can give the same DSN |
| IdGenerator.GenerateManualId | backend/pkg/utils/id_generator.go:12-23 | every id starts with `manual_<type>_<ts>`; on random failure it is exactly that; otherwise it is followed by `_` and the 8 lowercase hex digits of `%x` over the four random bytes |
| IdGenerator.HexIsLower | backend/pkg/utils/id_generator.go:22 | `%x` renders bytes with digits `0-9a-f` only |
| IdGenerator.DistinctBytesDistinctIds | backend/pkg/utils/id_generator.go:22 | for a fixed type and timestamp, distinct random bytes give distinct ids |
| IdGenerator.FallbackIsShorter | backend/pkg/utils/id_generator.go:17-22 | the fallback id is a proper prefix of any random id at the same reading, 9 characters shorter |
| Http.Url | backend/internal/api/api_gate.go:45-48 | the URL is base + endpoint, with `?` + query appended exactly when the query is non-empty |
| Http.Checked | backend/internal/api/api_gate.go:60-75 | Ok iff a response with status 200 arrived, carrying its body; a transport error passes through; another status gives `<label>status=<code>, body=<body>` |
| Sql.ScanResult | backend/internal/repository/position_repository.go:103-129 | a scan yields the whole cursor, or an error when the query fails or a scan fails on an existing row |
| Sql.Scan | backend/internal/repository/position_repository.go:103-129 | the scan loop returns exactly `ScanResult` of its cursor and fault |
| Ordering.Filter | backend/internal/repository/position_repository.go:137 | the filter keeps exactly the elements that satisfy the predicate |
| Ordering.FilterMultiset | backend/internal/repository/position_repository.go:137 | the filter keeps every copy of each satisfying element and drops every copy of the others |
| Ordering.SortDesc | backend/internal/repository/position_repository.go:100 | `ORDER BY date DESC` yields a permutation of the rows that is non-increasing in date |
| Ordering.SumByPermutation | backend/internal/service/position_service.go:48-53 | a sum over rows does not depend on their order |
| Ordering.SumWhere | backend/internal/service/position_service.go:48-53 | the accumulation loop yields the sum over exactly the matching rows |
| Calendar.DaysIn | backend/internal/service/position_service.go:59-60 | a month has 28 to 31 days; February has 29 exactly in a Gregorian leap year |
| Calendar.NormMonth | backend/internal/service/position_service.go:59-60 | Go's month normalisation maps any month number into 1..12 |
| Calendar.MonthLength | backend/internal/service/position_service.go:59-60 | the span from one month's start to the next is its day count, between 28 and 31 days |
| Calendar.MonthNormalisation | backend/internal/service/position_service.go:59-60 | month 13 is January of the next year and month 0 is December of the previous one |
| Calendar.YearLength | backend/internal/service/position_service.go:59-60 | a year has 366 days exactly when it is a leap year, and 365 otherwise |
| PositionRepository.FindOrder | backend/internal/repository/position_repository.go:28 | it finds the first row with the order id, or reports that none has it |
| PositionRepository.Row | backend/internal/repository/position_repository.go:208-233 | it returns the row with the order id, or None exactly when no row has it |
| PositionRepository.UpsertValid | backend/internal/repository/position_repository.go:28-34 | after an upsert, order ids and ids stay unique, and ids stay below the sequence |
| PositionRepository.UpsertNew | backend/internal/repository/position_repository.go:21-27 | a new order id appends one row with a fresh id and the eight given fields |
| PositionRepository.UpsertExisting | backend/internal/repository/position_repository.go:28-34 | an existing order id takes the new volume, leverage, pnl, side and date, and keeps its id, exchange and symbol |
| PositionRepository.UpsertIdempotent | backend/internal/repository/position_repository.go:28-34 | saving the same position twice gives the same table as saving it once |
| PositionRepository.UpsertOtherRow | backend/internal/repository/position_repository.go:28-34 | an upsert leaves the row of every other order id unchanged |
| PositionRepository.BatchValid | backend/internal/repository/position_repository.go:51-93 | a batch keeps the table's uniqueness invariant |
| PositionRepository.BatchOtherRow | backend/internal/repository/position_repository.go:51-93 | order ids not in the batch keep their rows |
| PositionRepository.BatchLastWins | backend/internal/repository/position_repository.go:70-90 | the last occurrence of an order id in a batch decides the row's overwritten fields |
| PositionRepository.DeleteValid | backend/internal/repository/position_repository.go:235-239 | deleting keeps the uniqueness invariant |
| PositionRepository.DeleteMembers | backend/internal/repository/position_repository.go:236 | after a delete, the rows are exactly the old rows with a different id |
| PositionRepository.DeleteOnlyThatId | backend/internal/repository/position_repository.go:235-239 | a delete removes only the row with that id; a missing id leaves the table unchanged; the count drops by one exactly when the id was present |
| PositionRepository.PositionTable.SavePosition | backend/internal/repository/position_repository.go:20-49 | the new state is the upsert of the old one, or unchanged when the statement fails |
| PositionRepository.PositionTable.SavePositionBatch | backend/internal/repository/position_repository.go:51-93 | a failing statement leaves the table unchanged and returns its error; otherwise every upsert applies in list order |
| PositionRepository.PositionTable.GetAllPositions | backend/internal/repository/position_repository.go:95-130 | on success the result is a permutation of all rows, sorted by date descending |
| PositionRepository.PositionTable.GetPositionsByExchange | backend/internal/repository/position_repository.go:132-168 | on success the result is exactly the rows with that exchange, as a permutation, sorted by date descending |
| PositionRepository.PositionTable.GetPositionsByDateRange | backend/internal/repository/position_repository.go:170-206 | on success the result is exactly the rows with start ≤ date ≤ end, as a permutation, sorted by date descending |
| PositionRepository.PositionTable.GetPositionByOrderID | backend/internal/repository/position_repository.go:208-233 | it returns the row with the order id; otherwise the no-rows error, or the query error |
| PositionRepository.PositionTable.DeletePosition | backend/internal/repository/position_repository.go:235-239 | on success the rows are the old rows without that id; on failure the rows are unchanged |
| WithdrawalRepository.InsertAppends | backend/internal/repository/withdrawal_repository.go:18-30 | an insert appends exactly one row with a fresh id and the given fields, with the given CreatedAt as its date, and never deduplicates |
| WithdrawalRepository.DeleteValid | backend/internal/repository/withdrawal_repository.go:106-110 | a delete keeps ids unique |
| WithdrawalRepository.DeleteOnlyThatId | backend/internal/repository/withdrawal_repository.go:106-110 | a delete removes only the row with that id; a missing id changes nothing |
| WithdrawalRepository.WithdrawalTable.SaveWithdrawal | backend/internal/repository/withdrawal_repository.go:18-30 | the new state is the append, or unchanged on failure |
| WithdrawalRepository.WithdrawalTable.GetAllWithdrawals | backend/internal/repository/withdrawal_repository.go:32-54 | on success the result is a permutation of all rows, sorted by date descending |
| WithdrawalRepository.WithdrawalTable.GetWithdrawalsByExchange | backend/internal/repository/withdrawal_repository.go:56-79 | on success the result is exactly the rows with that exchange, sorted by date descending |
| WithdrawalRepository.WithdrawalTable.GetWithdrawalsByDateRange | backend/internal/repository/withdrawal_repository.go:81-104 | on success the result is exactly the rows inside the inclusive range, sorted by date descending |
| WithdrawalRepository.WithdrawalTable.DeleteWithdrawal | backend/internal/repository/withdrawal_repository.go:106-110 | on success the new state is the ledger without that id |
| MonthlyIncomeRepository.InsertAppends | backend/internal/repository/monthly_income_repository.go:18-30 | an insert appends one row with a fresh id storing exchange, amount, pnl and CreatedAt as its date |
| MonthlyIncomeRepository.DeleteValid | backend/internal/repository/monthly_income_repository.go:106-110 | a delete keeps ids unique |
| MonthlyIncomeRepository.DeleteOnlyThatId | backend/internal/repository/monthly_income_repository.go:106-110 | a delete removes only the row with that id; a missing id changes nothing |
| MonthlyIncomeRepository.MonthlyIncomeTable.SaveMonthlyIncome | backend/internal/repository/monthly_income_repository.go:18-30 | the new state is the append, or unchanged on failure |
| MonthlyIncomeRepository.MonthlyIncomeTable.GetAllMonthlyIncomes | backend/internal/repository/monthly_income_repository.go:32-54 | on success the result is a permutation of all rows, sorted by date descending |
| MonthlyIncomeRepository.MonthlyIncomeTable.GetIncomesByExchange | backend/internal/repository/monthly_income_repository.go:56-79 | on success the result is exactly the rows with that exchange, sorted by date descending |
| MonthlyIncomeRepository.MonthlyIncomeTable.GetIncomesByDateRange | backend/internal/repository/monthly_income_repository.go:81-104 | on success the result is exactly the rows inside the inclusive range, sorted by date descending |
| MonthlyIncomeRepository.MonthlyIncomeTable.DeleteMonthlyIncome | backend/internal/repository/monthly_income_repository.go:106-110 | on success the new state is the table without that id |
| PositionService.TotalPnlOfAll | backend/internal/service/position_service.go:48-53 | with exchange `""`, the total is the sum of ClosedPnl over all positions |
| PositionService.TotalPnlNoMatch | backend/internal/service/position_service.go:50 | a named exchange with no matching position totals 0 |
| PositionService.TotalPnlOrderFree | backend/internal/service/position_service.go:48-53 | the total does not depend on the order of the rows |
| PositionService.MonthWindow | backend/internal/service/position_service.go:59-60 | the window runs from the month's first instant in UTC to the next month's first, 28 to 31 days later |
| PositionService.NextMonthStartCounted | backend/internal/service/position_service.go:59-62 | a position dated exactly at the next month's start counts in both months |
| PositionService.PositionService.SavePosition | backend/internal/service/position_service.go:18-20 | a pass-through to the repository's upsert |
| PositionService.PositionService.SavePositionsBatch | backend/internal/service/position_service.go:22-24 | a pass-through to the repository's batch |
| PositionService.PositionService.GetAllPositions | backend/internal/service/position_service.go:26-28 | a pass-through to the repository's listing |
| PositionService.PositionService.GetPositionsByExchange | backend/internal/service/position_service.go:30-32 | a pass-through to the repository's exchange filter |
| PositionService.PositionService.GetPositionsByDateRange | backend/internal/service/position_service.go:34-36 | a pass-through to the repository's range filter |
| PositionService.PositionService.DeletePosition | backend/internal/service/position_service.go:38-40 | a pass-through to the repository's delete |
| PositionService.PositionService.CalculateTotalPnl | backend/internal/service/position_service.go:42-56 | a repository error gives (0, err); otherwise the ClosedPnl sum over positions matching the exchange filter |
| PositionService.PositionService.CalculateMonthlyPnl | backend/internal/service/position_service.go:58-75 | the same sum over the rows of the inclusive month window, or (0, err) on failure |
| WithdrawalService.TotalWithdrawnOfAll | backend/internal/service/withdrawal_service.go:44-51 | with exchange `""`, the total is the sum of Amount over all withdrawals |
| WithdrawalService.TotalWithdrawnNoMatch | backend/internal/service/withdrawal_service.go:44-51 | no matching withdrawal gives 0 |
| WithdrawalService.TotalWithdrawnOrderFree | backend/internal/service/withdrawal_service.go:44-51 | the total does not depend on the order of the rows |
| WithdrawalService.SaveAddsAmount | backend/internal/service/withdrawal_service.go:18-20 | saving a withdrawal raises the matching total by exactly its amount |
| WithdrawalService.WithdrawalService.SaveWithdrawal | backend/internal/service/withdrawal_service.go:18-20 | a pass-through to the repository's append |
| WithdrawalService.WithdrawalService.GetAllWithdrawals | backend/internal/service/withdrawal_service.go:22-24 | a pass-through to the repository's listing |
| WithdrawalService.WithdrawalService.GetWithdrawalsByExchange | backend/internal/service/withdrawal_service.go:26-28 | a pass-through to the repository's exchange filter |
| WithdrawalService.WithdrawalService.GetWithdrawalsByDateRange | backend/internal/service/withdrawal_service.go:30-32 | a pass-through to the repository's range filter |
| WithdrawalService.WithdrawalService.DeleteWithdrawal | backend/internal/service/withdrawal_service.go:34-36 | a pass-through to the repository's delete |
| WithdrawalService.WithdrawalService.CalculateTotalWithdrawals | backend/internal/service/withdrawal_service.go:38-52 | a repository error gives (0, err); otherwise the Amount sum over matching withdrawals |
| MonthlyIncomeService.TotalIncomeOfAll | backend/internal/service/monthly_income_service.go:44-51 | with exchange `""`, the total is the sum of PNL over all incomes |
| MonthlyIncomeService.TotalIgnoresAmount | backend/internal/service/monthly_income_service.go:45-49 | the total sums PNL and does not depend on Amount |
| MonthlyIncomeService.TotalIncomeOrderFree | backend/internal/service/monthly_income_service.go:44-51 | the total does not depend on the order of the rows |
| MonthlyIncomeService.MonthlyIncomeService.SaveMonthlyIncome | backend/internal/service/monthly_income_service.go:18-20 | a pass-through to the repository's append |
| MonthlyIncomeService.MonthlyIncomeService.GetAllMonthlyIncomes | backend/internal/service/monthly_income_service.go:22-24 | a pass-through to the repository's listing |
| MonthlyIncomeService.MonthlyIncomeService.GetIncomesByExchange | backend/internal/service/monthly_income_service.go:26-28 | a pass-through to the repository's exchange filter |
| MonthlyIncomeService.MonthlyIncomeService.GetIncomesByDateRange | backend/internal/service/monthly_income_service.go:30-32 | a pass-through to the repository's range filter |
| MonthlyIncomeService.MonthlyIncomeService.DeleteMonthlyIncome | backend/internal/service/monthly_income_service.go:34-36 | a pass-through to the repository's delete |
| MonthlyIncomeService.MonthlyIncomeService.CalculateTotalIncome | backend/internal/service/monthly_income_service.go:38-52 | a repository error gives (0, err); otherwise the PNL sum over matching incomes |
| MonthlyIncomeService.MonthlyIncomeService.CalculateMonthlyTotal | backend/internal/service/monthly_income_service.go:54-71 | the same PNL sum over the inclusive month window, or (0, err) on failure |
| ApiKeyRepository.FindExchange | backend/internal/repository/api_key_repository.go:22 | it finds a row with the exchange, or None exactly when there is none |
| ApiKeyRepository.FindExchangeUnique | backend/internal/repository/api_key_repository.go:47 | with exchanges unique, the row found is the only one |
| ApiKeyRepository.Row | backend/internal/repository/api_key_repository.go:18-41 | the exchange's row, or None exactly when no row has that exchange |
| ApiKeyRepository.UpsertValid | backend/internal/repository/api_key_repository.go:43-62 | after an upsert there is still at most one row per exchange, and ids stay unique |
| ApiKeyRepository.UpsertActivates | backend/internal/repository/api_key_repository.go:43-62 | after an upsert the exchange's row is active, holds the new key, secret and update time, and keeps its id and creation time on update |
| ApiKeyRepository.UpsertOthersUnchanged | backend/internal/repository/api_key_repository.go:47-51 | other exchanges' rows are unchanged; the row count grows by one exactly when the exchange was new |
| ApiKeyRepository.RowOtherExchange | backend/internal/repository/api_key_repository.go:47-51 | a lookup of any other exchange reads the same after the upsert |
| ApiKeyRepository.SortedRows | backend/internal/repository/api_key_repository.go:68 | `ORDER BY exchange` yields exactly the rows, each once, in strictly ascending exchange order |
| ApiKeyRepository.ApiKeyTable.GetByExchange | backend/internal/repository/api_key_repository.go:18-41 | it returns the exchange's unique row; otherwise the no-rows error, or the query error |
| ApiKeyRepository.ApiKeyTable.Upsert | backend/internal/repository/api_key_repository.go:43-62 | the new state is the upsert of the old one, or unchanged on failure |
| ApiKeyRepository.ApiKeyTable.GetAll | backend/internal/repository/api_key_repository.go:64-96 | on success the result is every row, in ascending exchange order |
| ApiKeyHandler.Mask | backend/internal/handler/api_key_handler.go:73-78 | up to 8 characters give `****`; longer strings give the first 4 + `****` + the last 4; the length is always 4 or 12 |
| ApiKeyHandler.MaskHidesMiddle | backend/internal/handler/api_key_handler.go:73-78 | two strings with the same first and last four characters, or both at most 8 long, mask the same |
| ApiKeyHandler.MaskKey | backend/internal/handler/api_key_handler.go:41-46 | empty key and secret stay empty; non-empty ones become their masks; no other field changes |
| ApiKeyHandler.MaskAll | backend/internal/handler/api_key_handler.go:40-47 | the in-place loop replaces each array slot with its masked key |
| ApiKeyHandler.MaskKeys | backend/internal/handler/api_key_handler.go:40-47 | the masked listing has the same length and order, element by element |
| ApiKeyHandler.MaskedListing | backend/internal/handler/api_key_handler.go:40-47 | each masked entry keeps its id, exchange, activity and times |
| ApiKeyHandler.FirstFailure | backend/internal/handler/api_key_handler.go:62-67 | the index of the first failing save: all earlier saves succeed |
| ApiKeyHandler.UpsertPrefixValid | backend/internal/handler/api_key_handler.go:62-67 | saving any prefix of the list keeps the table invariant |
| ApiKeyHandler.UpsertHolds | backend/internal/handler/api_key_handler.go:62-67 | an upsert stores its key, and keeps the stored keys of other exchanges |
| ApiKeyHandler.SavedKeysStay | backend/internal/handler/api_key_handler.go:62-67 | a key saved before the failure stays stored, unless a later key of the same exchange replaces it |
| ApiKeyHandler.ApiKeyHandler.GetAPIKeys | backend/internal/handler/api_key_handler.go:18-51 | with an exchange: its masked row, or 404 when it is missing or the lookup fails; without: the masked full listing, or 500 on a listing error |
| ApiKeyHandler.ApiKeyHandler.SaveInOrder | backend/internal/handler/api_key_handler.go:62-67 | keys are saved in order up to the first failure, which is returned; the keys before it stay saved |
| ApiKeyHandler.ApiKeyHandler.SaveAPIKeys | backend/internal/handler/api_key_handler.go:53-71 | a malformed body gives 400 and changes nothing; otherwise the ordered save, answering 500 at the first error |
| BalanceService.ExchangeBalanceOf | backend/internal/service/balance_service.go:51-68 | the four known exchanges are dispatched to their fetch; any other name gives balance 0 without error |
| BalanceService.BalancesAppend | backend/internal/service/balance_service.go:28-46 | the entries for a concatenation of key lists are the concatenation of their entries, in credential order |
| BalanceService.BalancesMembers | backend/internal/service/balance_service.go:28-46 | an entry is listed exactly when its key is active with key and secret, its fetch succeeds and its balance is positive |
| BalanceService.BalancesPositive | backend/internal/service/balance_service.go:39-45 | every listed balance is strictly positive, and there are at most as many entries as keys |
| BalanceService.SkippedKeysNotQueried | backend/internal/service/balance_service.go:29-31 | two fetchers that agree on the usable keys give the same result, so skipped keys are never queried |
| BalanceService.Aggregate | backend/internal/service/balance_service.go:25-48 | the loop's entries are the specified entries, and its total is their balance sum |
| BalanceService.BalanceService.GetTotalBalance | backend/internal/service/balance_service.go:19-49 | a credential-loading error gives (0, nil, err); otherwise the entries of the keys in exchange order, and their sum |
| SyncService.SyncedExactlyOnSuccess | backend/pkg/server/server.go:178-235 | a tick syncs exactly when the lookup succeeds, key and secret are set, the exchange is known, and both fetch and save succeed; it then broadcasts one `positions_update` with the exchange, the positions and their count |
| SyncService.EarlierFailureWins | backend/pkg/server/server.go:182-224 | a lookup error, an empty key or secret, an unknown exchange, a fetch error and a save error each end the tick at that step |
| SyncService.TicksBeforeStop | backend/pkg/server/server.go:160-176 | the loop serves at most as many ticks as there are events |
| SyncService.NothingAfterStop | backend/pkg/server/server.go:164-171 | once stop is signalled, later events add no sync |
| SyncService.AllTicksServed | backend/pkg/server/server.go:164-171 | with no stop, every tick runs one sync |
| SyncService.SyncService.Sync | backend/pkg/server/server.go:178-235 | the step taken is the decision above; only a synced step saves the batch and appends one broadcast; otherwise the table is unchanged |
| SyncService.LookupIn | backend/pkg/server/server.go:182-186 | the lookup succeeds only without a query fault and with the exchange's stored row, and a missing row is `no rows` |
| SyncService.RunSendsAtMostOnePerTick | backend/pkg/server/server.go:164-171 | the run loop broadcasts at most once per tick served before the stop |
| SyncService.RunMessagesAreUpdates | backend/pkg/server/server.go:228-234 | every message the loop broadcasts is a `positions_update` for the service's exchange whose count is its number of positions |
| SyncService.RunIgnoresAfterStop | backend/pkg/server/server.go:164-171 | events after the stop change neither the position table nor the broadcasts |
| SyncService.RunWithoutKeyIsIdle | backend/pkg/server/server.go:182-186 | with no credential row for the exchange, any number of ticks leaves the table unchanged and broadcasts nothing |
| SyncService.SyncService.Start | backend/pkg/server/server.go:160-172 | the loop runs exactly the ticks before the stop; the position table it leaves and the messages it appends are those of `Run`, the tick-by-tick fold of the sync decision and the batch upsert |
| Bybit.Truncate | backend/internal/api/api_bybit.go:159-160 | Go's float-to-int conversion truncates toward zero |
| Bybit.ParseEntry | backend/internal/api/api_bybit.go:141-176 | each object becomes a `bybit` position with its order id, symbol and side; unparseable numbers become 0 |
| Bybit.ParseClosePnlItems | backend/internal/api/api_bybit.go:141-176 | the loop returns the parsed items |
| Bybit.ParsedItemsOnePerEntry | backend/internal/api/api_bybit.go:144-172 | non-object items are skipped, and exactly one `bybit` position is emitted per object, in order |
| Bybit.RetCodeError | backend/internal/api/api_bybit.go:106-112 | the error is `rate limit` exactly for codes 10001, 10006 and 10014, and `API error: <msg>` otherwise |
| Bybit.RetCodeErrorRetention | backend/internal/api/api_bybit.go:106-112 | a chunk error carries the two-year phrase exactly when the code is not a rate-limit code and the message carries it |
| Bybit.LastPage | backend/internal/api/api_bybit.go:130-133 | the chunk stops at the first page after which the loop makes no further request |
| Bybit.ReadPage | backend/internal/api/api_bybit.go:106-133 | each reply is classified as failure, misshapen, or items with a cursor |
| Bybit.FetchClosePnlChunk | backend/internal/api/api_bybit.go:85-138 | the pagination loop yields the chunk's specified result, requesting pages up to the last page, each with the cursor of the page before |
| Bybit.ChunkErrorIsLastPageError | backend/internal/api/api_bybit.go:106-112 | a chunk fails exactly when its last page fails, with that page's error |
| Bybit.ChunkDiscardsCollectedPages | backend/internal/api/api_bybit.go:114-122 | a misshapen page ends the chunk with no positions and no error, discarding pages already collected |
| Bybit.ChunkConcatenatesPages | backend/internal/api/api_bybit.go:124-135 | otherwise the chunk is the pages' items concatenated in fetch order |
| Bybit.TilingShape | backend/internal/api/api_bybit.go:56-77 | the windows satisfy maxHistory ≤ start < end ≤ now and are at most 7 days long; the first ends at now, the last starts at maxHistory, and each ends where the previous one starts |
| Bybit.TilingDisjoint | backend/internal/api/api_bybit.go:58-77 | windows never overlap, and later windows lie earlier in time |
| Bybit.TilingCount | backend/internal/api/api_bybit.go:58-77 | the loop makes ceil((now − maxHistory) / 7 days) window requests |
| Bybit.VisitedIsTilingPrefix | backend/internal/api/api_bybit.go:58-79 | the windows requested are a prefix of the tiling, cut short only by a failed window |
| Bybit.ClosePnlStopsOnRetention | backend/internal/api/api_bybit.go:66-72 | the fetch fails exactly when the last window requested failed without the two-year phrase; with the phrase, what was collected is returned |
| Bybit.ClosePnlUnfold | backend/internal/api/api_bybit.go:58-79 | a successful window is followed by the fetch of the remaining windows, and its positions come first |
| Bybit.GetClosePnl | backend/internal/api/api_bybit.go:46-82 | the window loop returns the specified concatenation of window results and visits the specified windows |
| Bybit.SignV5Payload | backend/internal/api/api_bybit.go:375-380 | the payload is timestamp + apiKey + `30000`, then the query only for a GET |
| Bybit.SignV5 | backend/internal/api/api_bybit.go:371-385 | the signature is the hex of the MAC of that payload, two digits per MAC byte |
| Bybit.BalanceRequest | backend/internal/api/api_bybit.go:392-409 | the balance request is a GET signed over timestamp + key + `30000accountType=UNIFIED` |
| Bybit.GetBalance | backend/internal/api/api_bybit.go:388-446 | the HTTP status is not checked; a non-zero retCode is an error; the first account's equity is the balance; an empty list gives 0 |
| BybitExecutions.TraceRequestsInRange | backend/internal/api/api_bybit.go:196-307 | every request covers a 7-day window ending at or before now and starting no earlier than 28 days back; the first request is for the starting window and cursor |
| BybitExecutions.CollectExecutions | backend/internal/api/api_bybit.go:196-307 | the window/cursor loop yields the specified trace: collected executions or the first error, and the requests made |
| BybitExecutions.Objects | backend/internal/api/api_bybit.go:282-288 | only object items are kept, in order |
| BybitExecutions.AppendObjects | backend/internal/api/api_bybit.go:282-288 | the loop appends the page's objects to what was collected |
| BybitExecutions.GroupLastWellFormed | backend/internal/api/api_bybit.go:312-327 | every grouped entry is a closing execution, filed under its own order id |
| BybitExecutions.GroupLastKeys | backend/internal/api/api_bybit.go:312-327 | the groups are exactly the order ids of executions with a non-empty id and closedSize other than "" and "0" |
| BybitExecutions.GroupLastIsLast | backend/internal/api/api_bybit.go:312-327 | each group holds the last closing execution of its order id |
| BybitExecutions.GroupExecutions | backend/internal/api/api_bybit.go:312-327 | the grouping loop builds exactly that map |
| BybitExecutions.ToPosition | backend/internal/api/api_bybit.go:331-365 | a `bybit` position with the order id; leverage 0 defaults to 1 |
| BybitExecutions.ExecutionVolume | backend/internal/api/api_bybit.go:339 | the volume is closed size × execution price, and is non-negative for non-negative inputs |
| BybitExecutions.PositionsFromMap | backend/internal/api/api_bybit.go:331-365 | the map turns into exactly one position per order id, in some order |
| BybitExecutions.GetExecutionHistory | backend/internal/api/api_bybit.go:179-368 | an error in the trace is returned; otherwise one position per distinct closing order id, from its last execution |
| Mexc.CollectKeys | backend/internal/api/api_mexc.go:52-55 | the key loop collects every parameter name once |
| Mexc.SortedKeysOf | backend/internal/api/api_mexc.go:52-56 | the sorted key list is strictly ascending and holds exactly the parameter names |
| Mexc.JoinPairs | backend/internal/api/api_mexc.go:58-64 | the join loop yields the `k=v` pairs joined by `&`, with no leading or trailing `&` |
| Mexc.BuildQuery | backend/internal/api/api_mexc.go:52-64 | the query is the canonical sorted query of the parameters |
| Mexc.EmptyQuery | backend/internal/api/api_mexc.go:52-64 | no parameters give the empty query |
| Mexc.PageQuery | backend/internal/api/api_mexc.go:110-113 | the page request's query is `page_num=<n>&page_size=100` |
| Mexc.SignV1Payload | backend/internal/api/api_mexc.go:39-44 | the payload is apiKey + the decimal timestamp + the query |
| Mexc.SignedQueryIsSent | backend/internal/api/api_mexc.go:66-90 | the query that is signed is the one sent in the URL, after `?` only when non-empty |
| Mexc.DoRequestV1 | backend/internal/api/api_mexc.go:48-98 | the request is built from the canonical query, and the status rule is applied to its outcome |
| Mexc.ContractSize | backend/internal/api/api_mexc.go:255-268 | 0.001 for BTCUSDT, 0.01 for ETHUSDT, 10 otherwise |
| Mexc.Side | backend/internal/api/api_mexc.go:182-185 | position type 2 is `Sell` and every other type is `Buy` |
| Mexc.ToPosition | backend/internal/api/api_mexc.go:181-203 | order id is the decimal position id; exchange is `mexc`; pnl, leverage and date are copied; volume = closeVol × openAvgPrice × contract size |
| Mexc.OrderIdDeterminesPositionId | backend/internal/api/api_mexc.go:194 | equal order ids come from equal position ids |
| Mexc.AppendPositions | backend/internal/api/api_mexc.go:181-203 | the mapping loop appends the converted page in order |
| Mexc.StepOf | backend/internal/api/api_mexc.go:115-210 | a page after which paging continues holds at least 100 entries; a last page holds fewer |
| Mexc.FetchPage | backend/internal/api/api_mexc.go:104-210 | one page request yields the specified page step |
| Mexc.GetPositions | backend/internal/api/api_mexc.go:104-215 | the paging loop yields the specified result and requests the specified pages |
| Mexc.PagesAreConsecutive | backend/internal/api/api_mexc.go:106-210 | pages are requested from 1 upward, one at a time, ending at the first failed or last page |
| Mexc.PagesFromBoundIrrelevant | backend/internal/api/api_mexc.go:106-210 | the result does not depend on the termination bound used in the proof |
| Mexc.FailedPageFailsAll | backend/internal/api/api_mexc.go:131-133 | a failed page fails the whole fetch with its error |
| Mexc.PagesFromCollectsEntries | backend/internal/api/api_mexc.go:181-208 | on success the result is the converted entries of all requested pages, in page order |
| Mexc.BalanceOf | backend/internal/api/api_mexc.go:218-250 | code 404 gives 0 without error; other failures are errors; an unparseable balance becomes 0 |
| Mexc.GetBalance | backend/internal/api/api_mexc.go:218-250 | the balance call sends an empty query and decodes the outcome as above |
| Gate.SignPayloadIsJoin | backend/internal/api/api_gate.go:34-35 | the payload is verb, path, query, body and timestamp joined by `\n` |
| Gate.SignPayloadNewlines | backend/internal/api/api_gate.go:35 | the payload has exactly four more newlines than its fields |
| Gate.Request | backend/internal/api/api_gate.go:41-58 | the URL follows the query rule; the signature signs an empty body; the timestamp header is the decimal seconds |
| Gate.DoRequest | backend/internal/api/api_gate.go:41-76 | the body is returned exactly on status 200; any other status is an error |
| Gate.GetPositions | backend/internal/api/api_gate.go:82-84 | always an empty list and no error |
| Bitget.SignPayload | backend/internal/api/api_bitget.go:36-41 | the payload is timestamp + verb + requestPath + body, in that order |
| Bitget.Request | backend/internal/api/api_bitget.go:43-62 | the URL follows the query rule; the signature is the base64 of the MAC of the payload over the endpoint alone |
| Bitget.QueryNotSigned | backend/internal/api/api_bitget.go:45 | the signature does not depend on the query string |
| Bitget.DoRequest | backend/internal/api/api_bitget.go:43-78 | the body is returned exactly on status 200; any other status is an error |
| Bitget.GetPositions | backend/internal/api/api_bitget.go:84-86 | always an empty list and no error |
| Bitget.GetBalance | backend/internal/api/api_bitget.go:89-115 | a non-zero code is an error; on code 0 the USDT value, or 0 when it is unparseable |
| TestHandler.TestOrderId | backend/internal/handler/test_handler.go:57 | generated order ids start with `test_position_` |
| TestHandler.TestOrderIdsDistinct | backend/internal/handler/test_handler.go:57 | ids from different loop indexes differ, whatever the clock read |
| TestHandler.Intn | backend/internal/handler/test_handler.go:44-53 | `rand.Intn(n)` is below n |
| TestHandler.Generated | backend/internal/handler/test_handler.go:40-66 | a generated position has leverage in [1,20], volume in [100,9999], pnl in [-500,999], a known exchange, symbol and side, and a date a whole number of days back, 0 to 179 |
| TestHandler.GeneratePositions | backend/internal/handler/test_handler.go:38-66 | the loop produces exactly 100 positions, the i-th as specified |
| TestHandler.GeneratedOrderIdsDistinct | backend/internal/handler/test_handler.go:57 | the generated batch never repeats an order id |
| TestHandler.AsWrittenSelectsNothing | backend/internal/handler/test_handler.go:106 | as written, no order id passes the selection test |
| TestHandler.GeneratedIdsNotSelectedAsWritten | backend/internal/handler/test_handler.go:57-106 | generated ids start with `test_position` yet fail the test as written |
| TestHandler.GeneratedIdsSelected | backend/internal/handler/test_handler.go:57-106 | the intended prefix test selects every generated id |
| TestHandler.PurgedCount | backend/internal/handler/test_handler.go:104-112 | the deleted count never exceeds the number of positions visited |
| TestHandler.AsWrittenPurgeIsNoOp | backend/internal/handler/test_handler.go:104-112 | as written, the loop reports 0 and leaves the store unchanged |
| TestHandler.PurgeSubset | backend/internal/handler/test_handler.go:104-112 | the loop only removes rows |
| TestHandler.PurgeKeeps | backend/internal/handler/test_handler.go:104-112 | a row that no successful delete named survives |
| TestHandler.PurgeRemoves | backend/internal/handler/test_handler.go:104-112 | a selected position whose delete succeeded is gone |
| TestHandler.TestRowsRemoved | backend/internal/handler/test_handler.go:104-112 | with the corrected test and no failing delete, no test position is left |
| TestHandler.OrdinaryRowsSurvive | backend/internal/handler/test_handler.go:104-112 | with the corrected test, every row that is not a test position survives |
| TestHandler.TestHandler.GenerateTestPositions | backend/internal/handler/test_handler.go:22-80 | a non-POST gives 405 with the store untouched; otherwise 100 positions are generated and batch-saved, and a failing statement leaves the store unchanged and gives 500 |
| TestHandler.TestHandler.PurgeListed | backend/internal/handler/test_handler.go:104-112 | for a given selection test, the deletion loop leaves `Purged` of the listing and counts the selected rows whose delete succeeded |
| TestHandler.TestHandler.DeleteTestPositions | backend/internal/handler/test_handler.go:82-120 | as written: a non-POST gives 405; a listing error gives 500; otherwise the reply counts 0; in every case the table is unchanged |
| TestHandler.TestHandler.DeleteTestPositionsIntended | backend/internal/handler/test_handler.go:102-112 | with the prefix test the comment describes: the count is at most the rows listed, only rows are removed, non-test rows survive, and with no failing delete no test row remains |
| WebSocket.NextTimeout | frontend/src/api/websocket.ts:44 | the timeout doubles and is capped at 30000, staying in [3000, 30000] |
| WebSocket.TimeoutAfter | frontend/src/api/websocket.ts:17-44 | after any number of closes, the timeout is in [3000, 30000] |
| WebSocket.TimeoutAfterDoubles | frontend/src/api/websocket.ts:17-44 | after k closes the timeout is min(3000·2^k, 30000) |
| WebSocket.CapReachedAfterFourCloses | frontend/src/api/websocket.ts:44 | the timeouts run 3000, 6000, 12000, 24000, then 30000 from the fourth close on |
| WebSocket.UnsubscribeRemovesAll | frontend/src/api/websocket.ts:66-68 | unsubscribing removes every occurrence of that listener and keeps the other listeners |
| WebSocket.WebSocketService.constructor | frontend/src/api/websocket.ts:15-18 | no socket, no listeners, timeout 3000, no manual close |
| WebSocket.WebSocketService.Connect | frontend/src/api/websocket.ts:20-54 | the manual-close flag is cleared; a socket is opened unless construction throws |
| WebSocket.WebSocketService.OnOpen | frontend/src/api/websocket.ts:26-29 | opening resets the timeout to 3000 |
| WebSocket.WebSocketService.OnClose | frontend/src/api/websocket.ts:40-46 | an unexpected close schedules a reconnect with the current timeout and then doubles it, capped; after a manual close, nothing is scheduled |
| WebSocket.WebSocketService.OnMessage | frontend/src/api/websocket.ts:31-38 | a parsed message is delivered to every listener in list order; a parse failure delivers to none |
| WebSocket.WebSocketService.Disconnect | frontend/src/api/websocket.ts:56-62 | sets the manual-close flag and drops the socket |
| WebSocket.WebSocketService.AddListener | frontend/src/api/websocket.ts:64-65 | appends the listener |
| WebSocket.WebSocketService.Unsubscribe | frontend/src/api/websocket.ts:66-68 | the listeners become the filtered list, without that listener, the others kept in order |
| FrontendExchanges.FindById | frontend/src/config/exchanges.ts:40-42 | `find` returns the first entry with the id, or none exactly when no entry has it |
| FrontendExchanges.GetExchangeById | frontend/src/config/exchanges.ts:40-42 | the entry of the table whose id equals the argument, or undefined when there is none |
| FrontendExchanges.GetExchangeIds | frontend/src/config/exchanges.ts:44-46 | the ids in table order, as many as there are entries |
| FrontendExchanges.IdsInOrder | frontend/src/config/exchanges.ts:9-38 | the table lists mexc, bybit, gate and bitget, in that order, with distinct ids |
| FrontendExchanges.ByIdDefinedIffListed | frontend/src/config/exchanges.ts:40-46 | an id is found exactly when it is among the listed ids, and then it is that entry |

## Left out

- HTTP transport, JSON decoding, HMAC-SHA256, hex and base64 encoding are
  foreign. They are parameters: `send`, `decode`, `Mac`, or oracles of
  already-decoded page replies in which the shapes of `interface{}` values
  are explicit. Only the request URLs, headers and signed payload strings
  are modelled exactly.
- Clocks (`time.Now`), `rand.Read` and `rand.Intn` are not modelled as
  such, and `time.Sleep` pauses, rate-limit delays and context timeouts are
  left out. Readings
  and draws are parameters, and `rand.Intn(n)` is the k-th draw modulo n.
- Go panics from single-value type assertions on decoded JSON are left
  out; the fields are taken to be present with the asserted type.
- Floating point is modelled as `real`. Rounding in volumes, balances and
  sums is not modelled. `ParseFloat`/`Atoi` failures become the 0 default
  the code uses.
- PostgreSQL is reduced to in-memory tables.
  - Faults are parameters.
  - `SendBatch` is taken to run as one implicit transaction, so a failing
    statement leaves the table unchanged.
  - The `updated_at = NOW()` audit column and `created_at` defaults are
    not stored. Credentials keep `created_at`/`updated_at` from the clock
    parameter.
- The order of rows with equal dates or equal keys from the database is
  unspecified. It is modelled by one fixed permutation function, and the
  contracts state only permutation and order.
- Go map iteration order in `getExecutionHistory`'s output and in
  `getMapKeys` is left out. The output is specified as one position per
  map entry in some order.
- `getMapKeys` (backend/internal/api/api_bybit.go:449-455) is logging
  support and is not modelled.
- `getExecutionHistory` is modelled although `GetPositionsWithContext`
  calls only `getClosePnl`.
- In the execution-history window, only four 7-day windows back from `now`
  are ever requested, although the limit is 30 days.
  `BybitExecutions.TraceRequestsInRange` states this as the code behaves.
- Calendar arithmetic:
  - `AddDate(0, 0, -maxHistory)` in `getClosePnl` is a parameter
    (`maxHistory`).
  - The month windows of `CalculateMonthly*` are computed exactly in UTC,
    with Go's month normalisation.
  - Local time zones are not modelled.
- The goroutine, ticker and `stopChan` select of `SyncService.Start` and
  `Stop` are modelled as a sequence of tick and stop events. The websocket
  Hub's `Broadcast` is modelled as an appended message list.
- In sync, the fetch for each exchange is a parameter. The Gate and Bitget
  adapters return empty lists.
- `ExchangeClient` has no `GetBalance`, although `getExchangeBalance`
  calls it. The per-exchange balance fetch is therefore a parameter
  covering the four adapters' `GetBalance` models.
- `APIKeyService` (backend/internal/service/api_key_service.go) is a
  pass-through. The handlers and the balance service use the credential
  table directly.
- `model.go` lacks the Volume and Margin fields the adapters and the
  position repository use. The model follows the repository: Volume is
  stored. Margin is computed by the Bybit adapter but never stored, so it
  is left out.
- The position's `date` stands for the value bound to the `date` column,
  which `SavePosition` takes from `UpdatedAt`.
- ApiKeyRepository.SortedRows orders `ORDER BY exchange` by code point.
  A PostgreSQL collation can order non-ASCII names differently; that is
  not modelled.
- ApiKeyHandler.Mask works on characters; Go slices bytes, so multibyte
  UTF-8 text is not modelled.
- Logging, JSON response encoding, HTTP routing, CORS and the other
  handlers, `LoadConfig`, the database pool and migrations, `api.ts` and
  the React pages are left out.
- WebSocket:
  - The `onerror` handler, `isConnected` (it reads the browser's
    `readyState`) and the callbacks of stale sockets are not modelled.
  - `setTimeout` is modelled as a list of scheduled reconnects.
- The comment on `GenerateManualID` (backend/pkg/utils/id_generator.go:10)
  omits the entity type, which the code includes. The model follows the
  code.

## Findings

| source | as written | input that shows it | evidently intended | confidence | as-written member | corrected member |
|---|---|---|---|---|---|---|
| backend/internal/handler/test_handler.go:106 | the 14-byte prefix `OrderID[:14]` is compared with the 13-byte literal `"test_position"`, so no id ever matches, nothing is deleted, and the reply reports 0 | any generated id, e.g. `test_position_5_0` | delete the positions whose order id starts with `test_position` | not executed | TestHandler.TestHandler.DeleteTestPositions | TestHandler.TestHandler.DeleteTestPositionsIntended |
