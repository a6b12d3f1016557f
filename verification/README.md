# Budget, tenancy and playground cores of litegen

This project models the parts of the litegen gateway, its dashboard playground and its
model registry where the code's correctness is an argument across several functions,
and proves those arguments.

* `BudgetWindows`, `Calendar`: parsing budget durations and rolling windows forward on
  nanosecond instants and the Gregorian calendar.
* `LimitsStore`, `RollingWindows`: the limits rows, their atomic statements, and every
  interleaving of callers that read, roll by compare-and-set, reserve, charge and alert.
* `Enforcement`: concurrent requests that reserve row by row, refund on refusal and settle
  later, while windows roll underneath them as in `RollingWindows`.
* `LoneRequests`: what one such request does when nothing runs in between.
* `KeyQuota`, `UpdateBuilders`: the quota of an API key and the dynamic UPDATE statements
  of the two database backends.
* `TenantStore`: deleting an organization or application across sixteen tables, on
  both backends.
* `Timestamps`, `RequestLogs`, `Pagination`: the string range filters, the count and the
  pages of the request log.
* `GenerationCache`: the cache key and the lossy cache.
* `CapabilityRegistry`: loading the catalog, its provider index and the runtime layer.
* `FanOut`, `PlaygroundParams`: the playground's worker pool and its merged parameters.
* `ModelRegistry`, `Percentiles`, `Lockout`: smaller supporting cores.
* `Common`, `Text`: shared datatypes, numerals and text order.

Code that updates state is modelled by classes whose methods are proved against functions
on values; the theorems about whole runs are about those functions. Money and latencies
are exact numbers. SHA-256 is any injective function. Clocks, database failures and the
interleaving of callers are arbitrary.

Where the code differs from what its comments say, the model follows the code, and the
exact condition is proved:

* `next_after` does not return the first end after `now` for a fixed window that ends
  within the next millisecond (`NextAfterIsFirst`); its caller's guard excludes that.
* A month window set on day 29 to 31 does not keep its anchor (`MonthAnchored`,
  `MonthDrift`).
* A reservation settled after its window rolled is subtracted from the new window, which
  can go below zero and then admits more than the cap (`SettleAfterRoll`,
  `LateCreditWitness`), exactly when what was carried into it is negative
  (`CapHoldsIffNoCredit`).
* A refused request whose estimate is at most two to the power -52 keeps its reservations
  (`RefusedAlone`).
* The Postgres builder casts the rate limit to i32, the SQLite one to i64
  (`BackendsAgree`).
* Requests with a NUL in a field can collide (`PromptCollides`), and only those
  (`ToldApartIffNulFree`, `TextToldApartIffNulFree`).
* The lock can outlast the advertised retry time, which is rounded down to seconds and
  looks at the oldest failure only (`LockOutlastsBySecond`, `LockOutlastsRetry`); the exact
  condition is `AdvertisedTimeExact`.
* Among models of one name and standing the first one read is shown, not the one whose id
  matches a disk slug (`DiskSlugWins`, `DiskSlugIgnored`).
* The page count is cut to a u32 (`TotalPagesExact`), an offset past an i64 gives the first
  page (`PageIsSlice`), and text order of timestamps fails
  from the year 10000 on (`LaterSortsLater`), as do range bounds there (`RangeReadRight`).
* The unscoped log filter takes ISO 8601 bounds as text, which compare by date alone with
  the stored form: with a time of day only a `to` at the last second of a day is right
  (`IsoBoundRight`), without one only a `from` (`DateBoundRight`).
* SQLite checks no reference of the tenant columns added to existing tables, so deleting an
  organization can orphan rows there that Postgres protects (`OrphansIffPostgresRefuses`,
  `OrphanWitness`).

## Model

| member | source | states |
|---|---|---|
| BudgetWindows.ParseAccepts | litegen-core/src/management/budget.rs:19-39 | A text parses exactly if, trimmed, it is a run of ASCII digits with value 1 to 100000 directly followed by one of the six units; the result is the window they denote; otherwise the error quotes the trimmed text |
| BudgetWindows.ParsePrint | litegen-core/src/management/budget.rs:19-39 | Parsing the decimal print of any such count and unit, inside any white space, gives back the window |
| BudgetWindows.ParsedIsRegular | litegen-core/src/management/budget.rs:19-39 | Every parsed window is a whole number of milliseconds or at least one month |
| BudgetWindows.UnitsInNanoseconds | litegen-core/src/management/budget.rs:30-38 | What each of the six forms denotes, as a number of nanoseconds or of months |
| BudgetWindows.RefusalText | litegen-core/src/management/budget.rs:21 | The text of a refusal, with the trimmed input quoted |
| BudgetWindows.ComputeNextAfter | litegen-core/src/management/budget.rs:54-70 | The imperative body, closed form and month loop, computes the specification and terminates |
| BudgetWindows.SkipIsFirst | litegen-core/src/management/budget.rs:57-65 | For a lapsed fixed window, the closed form over the gap truncated to milliseconds lands on the same end as stepping one window at a time: the first strictly after `now` |
| BudgetWindows.MonthsNextIsFirst | litegen-core/src/management/budget.rs:66-69 | The month loop returns the least iterate strictly after `now` |
| BudgetWindows.NextAfterIsFirst | litegen-core/src/management/budget.rs:52-70 | The result is the first window end after `now` if and only if it is not a fixed window that ends within the next millisecond: then the truncated gap makes an open window look lapsed |
| BudgetWindows.LapsedRollsToFirstEnd | litegen-core/src/management/budget.rs:85-96 | A window is rolled exactly when it has a valid duration and its end is not after `now`, and then always to the first end after `now`: the guard excludes the failing case |
| BudgetWindows.InitialResetIsFirstEnd | litegen-core/src/management/budget.rs:73-80 | A window that starts now first resets at the first window end after now, one step on; no duration never resets; a bad one is refused with the error of parsing |
| BudgetWindows.MonthIterate | litegen-core/src/management/budget.rs:43-50 | The k-th month end is k*n months on, at the same time of day, on the smallest of the anchor's day and the lengths of all months visited |
| BudgetWindows.MonthAnchored | litegen-core/src/management/budget.rs:3-6 | The day never grows; it stays the anchor's exactly while every month visited has that day; always so for days 1 to 28 |
| BudgetWindows.MonthDrift | litegen-core/src/management/budget.rs:43-50 | Stepping month by month agrees with adding all months to the anchor at once if and only if no month on the way is shorter than the day the last one gives |
| BudgetWindows.MonthDriftWitness | litegen-core/src/management/budget.rs:66-69 | 31 January 2026 stepped twice by one month is 28 March, not 31 March |
| Calendar.MonthStartClosed | litegen-core/src/management/budget.rs:46-48 | Counting days month by month agrees with the closed Gregorian formula, leap years included, for every month |
| Calendar.KnownDate | litegen-core/src/management/budget.rs:46-48 | Day 719162 is 1 January 1970 |
| Calendar.DateOrder | litegen-core/src/management/budget.rs:66 | The order of dates is the order of instants |
| Calendar.DateOfDayNumber | litegen-core/src/management/budget.rs:46-48 | Day numbers and dates convert into each other without loss |
| Calendar.AddMonthsFields | litegen-core/src/management/budget.rs:46-48 | Adding months moves the month number, clamps the day and keeps the time of day |
| Calendar.AddMonthsAdvances | litegen-core/src/management/budget.rs:46-48 | Adding at least one month strictly advances an instant |
| LimitsStore.ManagementStore.UpsertLimits | litegen-core/src/management/sql.rs:239-272 | The row is written as given, all others kept |
| LimitsStore.ManagementStore.DeleteLimits | litegen-core/src/management/sql.rs:274-278 | Exactly that row goes; the result says whether it was there |
| LimitsStore.ManagementStore.RollLimitsWindow | litegen-core/src/management/sql.rs:280-302 | Succeeds exactly if the row still has the expected reset time, NULL-safely; then zero spend, no alert, the next reset time, and every other field and row as before |
| LimitsStore.ManagementStore.ReserveLimitsSpend | litegen-core/src/management/sql.rs:304-318 | Adds the amount exactly if the row exists and it fits the cap; every field but the spend, and every other row, is as before |
| LimitsStore.ManagementStore.ChargeLimitsSpend | litegen-core/src/management/sql.rs:320-332 | Adds the delta unconditionally and returns the new spend; every field but the spend, and every other row, is as before |
| LimitsStore.ManagementStore.MarkSoftBudgetAlerted | litegen-core/src/management/sql.rs:334-341 | Records the instant of the alert exactly if none is recorded, and changes nothing else |
| LimitsStore.ManagementStore.LoadCurrent | litegen-core/src/management/enforce.rs:206-224 | Returns the stored row, rolled first exactly if its window lapsed |
| RollingWindows.RollAdvances | litegen-core/src/management/enforce.rs:206-224 | A successful roll by any caller, from whatever it read and on its own clock, moves the reset time strictly forward to the first window end after that clock |
| RollingWindows.RollsFormChain | litegen-core/src/management/store.rs:25-27 | Along every interleaving the rolls of a row form a strictly increasing chain: each starts where the one before ended, so each reset time is rolled away at most once |
| RollingWindows.StaleNeverRolls | litegen-core/src/management/store.rs:25-27 | Once the reset time has passed a value, no roll that expects that value ever succeeds again |
| RollingWindows.StepSeen | litegen-core/src/management/enforce.rs:206-211 | A read gives a caller the row as it is, and no other call changes what a caller has read |
| RollingWindows.ResetStaysOnGrid | litegen-core/src/management/budget.rs:3-6 | In every interleaving the reset time is a whole number of windows after the moment the budget was set, at least one more for every roll; before any roll it is one window after it |
| RollingWindows.ResetIsFirstEnd | litegen-core/src/management/budget.rs:3-6 | In every interleaving the reset time is the first window end, counted from the moment the budget was set, after the clock of the last roll, whatever rolls and stale views led there |
| RollingWindows.FixedGrid | litegen-core/src/management/budget.rs:3-6 | For a fixed length those instants are exactly the set time plus k steps, k at least 1 |
| RollingWindows.SpendIsConserved | litegen-core/src/management/store.rs:25-41 | In every interleaving the spend equals the amounts and deltas accepted since the last roll, and at most one soft alert is recorded per window |
| RollingWindows.ReserveDecidesOnHistory | litegen-core/src/management/store.rs:35-37 | After any interleaving a reservation is accepted exactly when the row exists and the amount, on top of everything accepted since the last roll, stays within the cap the row began with |
| RollingWindows.StepKeepsCap | litegen-core/src/management/store.rs:35-39 | One statement takes a row over its cap exactly if it is an unconditional charge that does |
| RollingWindows.SpendNeverExceedsCap | litegen-core/src/management/store.rs:35-39 | With charges that only refund, no interleaving of reserves, refunds and rolls passes the hard cap |
| Enforcement.StepInv | litegen-core/src/management/enforce.rs:337-479 | Every store call of every request keeps the protocol's bookkeeping: a request settles only rows it reserved, each once, in the same or a later window |
| Enforcement.AdvanceShare | litegen-core/src/management/enforce.rs:247-273 | One store call moves a row's spend by exactly the change of that request's share |
| Enforcement.SpendIsShares | litegen-core/src/management/enforce.rs:453-478 | In every interleaving of requests that reserve row by row, refund on refusal and settle, with windows rolling at any moment, a row's spend is what its window opened with plus every request's share |
| Enforcement.RunsAreStoreRuns | litegen-core/src/management/enforce.rs:206-273 | Every run of requests, with callers reading and rolling lapsed windows in between from stale reads too, is a run of the store calls of `RollingWindows`, and the windows counted are its successful rolls |
| Enforcement.WindowsStayOnGrid | litegen-core/src/management/budget.rs:3-6 | In every such run the reset time of a budget is a whole number of windows after it was set, at least one more than it rolled, exactly one before any roll, and the first after the clock of the last roll |
| Enforcement.WindowSpend | litegen-core/src/management/enforce.rs:244-273 | Once all requests have finished, a window's spend is its opening plus the final costs settled in it less the estimates reserved in an earlier window; so it is the true cost if and only if no positive reservation crossed a roll |
| Enforcement.SettleAfterRoll | litegen-core/src/management/enforce.rs:247-273 | A request, on however many rows, that settles after a caller rolled the window of one of them leaves that window at its correction alone, below zero if it cost less than it reserved; the window then admits exactly that much more than its cap |
| Enforcement.CapHoldsIffNoCredit | litegen-core/src/management/enforce.rs:247-273 | In every interleaving a window admits no reservation past its cap, counting what its own requests have taken, if and only if the corrections carried into it are not negative; for positive amounts, or if it is full |
| Enforcement.LateCreditWitness | litegen-core/src/management/enforce.rs:206-273 | A budget of 10 a day, set at 0: a reservation of 10 crosses the roll at the end of the day and settles at 0, and the new day then reserves and bills 20 |
| Enforcement.SpendWithinCapAndOverrun | litegen-core/src/management/enforce.rs:247-273 | In every interleaving a row passes its cap by no more than the costs settled in its current window passed their own reservations |
| Enforcement.EstimatesKeepTheCap | litegen-core/src/management/enforce.rs:247-273 | In every interleaving a row is within its cap as long as no request settled in its current window cost more than it reserved |
| Enforcement.BilledWithinCap | litegen-core/src/management/enforce.rs:247-273 | Once all requests have finished, the costs billed to a window pass the cap by at most the overruns of that window and the estimates reserved before it began |
| LoneRequests.HeldAlone | litegen-core/src/management/enforce.rs:445-478 | With nothing in between, a request whose estimate every row takes is held with each of its rows, and no other, charged the estimate; an estimate of nothing or less reserves nothing and is always held |
| LoneRequests.RefusedAlone | litegen-core/src/management/enforce.rs:453-464 | With nothing in between, a request refused by a row ends with every row as it was, however many it had reserved, if its estimate exceeds two to the power -52; a smaller one stays charged to exactly the rows it had reserved |
| LoneRequests.SettledAlone | litegen-core/src/management/enforce.rs:247-273 | With nothing in between, a held request that settles leaves each of its rows at its cost instead of its estimate |
| LoneRequests.ReserveCall | litegen-core/src/management/enforce.rs:453-456 | In any state, a row that takes the amount is charged exactly that, and no row is asked for an amount of zero |
| LoneRequests.RefusedCall | litegen-core/src/management/enforce.rs:457-464 | In any state, a row that does not take it is left alone and the request starts to give back what it took, at a cost of nothing |
| LoneRequests.SettleCall | litegen-core/src/management/enforce.rs:252-256 | In any state, settling charges a row the difference of cost and estimate, if it exceeds the epsilon |
| KeyQuota.KeyStore.ReserveTokens | litegen-core/src/db/sqlite.rs:480-491 | Adds the amount exactly if it fits the quota |
| KeyQuota.KeyStore.AtomicChargeTokens | litegen-core/src/db/sqlite.rs:459-478 | Adds the cost and returns the new total, or reports the missing key |
| KeyQuota.QuotaConserved | litegen-core/src/db/postgres.rs:463-491 | In every interleaving the tokens used are those accepted, limits and keys stay, and with refunds only the quota is never passed |
| KeyQuota.ReserveDecidesOnHistory | litegen-core/src/db/sqlite.rs:480-491 | After any run of calls a token reservation is refused exactly when the key is missing or the amount, on top of everything accepted so far, passes the limit the key began with |
| TenantStore.Store.Run | litegen-core/src/db/postgres.rs:1348-1361 | One statement deletes its matching rows and their cascades, or is refused if a reference the backend checks would dangle |
| TenantStore.Store.DeleteOrganization | litegen-core/src/db/postgres.rs:1341-1376 | On either backend the loops of the transaction perform the statement list in order; a refusal rolls everything back; the result says whether the organization existed |
| TenantStore.Store.DeleteApplication | litegen-core/src/db/postgres.rs:1533-1560 | The same for an application |
| TenantStore.StageStep | litegen-core/src/db/sqlite.rs:1326-1352 | The n-th statement clears exactly the rows of the deleted tenant in the n-th table, and its cascades clear nothing else |
| TenantStore.DeletionTheorem | litegen-core/src/db/postgres.rs:1341-1376 | The transaction succeeds if and only if no reference the backend checks, from a row of another owner, points into what it deletes; then no intermediate state has a checked reference dangling and exactly the owned rows are gone; tenancy consistency suffices |
| TenantStore.RefusedExactly | litegen-core/src/db/postgres.rs:1341-1376 | A deletion is refused exactly while another owner's row names, on Postgres an application or a key of the deleted tenant, on SQLite a key |
| TenantStore.BareDeleteRefused | litegen-core/src/db/sqlite.rs:1319-1323 | Deleting the organization alone is refused exactly while a row that does not go with it names it in a checked table: on SQLite its members and applications, on Postgres any |
| TenantStore.BareApplicationRefused | litegen-core/src/db/postgres.rs:1533-1560 | The same for an application: refused exactly while its storage credentials, or on Postgres any row but those of its model access, name it |
| TenantStore.SharedKeyRefused | litegen-core/migrations/sqlite/20240101000003_generations.sql:4 | A generation of one organization made with a key of another refuses the deletion on either backend |
| TenantStore.OthersUntouched | litegen-core/src/db/sqlite.rs:1318-1355 | On either backend, under tenancy consistency every surviving row is unchanged and names neither the organization nor its applications, and every removed row named one of them |
| TenantStore.OrphansIffPostgresRefuses | litegen-core/src/db/sqlite.rs:1318-1325 | A deletion that succeeds leaves no row naming something it removed if and only if Postgres would have let it through |
| TenantStore.OrphanWitness | litegen-core/migrations/sqlite/20240101000008_multitenant.sql:45-58 | A log of one organization under an application of another: Postgres refuses the deletion, SQLite performs it and orphans the log |
| TenantStore.ConsistentIsIsolated | litegen-core/src/db/sqlite.rs:1319-1323 | If rows agree with their application and key about the tenant, nothing points across tenants |
| UpdateBuilders.BuiltStatement | litegen-core/src/db/postgres.rs:417-442 | A built UPDATE executed with its bind list patches exactly the named row with the bound fields, for positional and for numbered parameters |
| UpdateBuilders.StampedStatement | litegen-core/src/db/postgres.rs:985-995 | An unparameterised clock column before the WHERE disturbs no binding, in either style |
| UpdateBuilders.ApiKeyMeaning | litegen-core/src/db/sqlite.rs:416-437 | The fields the two passes collect are exactly the supplied columns with their values |
| UpdateBuilders.UserMeaning | litegen-core/src/db/sqlite.rs:960-970 | The same for users, with the update time |
| UpdateBuilders.ApiKeyColumns | litegen-core/src/db/sqlite.rs:416-437 | Column by column: each given field is stored with its value, each other column is as before, and so is every other row |
| UpdateBuilders.UserColumns | litegen-core/src/db/sqlite.rs:960-970 | The same for a user, with the update time |
| UpdateBuilders.SqliteDatabase.UpdateApiKey | litegen-core/src/db/sqlite.rs:411-445 | Exactly the given columns of exactly that row are set, each to the given value; the result is the row as stored, or nothing |
| UpdateBuilders.SqliteDatabase.UpdateUser | litegen-core/src/db/sqlite.rs:953-978 | The same for a user, and the update time is set |
| UpdateBuilders.PostgresDatabase.UpdateApiKey | litegen-core/src/db/postgres.rs:412-449 | The same with numbered parameters, the rate limit stored as i32 |
| UpdateBuilders.PostgresDatabase.UpdateUser | litegen-core/src/db/postgres.rs:975-1002 | The same for a user with numbered parameters |
| UpdateBuilders.BackendsAgree | litegen-core/src/db/postgres.rs:437 | The backends store the same row for a patch if and only if its rate limit, when given for an existing key, is below two to the 31 |
| Timestamps.RenderOrder | litegen-core/src/db/sqlite.rs:2000-2003 | For years 0 to 9999 text order of rendered timestamps is the order of the instants truncated to seconds |
| Timestamps.RenderReads | litegen-core/src/db/sqlite.rs:2003 | A rendered timestamp has year, month, day, hour, minute and second in their places, as digits that read back to them |
| Timestamps.YearReads | litegen-core/src/db/sqlite.rs:2003 | Outside the years 0 to 9999 the year is written with a sign and reads back |
| Timestamps.LaterSortsLater | litegen-core/src/db/sqlite.rs:2000-2003 | From such an instant on, a later one sorts later if and only if it is still in those years |
| RequestLogs.WhereMeans | litegen-core/src/db/sqlite.rs:291-305 | The pushed conditions select exactly the rows with the given fields whose stored text lies between the bound texts, for every combination of filters |
| RequestLogs.TenantReads | litegen-core/src/db/sqlite.rs:2001-2015 | For every bound, the rendered filter keeps exactly the tenant's rows with the given fields in the chronological range at second granularity, except that a bound past the year 9999 counts as one before everything |
| RequestLogs.RangeReadRight | litegen-core/src/db/sqlite.rs:2000-2003 | Text comparison is chronological for every stored row if and only if no bound is past the year 9999, or both are, or the lower one is and the upper one lies before the year 0 |
| RequestLogs.IsoBoundRight | litegen-core/src/types/mod.rs:533-536 | A raw ISO 8601 bound with its time of day in UTC: a `from` is never right about all stored rows, dropping the one at the bound itself; a `to` is right about all of them if and only if it names the last second of its day |
| RequestLogs.DateBoundRight | litegen-core/src/types/mod.rs:533-536 | A raw ISO 8601 bound of a date alone: a `from` is right about every stored row; a `to` drops all rows of its own date, so it is right about all rows neither as midnight nor as the whole day |
| RequestLogs.Database.BuildWhere | litegen-core/src/db/sqlite.rs:291-305 | The builder's pushes, for every combination of filters, yield a clause with that meaning |
| RequestLogs.Database.GetRequestLogsFiltered | litegen-core/src/db/sqlite.rs:280-343 | The count is the number of matching rows, the data the asked page of them |
| RequestLogs.Database.GetRequestLogsForTenantFiltered | litegen-core/src/db/sqlite.rs:1991-2027 | The same for the rows a tenant's filter reads, which are the wanted ones if the range is in order |
| RequestLogs.NewestFirst | litegen-core/src/db/sqlite.rs:2024 | Ordering by the text column is ordering by time, newest first, at second granularity |
| RequestLogs.PagesCoverListing | litegen-core/src/db/sqlite.rs:2013-2025 | Pages 1 to the page count of any filtered listing, concatenated, are ordered and repeat nothing, and are the whole listing if and only if the page count fits a u32 |
| RequestLogs.PageIsSlice | litegen-core/src/api/pagination.rs:42-47 | A page is the rows after those of the pages before it, unless their number does not fit an i64: then it is the first page |
| Pagination.OffsetExact | litegen-core/src/api/pagination.rs:42-47 | The offset never saturates; its cast to i64 is exact if and only if it is below two to the 63, as it is for every allowed page size |
| Pagination.TotalPagesExact | litegen-core/src/api/pagination.rs:52-55 | The page count covers all rows if and only if they fit a u32 of pages, and then no smaller count does |
| GenerationCache.StreamInjective | litegen-core/src/proxy/cache.rs:115-118 | The NUL-terminated encoding of NUL-free fields is injective |
| GenerationCache.StreamLayout | litegen-core/src/proxy/cache.rs:115-118 | The bytes of a list are its fields in order, each followed by a NUL |
| GenerationCache.FieldsInOrder | litegen-core/src/proxy/cache.rs:119-140 | The sixteen fields of a request, their order, and what stands for an absent one |
| Text.IntTextReads | litegen-core/src/proxy/cache.rs:126-127 | A number is hashed as a minus if it is negative and its digits without leading zeros |
| GenerationCache.PromptCollides | litegen-core/src/proxy/cache.rs:108-142 | A request whose prompt holds a NUL feeds the hasher the same bytes as one that differs in prompt and negative prompt only |
| GenerationCache.ToldApartIffNulFree | litegen-core/src/proxy/cache.rs:10-15 | A request shares its bytes with no request that differs beyond absent text and tenant if and only if none of its fields holds a NUL |
| GenerationCache.TextToldApartIffNulFree | litegen-core/src/proxy/cache.rs:10-15 | The same among requests that differ only in tenant, model, prompts, size, ratio, quality and style, so with the same numbers, response format and JSON |
| GenerationCache.KeysMeanNormal | litegen-core/src/proxy/cache.rs:108-142 | A NUL-free request feeds the hasher the same bytes as any other request, NUL-free or not, if and only if tenant and all fields agree, an absent tenant being the global one and other absent text empty |
| GenerationCache.Cache.ImageCacheKey | litegen-core/src/proxy/cache.rs:108-142 | Feeding field by field hashes the encoding of the sixteen fields |
| GenerationCache.Cache.GetImage | litegen-core/src/proxy/cache.rs:47-61 | A hit is the entry under the request's key; a disabled cache never hits |
| GenerationCache.Cache.PutImage | litegen-core/src/proxy/cache.rs:64-77 | Replaces the entry under the request's key, if enabled |
| GenerationCache.Cache.Invalidate | litegen-core/src/proxy/cache.rs:80-90 | Removes exactly the entry under the request's key |
| GenerationCache.Cache.Clear | litegen-core/src/proxy/cache.rs:93-97 | Removes every entry |
| GenerationCache.HitIsLatest | litegen-core/src/proxy/cache.rs:119-122 | Over any run of puts, invalidations, clears and evictions, whatever texts the other callers send, a hit for a NUL-free request is the response of the last put for the same tenant and request, not invalidated or cleared since |
| CapabilityRegistry.NameFaultMeaning | litegen-core/src/capabilities/loader.rs:35-47 | The id check passes exactly for provider, slash, non-empty name with no earlier slash, so under one provider only |
| CapabilityRegistry.FaultsMeaning | litegen-core/src/capabilities/loader.rs:32-96 | A model is accepted exactly if it passes the nine checks on id, provider, cost, the twelve parameter names, size ranges and reference roles; otherwise the fault is the first it fails |
| CapabilityRegistry.FirstFaultMeaning | litegen-core/src/capabilities/loader.rs:26-28 | A file passes exactly if each of its models passes every check; otherwise the error names the first that does not and its first failing check |
| CapabilityRegistry.FromYamlStrs | litegen-core/src/capabilities/registry.rs:36-69 | Loading succeeds exactly if every file parses, every model passes every check and no two models share an id; the catalog then holds exactly the models of the files and the index lists each provider's ids, strictly sorted. Bad files are reported each with its own error, in order, a single one as such; a repeated id with the file of its first repeat |
| CapabilityRegistry.InsertAll | litegen-core/src/capabilities/registry.rs:55-66 | The insertion loop fails exactly on a repeated id, naming the first |
| CapabilityRegistry.SortAll | litegen-core/src/capabilities/registry.rs:67 | Sorting in place makes every list strictly increasing with the same members |
| CapabilityRegistry.IndexIsPrefix | litegen-core/src/capabilities/registry.rs:73-76 | For a slash-free name the index gives exactly the catalog ids that start with it and a slash, in order |
| CapabilityRegistry.FileOrderDoesNotMatter | litegen-core/src/capabilities/registry.rs:36-69 | Loading the same files in any order succeeds or fails alike, and gives the same catalog and index |
| CapabilityRegistry.Registry.Resolve | litegen-core/src/capabilities/registry.rs:84-89 | Nothing for a disabled id, else the catalog's model, else the runtime's |
| CapabilityRegistry.Registry.Served | litegen-core/src/capabilities/registry.rs:92-101 | Served models are exactly those their id resolves to, and no id comes twice |
| CapabilityRegistry.Registry.UpsertRuntime | litegen-core/src/capabilities/registry.rs:118-122 | Defines one runtime id and keeps the layers disjoint |
| CapabilityRegistry.Registry.RemoveRuntime | litegen-core/src/capabilities/registry.rs:124-126 | Removes one runtime id; the result says whether it was there |
| CapabilityRegistry.Registry.SetDisabled | litegen-core/src/capabilities/registry.rs:128-135 | Switches exactly one id |
| CapabilityRegistry.ResolveAfterRun | litegen-core/src/capabilities/registry.rs:84-139 | After any run of definitions, removals and switches an id resolves to nothing if last switched off, else to its unchanged catalog model, else to its latest definition |
| FanOut.Run.constructor | dashboard/src/playground/useFanOut.ts:28-36 | One queued tile per model and image, in order, and min(4, requests) workers at their loop head |
| FanOut.InitialTilesMeaning | dashboard/src/playground/useFanOut.ts:28-35 | Every image of every request has its tile, queued, after those of the requests and images before it, and there are no others |
| FanOut.Run.CheckLoop | dashboard/src/playground/useFanOut.ts:41-45 | A worker takes the next request and marks exactly its tiles running, or leaves; nothing else changes |
| FanOut.Run.Resolve | dashboard/src/playground/useFanOut.ts:51-54 | A settled call marks exactly its tiles done and its worker goes on |
| FanOut.Run.Reject | dashboard/src/playground/useFanOut.ts:55-59 | A failed call marks exactly its tiles failed and its worker goes on, or after a cancellation leaves the tiles and ends the worker |
| FanOut.Run.CancelRun | dashboard/src/playground/useFanOut.ts:66-71 | Cancellation fails every tile that is not done and sends nothing more |
| FanOut.EverySchedule | dashboard/src/playground/useFanOut.ts:38-62 | In every schedule at most min(4, requests) calls are in flight, all for different requests; requests are sent in order, once each; an uncancelled run that ends has sent all and finished every tile; after a cancellation every tile stays finished |
| FanOut.TilesKeepPlaces | dashboard/src/playground/useFanOut.ts:21-22 | In every schedule each tile keeps its place, its model and its image |
| FanOut.TilesTellOutcomes | dashboard/src/playground/useFanOut.ts:44-70 | With one request per model every tile always shows what became of its request |
| FanOut.CancelFreezes | dashboard/src/playground/useFanOut.ts:41 | After a cancellation the cursor never moves again |
| FanOut.RunEnds | dashboard/src/playground/useFanOut.ts:40-62 | A schedule holds at most two worker steps a request and one a worker, and until all workers have left a step is possible: if every call settles the run ends |
| PlaygroundParams.MergeParams | dashboard/src/playground/params.ts:96-112 | The nested loops yield, for every name but the seed, the fold of its declarations |
| PlaygroundParams.FoldedBounds | dashboard/src/playground/params.ts:64-79 | A merged bound is the tightest declared one, absent only if all are; the models are those that declare the name, in order |
| PlaygroundParams.MergedIsIntersection | dashboard/src/playground/params.ts:94-95 | The merged interval is exactly the intersection of the intervals of the models of the first kind, so of all models for one kind |
| PlaygroundParams.BoundsIgnoreOrder | dashboard/src/playground/params.ts:94-95 | For one kind the merged bounds do not depend on the order of the schemas |
| PlaygroundParams.ListsIntersect | dashboard/src/playground/params.ts:80-90 | For one kind a listed value, ratio or size is offered exactly when every model lists it |
| PlaygroundParams.ListsNarrow | dashboard/src/playground/params.ts:72-91 | In general a control has a list exactly if its first declaration has, and offers of it what every declaration of that kind with a list offers too |
| PlaygroundParams.ClampMeaning | dashboard/src/playground/params.ts:126-134 | Clamping fixes exactly the values inside the interval, or at the upper bound of an empty one, and lands inside exactly if the interval is not empty |
| PlaygroundParams.BuildRequestForModel | dashboard/src/playground/params.ts:138-161 | The request holds, for every name given once and declared, the non-blank value: unchanged under a kind that is not numeric, else clamped, a text first read as a number; nothing for a blank, missing or undeclared one; and the fixed fields and the seed |
| PlaygroundParams.PanelToRequest | dashboard/src/playground/params.ts:136-161 | A finite value goes to exactly the models that declare it, inside their own interval unless it is empty; inside the merged bounds it reaches each of them unchanged |
| ModelRegistry.Registry.RefreshModels | db/model-registry.service.ts:186-230 | The active rows become the models, in order and field by field, with exactly one default: the configured one if active, else the first; a failed read changes nothing |
| ModelRegistry.Registry.GetPublicModels | db/model-registry.service.ts:267-287 | One entry per display name, in the order the names first occur, the one shown |
| ModelRegistry.Registry.GetAllPublicModelsForProviders | db/model-registry.service.ts:301-345 | One entry per display name among the kept models, in the order the names first occur, the one shown |
| ModelRegistry.ShownMeaning | db/model-registry.service.ts:335-341 | The entry shown is enabled exactly if one of its name is, the default exactly if one is, and the first among its equals |
| ModelRegistry.DiskSlugWins | db/model-registry.service.ts:289-291 | For any set of directory ids: an entry of the set is shown under a name whenever one is among the entries that may be, if and only if the first of those is in the set or none is |
| ModelRegistry.DiskSlugIgnored | db/model-registry.service.ts:335-341 | Two models of one name, one with the id of a directory: read second, it is not the one shown |
| ModelRegistry.PublicListHasDefault | db/model-registry.service.ts:265-287 | The public list has each active display name once and contains the default |
| ModelRegistry.AllListMeaning | db/model-registry.service.ts:289-345 | A name is listed exactly if a model of that name is eligible: its provider healthy or, without one, not external; its entry is that of such a model, enabled exactly if one of them is active and the default exactly if one of them is |
| Percentiles.PercentileIsNearestRank | litegen-core/src/db/sqlite.rs:2199-2204 | Each percentile is the smallest sample value with at least that share of the samples at or below it; its index needs no clamp |
| Percentiles.EachPercentile | litegen-core/src/db/sqlite.rs:2205-2211 | The three fields hold the nearest ranks of 50, 95 and 99 percent, counted as positions of the sample, beside its size and the window; all zero for no sample |
| Percentiles.PercentilesOrdered | litegen-core/src/db/sqlite.rs:2205-2211 | p50 is at most p95, p95 at most p99 |
| Lockout.LockoutTiming | litegen-core/src/auth/lockout.rs:6-26 | The lock holds through the oldest failure plus 15 minutes, so for all of the advertised retry time; it is over at every later instant if and only if fewer than five failures are newer than the oldest |
| Lockout.LockedMeaning | litegen-core/src/auth/lockout.rs:6-10 | A login is locked exactly while at least five failures lie within the last fifteen minutes |
| Lockout.RetryMeaning | litegen-core/src/auth/lockout.rs:13-26 | The advertised time is the whole seconds until the oldest failure of the window is fifteen minutes old; zero without one |
| Lockout.AdvertisedTimeExact | litegen-core/src/auth/lockout.rs:13-26 | The lock is over at every instant after the advertised retry time if and only if fewer than five failures are newer than the oldest and the lock has a whole number of seconds left |
| Lockout.LockOutlastsBySecond | litegen-core/src/auth/lockout.rs:13-26 | Five failures at one instant, asked a nanosecond later: the lock outlasts the advertised 899 seconds by almost a second |
| Lockout.LockOutlastsRetry | litegen-core/src/auth/lockout.rs:6-26 | Six failures whose lock ends 100 seconds after the advertised retry time |

## Left out

- Enforcement.SpendIsShares: a store call that fails with a database error, which settlement logs and drops, is not a step of the model; neither are deleted or reconfigured rows.
- Soft alerts raised by settlement: when a request decides to raise one is not modelled, only that a window records at most one.
- Parallel-request slots, per-minute rate limits, model allowlists and end-user checks of the enforcement code: each is a guard on one request before it reserves.
- `upsert_limits` inside the rolling theorem: it writes the reset time as given and so may move it back by design.
- TenantStore.DeletionTheorem: covers the tables the transaction names and `end_users`, which cascades; `entity_limits`, `request_log_tags` and webhook rows without a tenant carry no foreign key and are left behind by the code.
- UpdateBuilders: SQL text is modelled as a list of clauses with positional or numbered terms, not as characters; the storage encoding of booleans is not.
- RequestLogs: `ORDER BY created_at` alone leaves ties to the engine; the model breaks them by id, as the spend log does. The audit log and the generation listings build their queries in the same way.
- GenerationCache.ToldApartIffNulFree: floating-point fields and JSON are given by their printed text, which the model takes to be any text, so for a NUL in the response format alone the colliding request may hold texts there that no number or JSON prints to.
- GenerationCache: capacity and age are an eviction at any moment.
- CapabilityRegistry: YAML decoding and directory listing; a file is its path and the result of parsing it.
- FanOut: the image data, latency and cost copied into a tile; React state batching.
- PlaygroundParams: the display order of the controls, defaults, and the numeric reading of text, which is a parameter.
- ModelRegistry: syncing models from disk, and runner and capability details of a definition.
- Percentiles: floating-point rounding of the rank.
- chrono's fallback at the end of its calendar range; months are unbounded here.
- Generation status: the unconditional update keeps no property worth stating.
- Authentication, password hashing, role tables, routing, pollers and user interface: library calls, finite tables or plumbing.
