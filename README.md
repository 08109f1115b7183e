# Request-detail observability store, modelled in Dafny

This project models the request-detail store of the gateway. It covers:

- **The write path** (`src/lib/requestDetailsDb.js`):
  - producers hand a detail to `saveRequestDetail`, which appends it to an in-memory buffer;
  - the buffer is flushed to the `request_details` table in one transaction when it reaches the batch size, when the idle timer fires, or when the process shuts down;
  - each flushed item gets a generated id and a timestamp when it lacks them, and its request headers are redacted;
  - its payloads are serialized with a size bound;
  - the row is upserted by primary key;
  - after the batch, one retention trim keeps only the `maxRecords` newest rows.
- **The read path**: `getRequestDetails`, which filters, orders newest first and pages through the table, and `getRequestDetailById`. Reads see only the table, never the buffer.
- **The arithmetic of the `Pagination` component** (`src/shared/components/Pagination.js`): the page count, the "Showing X to Y of N" range, the window of at most five page buttons, and which controls show.
- **The validation step of `GET /api/usage/request-details`** (`src/app/api/usage/request-details/route.js`).

Modules, one per file:

| file | module | models |
|---|---|---|
| `wrappers.dfy` | `Wrappers` | `Option` and `Result` |
| `json.dfy` | `Json` | JSON values, JavaScript truthiness, the `x \|\| {}` and `x \|\| null` fallbacks, and `JSON.stringify` as an abstract function |
| `text.dfy` | `Text` | `toLowerCase`, `includes`, `String(n)` for naturals |
| `jsmath.dfy` | `JsMath` | `Math.min`, `Math.max`, and `Math.ceil` of a quotient |
| `headers.dfy` | `Headers` | `sanitizeHeaders` |
| `serializer.dfy` | `Serializer` | `safeJsonStringify` |
| `detail_id.dfy` | `DetailId` | `generateDetailId` |
| `table.dfy` | `Table` | the table as a map from id to row, INSERT OR REPLACE, and the retention DELETE |
| `query_engine.dfy` | `QueryEngine` | `getRequestDetails` over the table |
| `request_details_db.dfy` | `RequestDetailsDb` | the configuration, preparing a detail as a row, the flush transaction, and the `Store` class holding the module state |
| `pagination.dfy` | `PaginationControl` | the component's arithmetic |
| `request_details_route.dfy` | `RequestDetailsRoute` | `parseInt`, the parameter defaults and checks, and the handler's three outcomes |

The module-level state of `requestDetailsDb.js` becomes the fields of `RequestDetailsDb.Store`:

- `buffer`: the write buffer;
- `timerPending`: whether the flush timer is set;
- `flushing`: the in-progress flag;
- `inFlight`: the snapshot the running flush holds;
- `rows`: the table;
- `cachedConfig`: the cached configuration;
- `shutdownRegistered`: whether the shutdown handler is registered. This happens right after the database first opens, so the flag also says whether the database is open.

A flush is asynchronous, so `flushToDatabase` is split at its first `await`:

- `BeginFlush` takes the guard, the snapshot and the swap;
- `CompleteFlush` opens the database, runs the transaction and clears the flag. A failed open throws before the transaction and registers no handler.

Other events can therefore interleave between the two halves. The timer callback is the event `TimerFire`, and a termination signal is the event `Shutdown`.

The model keeps one behaviour of the source that is easy to miss. A save can reach the batch size while another flush is still running. That flush attempt then does nothing, and the save still cancels the timer. The buffered items wait with no timer pending until the next save or the shutdown. `RequestDetailsDb.StrandedDuringFlush` walks through this.

Inputs from outside are parameters:

- the serializer (`JSON.stringify`, where `Err` stands for a throw);
- the reading for each item of a batch (`ItemReading`: the millisecond time, the ISO string and the random id suffix);
- whether the database file opens (`opens`);
- whether the storage engine commits (`commits`);
- the configuration that the settings read returns;
- the query behind the route.

Behaviours of the code that are easy to misread:

- Only the four payload columns go through the fallback serializer. `latency` and `tokens` are serialized directly, so a throw there fails the whole batch (`RequestDetailsDb.ToRow`).
- The route validates only `page` and `pageSize`. Date strings are passed on unchecked.
- The route defaults the page size to 20, while `getRequestDetails` defaults it to 50 (`QueryEngine.EffectivePageSize`).
- A timestamp of 0 counts as missing and is replaced by the current time (`!item.timestamp`).
- `maxRecords` is not required to be at least 1. A negative value means SQLite's "no limit", so nothing is trimmed, and 0 empties the table.
- A flush reloads the configuration every time, while a save loads it only once and caches it. So the batch size a save compares against can differ from the `maxRecords` and `maxJsonSize` the flush uses.

## Model

| member | source | states |
|---|---|---|
| RequestDetailsDb.LoadConfig | src/lib/requestDetailsDb.js:16-36 | When the settings read fails, all four values are the defaults (1000, 20, 5000, 1 MiB). Otherwise each value is taken in order of precedence: a non-zero setting, else a given environment variable, else the default. The JSON size limit is configured in KiB and multiplied by 1024. |
| DetailId.ReplaceDisallowed | src/lib/requestDetailsDb.js:182 | Keeps the length. Every output character is a letter, a digit or `-`. Allowed characters are kept and every other character becomes `-`. |
| DetailId.ModelPart | src/lib/requestDetailsDb.js:182 | A present model name keeps its length and is made id-safe. An absent or empty one becomes `unknown`. |
| DetailId.GenerateDetailId | src/lib/requestDetailsDb.js:179-184 | The id is non-empty. It starts with the ISO time, ends with the model part, and its length is the sum of its parts plus the two separators. |
| Serializer.Bound | src/lib/requestDetailsDb.js:283-286 | Text within the limit is unchanged. Longer text becomes its first `maxSize` characters followed by the truncation marker. |
| Serializer.SafeJsonStringify | src/lib/requestDetailsDb.js:280-290 | A successful serialization is returned bounded. A throw is replaced by the unbounded serialization of the error object carrying the message. |
| Json.OrEmptyObject | src/lib/requestDetailsDb.js:252-257 | `v \|\| {}`: the result is always truthy. It is the value when that is truthy, and `{}` otherwise. |
| Json.OrNull | src/lib/requestDetailsDb.js:246-251 | `s \|\| null`: the result is present exactly when the string is present and non-empty, and is then that string. |
| Text.Lower | src/lib/requestDetailsDb.js:302 | `toLowerCase` keeps the length and lower-cases each character on its own. |
| Text.ContainsIffOccurs | src/lib/requestDetailsDb.js:302 | `includes` holds exactly when the word occurs at some index. |
| Headers.Sanitized | src/lib/requestDetailsDb.js:295-308 | A key is kept exactly when it was in the copied headers and is not sensitive. A kept key keeps its value. |
| Headers.SanitizeHeaders | src/lib/requestDetailsDb.js:295-308 | After the copy-then-delete loop, no sensitive key is left and every other key keeps its value. A falsy or non-object value gives `{}`. The result equals `Sanitized`. |
| Headers.AuthorizationHeaderDropped | src/lib/requestDetailsDb.js:298-305 | `{Authorization, X-Custom}` is redacted to `{X-Custom}` alone. |
| RequestDetailsDb.PrepareDetail | src/lib/requestDetailsDb.js:231-243 | An existing id is kept, and a missing or empty one is generated. A missing or 0 timestamp becomes the reading's time. When the request has headers, they are replaced by their redaction and the other request fields are kept. Nothing else about the detail changes. |
| RequestDetailsDb.PrepareItem | src/lib/requestDetailsDb.js:231-243 | The loop body's conditional steps, with headers redacted by the `SanitizeHeaders` loop, compute exactly `PrepareDetail`. |
| RequestDetailsDb.ToRow | src/lib/requestDetailsDb.js:245-258 | A row is produced exactly when all six serializations succeed. It carries the id and the timestamp, the text fields or null, and each serialized column. |
| RequestDetailsDb.BatchRows | src/lib/requestDetailsDb.js:228-259 | A successful batch has one row per item, in order. Each row is the one its item serializes to with the reading for its index. |
| RequestDetailsDb.BatchFailsIffItemFails | src/lib/requestDetailsDb.js:228-265 | The batch fails exactly when some item fails to serialize. |
| RequestDetailsDb.BatchSucceeds | src/lib/requestDetailsDb.js:245-258 | When the serializer never throws, every batch produces its rows. |
| Table.UpsertAllFrame | src/lib/requestDetailsDb.js:211-216 | Upserting a batch adds exactly the batch's ids. Every other row is unchanged, and each row stays stored under its own id. |
| Table.UpsertAllLastWins | src/lib/requestDetailsDb.js:211-216 | Within a batch, the last row with a given id is the one stored under it. |
| Table.PickByTimestamp | src/lib/requestDetailsDb.js:221-223 | Returns a key of the set whose row is the newest (or the oldest) of the set. |
| Table.TrimToNewest | src/lib/requestDetailsDb.js:218-225 | With a negative limit, nothing is deleted. Otherwise `min(count, maxRecords)` unchanged rows survive, and none of them is older than a deleted row. |
| Table.RetentionDeterministic | src/lib/requestDetailsDb.js:218-225 | When timestamps are distinct, the rows that survive retention are uniquely determined. |
| RequestDetailsDb.RunTransaction | src/lib/requestDetailsDb.js:228-265 | When the storage commits and every item serializes, the batch is upserted in order and trimmed once. Otherwise the table is unchanged. The primary-key invariant is kept. |
| RequestDetailsDb.FlushedRowReadable | src/lib/requestDetailsDb.js:211-262 | After a committed flush, each item's row is what the table holds under its id. The only exception is when retention dropped it: then the table is at its cap and every row kept is at least as new. |
| RequestDetailsDb.TwoDetailsCommitted | src/lib/requestDetailsDb.js:228-263 | Two new details, flushed into an empty table with a cap of at least 2, are both stored under their generated ids with the readings' times as timestamps. |
| RequestDetailsDb.Store.constructor | src/lib/requestDetailsDb.js:92-106 | The buffer is empty, no timer is set, no flush is running, nothing is cached and the handler is unregistered, over the stored table. |
| RequestDetailsDb.Store.EnsureShutdownHandler | src/lib/requestDetailsDb.js:351-377 | Afterwards the handler is registered. Nothing else changes. |
| RequestDetailsDb.Store.OpenDatabase | src/lib/requestDetailsDb.js:128-173 | The database is open afterwards exactly when it was open before or the open succeeds. The handler is registered exactly when it is open. |
| RequestDetailsDb.Store.BeginFlush | src/lib/requestDetailsDb.js:195-205 | A flush starts exactly when none is running and the buffer is non-empty. When it starts, the buffer moves to the snapshot and is replaced by an empty one. Otherwise nothing changes. |
| RequestDetailsDb.Store.CompleteFlush | src/lib/requestDetailsDb.js:207-270 | The handler is registered exactly when the database was open already or opens now. The table becomes the committed result of the snapshot, or stays unchanged when the open, the commit or a serialization fails. The flag is cleared in every case. |
| RequestDetailsDb.Store.Flush | src/lib/requestDetailsDb.js:195-271 | With a flush already running or an empty buffer, nothing changes. Otherwise the buffer is emptied and committed as one batch (or lost when the batch fails), and the handler is registered exactly when the database opens. |
| RequestDetailsDb.Store.Save | src/lib/requestDetailsDb.js:317-339 | The configuration is cached on first use. Below the batch size, the detail is appended and the timer is set. At the batch size, the buffer is committed (when the database opens) and the timer cancelled. If a flush was running at that point, the buffer is left in place with no timer. |
| RequestDetailsDb.Store.TimerFire | src/lib/requestDetailsDb.js:334-337 | The timer is cleared. A flush starts over the buffer unless one is already running. |
| RequestDetailsDb.Store.Shutdown | src/lib/requestDetailsDb.js:356-368 | Unregistered, it does nothing. Registered, it cancels the timer and commits a non-empty buffer. An empty buffer leaves the table unchanged. |
| RequestDetailsDb.Store.GetRequestDetails | src/lib/requestDetailsDb.js:384-468 | Opens the database first, failing when it cannot be opened. Once open, the result is the requested page of the newest-first listing of the matching stored rows, with the summary taken over all matches. Buffered details are not listed. |
| RequestDetailsDb.Store.GetRequestDetailById | src/lib/requestDetailsDb.js:475-499 | Opens the database first, failing when it cannot be opened. Once open, it returns a row exactly when one is stored under the id, and then it is that row. |
| RequestDetailsDb.StrandedDuringFlush | src/lib/requestDetailsDb.js:326-332 | With a batch size of 2, the sequence save, timer, save, save, then the running flush completing, leaves the last two details buffered with no timer and no flush. |
| RequestDetailsDb.FailedOpenSkipsShutdownFlush | src/lib/requestDetailsDb.js:128-170 | When the database cannot be opened, the timer's flush loses the first detail and registers nothing. A detail saved afterwards is still buffered, with its timer pending, after a termination signal, and the table stays empty. |
| RequestDetailsDb.SaveTwo | src/lib/requestDetailsDb.js:324-332 | On a fresh store with a batch size of 2, the second save commits both details and leaves the buffer empty with no timer. |
| RequestDetailsDb.BatchOfTwo | src/lib/requestDetailsDb.js:317-339 | After two saves with a batch size of 2, the first page of ten lists both details, newest first, with one page of two items. |
| RequestDetailsDb.ListingOfTwo | src/lib/requestDetailsDb.js:431 | Listing two matching rows newest first puts the newer one first. |
| RequestDetailsDb.FirstPageOfTwo | src/lib/requestDetailsDb.js:431-466 | An unfiltered first page of ten over two rows holds both, newest first, with a total of 2 items and 1 page. |
| QueryEngine.PageBounds | src/lib/requestDetailsDb.js:432-435 | The LIMIT/OFFSET slice lies within the listing. |
| QueryEngine.ListNewestFirst | src/lib/requestDetailsDb.js:431 | Each stored row of the key set appears exactly once, newest first, and as stored. |
| QueryEngine.QueryTable | src/lib/requestDetailsDb.js:391-467 | The page is the LIMIT/OFFSET slice of a listing that holds each matching row once, newest first. Every row on it is stored and matches the filter. The summary is computed from the match count, with the page defaulting to 1 and the page size to 50. |
| QueryEngine.SliceOfListing | src/lib/requestDetailsDb.js:431-439 | Any slice of such a listing holds stored, matching rows, newest first. |
| QueryEngine.PageLength | src/lib/requestDetailsDb.js:431-435 | A page holds `min(pageSize, max(0, total - (page - 1) * pageSize))` rows. |
| QueryEngine.HasNextMeansMoreRows | src/lib/requestDetailsDb.js:457-466 | `hasNext` holds exactly when matches remain after this page. `hasPrev` holds exactly when the page is past the first. |
| QueryEngine.PagePastEndIsEmpty | src/lib/requestDetailsDb.js:431-435 | A page past `totalPages` is empty. |
| JsMath.CeilDivIsCeiling | src/lib/requestDetailsDb.js:463 | `Math.ceil(a / b)` is the least `q` with `a <= q * b`. |
| PaginationControl.TotalPages | src/shared/components/Pagination.js:14 | The page count is the least number of pages that holds every item. |
| PaginationControl.GetPageNumbers | src/shared/components/Pagination.js:18-33 | The push loop produces exactly the window `PageWindow`. |
| PaginationControl.RangeShape | src/shared/components/Pagination.js:29-31 | `lo..hi` holds `max(hi - lo + 1, 0)` consecutive pages starting at `lo`. |
| PaginationControl.WindowShape | src/shared/components/Pagination.js:18-33 | The window holds `min(totalPages, 5)` consecutive pages, all within `1..totalPages`. It contains the current page, is centred on it when possible, and holds every page when there are at most five. |
| PaginationControl.ControlsFor | src/shared/components/Pagination.js:45-140 | The numbered buttons are the window. Navigation shows exactly when there are more items than fit on one page. |
| PaginationControl.ButtonsIncrease | src/shared/components/Pagination.js:88-130 | The first-page button, the window and the last-page button run strictly upward from 1 to `totalPages`. |
| PaginationControl.NavigationCoversAllPages | src/shared/components/Pagination.js:76-140 | With several pages, the buttons run strictly upward from 1 to the last page. Every page without a button lies behind an ellipsis, and an ellipsis shows only where pages are hidden. |
| PaginationControl.PrevNextStayInRange | src/shared/components/Pagination.js:78-140 | Previous and next are disabled exactly on the first and last page. When enabled, they lead to a page in range. |
| PaginationControl.ShownRangeIsServedPage | src/shared/components/Pagination.js:15-16 | "Showing X to Y" is exactly the slice the server returns for that page: X is one past the offset and Y is the end. |
| RequestDetailsRoute.Get | src/app/api/usage/request-details/route.js:14-19 | `searchParams.get` is the first value under the name, or null when the name is absent. |
| RequestDetailsRoute.ParseIntReadsDecimal | src/app/api/usage/request-details/route.js:12-13 | `parseInt` reads back a decimal number with an optional minus sign, whatever non-digit text follows. |
| RequestDetailsRoute.NoDigitsIsNaN | src/app/api/usage/request-details/route.js:12-13 | Text that does not start with a sign or a digit is NaN. |
| RequestDetailsRoute.IntParam | src/app/api/usage/request-details/route.js:12-13 | NaN and 0 fall back to the default, and any other number is used as parsed. |
| RequestDetailsRoute.ParseRequestDetailsQuery | src/app/api/usage/request-details/route.js:12-45 | Rejects exactly a page below 1 or a page size outside 1..100, checking the page first with its own message. An accepted filter carries the page, the page size and each non-empty text filter. |
| RequestDetailsRoute.HandleGet | src/app/api/usage/request-details/route.js:8-57 | Returns 400 with the message exactly when validation fails. Returns 200 with the query's result exactly when validation passes and the query succeeds. Returns 500 with the fixed message otherwise. |
| RequestDetailsRoute.NoPagingParamsIsFirstPageOfTwenty | src/app/api/usage/request-details/route.js:12-13 | Without paging parameters, the request asks for page 1 of 20. |
| RequestDetailsRoute.ZeroPageIsDefaulted | src/app/api/usage/request-details/route.js:12-26 | `page=0` falls back to page 1 and is accepted. |
| RequestDetailsRoute.NegativePageIsRejected | src/app/api/usage/request-details/route.js:21-26 | `page=-1` is rejected with the page message. |
| RequestDetailsRoute.PageSizeAcceptedIffInRange | src/app/api/usage/request-details/route.js:13-33 | A decimal page size is accepted exactly when it is at most 100 and is then used as given. 0 becomes 20. |

## Left out

- Cloud deployments (`isCloud`): every early return on that flag is left out. The model is the local store.
- SQLite itself is left out: opening the file, the data directory, pragmas, schema and indexes. A failure to open the database file is the input `opens`, and a failed commit is the input `commits`.
- `JSON.stringify` is not defined. It is an arbitrary total function, where `Err` stands for a throw.
- The read path's `JSON.parse` of each column and the conversion of the stored timestamp back to an ISO string are not modelled. Reads return rows as stored. A payload cut short by the size bound is no longer valid JSON, and what `JSON.parse` then does to a read is not captured.
- `new Date()`, `toISOString` and `Math.random` are inputs through the per-item `ItemReading`. The model assumes the ISO string of a missing timestamp parses back to the same milliseconds.
- The id and the missing timestamp read the time twice in the source; the model uses one reading per item.
- String timestamps on details and invalid dates (NaN) are not modelled. Timestamps and date bounds are integers in epoch milliseconds.
- The route's date strings are not converted. `getRequestDetails` of `src/lib/usageDb.js` is not part of this model, so `HandleGet` takes the query as a parameter.
- Numbers are integers throughout. Fractional and non-finite JSON numbers, and `parseInt` losing precision on very long digit strings, are not modelled.
- Garbage in environment variables is not modelled: `EnvVars` holds already-parsed values.
- Non-numeric settings values are not modelled.
- Real timers and signals are not modelled. The timer is a flag fired by `TimerFire`, and `flushIntervalMs` is carried but not used for timing. The four termination events become one `Shutdown` call.
- Console logging is left out.
- RequestDetailsDb.Store.Save: the size-triggered flush runs to completion inside the save. Events that the source could interleave at its `await`s inside `flushToDatabase` are not modelled there. Only the timer-started flush is split into `BeginFlush` and `CompleteFlush`.
- RequestDetailsDb.PrepareDetail: the source mutates the caller's detail and its request object in place. The model returns a prepared copy, so that aliasing is not captured.
- Headers.Spread: `{ ...headers }` is modelled for objects and arrays (array indexes become keys). Other object kinds are not representable as `Json`.
- Text.Lower: only ASCII letters are lower-cased, not the full Unicode case mapping of `toLowerCase`. Characters stand for UTF-16 code units.
- The URL is not parsed. Search parameters arrive as decoded name/value pairs.
- Exceptions thrown in the handler other than by the query are not modelled.
- `NextResponse` is reduced to a status and a JSON body.
- PaginationControl.TotalPages: requires a positive page size, which the component's callers always pass. Zero or negative sizes are not modelled.
- PaginationControl.ControlsFor: requires a positive page size for the same reason.
- The component's rendering, click handlers and page-size selector are left out.
- The usage page, the request-details tab, the drawer and the request logger are not part of this model.
