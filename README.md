# cryptocraft-news calendar crawler: extraction pipeline and event store

This project models, in Dafny, the decision logic of the cryptocraft-news crawler:

- **`CrawlerService.crawl()`**: turns a loaded calendar page into event records.
  - A 403 response aborts the crawl.
  - The embedded `days: [...] , time:` block is captured and parsed. Every event in it becomes a record dated at the UTC midnight of its `dateline`.
  - When that stage leaves no records, the crawler walks the calendar's table rows. It carries the last seen date cell forward from row to row.
- **`EventsService`**: stores the records.
  - `saveEvents` upserts them one by one, keyed by `(title, eventDate)`.
  - `find` returns the stored rows that match optional date, country and impact filters, ordered by `eventDate`.

Files:

- `wrappers.dfy`: `Option` and `Result`.
- `days_block.dfy` (module `DaysBlock`): the regular expression `days:\s*(\[[\s\S]*?\])\s*,\s*time:`, written as an explicit scan.
  - Declarative predicates say what a match is.
  - The scan functions are proved to return the match a backtracking engine reports: the leftmost start, then the shortest block.
- `crawler.dfy` (module `Crawler`): the record type, the normalisation rules, the structured loops, the layout pass and the crawl.
  - The loops are methods.
  - Each method is proved equal to a specification function.
  - Lemmas about those functions prove the properties.
- `events.dfy` (module `Events`): the table as a map from key to stored row.
  - Pure functions give the upsert and the save loop. Lemmas prove the identity, update, idempotence and last-wins properties.
  - The class `EventStore` holds the mutable table. Its `SaveEvents` loop and `Find` query are proved against those functions.

The foreign parts are parameters:

- `JSON.parse` of the captured block is `parseDays`, which returns None when parsing throws.
- cheerio's rows are given as their trimmed cell texts (`LayoutCells`).
- `new Date(string)` is `dateOf`, which returns None for an Invalid Date.
- The current year is `year` and the current instant is `now`.
- The response status and the page HTML are inputs.

Instants are epoch milliseconds (`int`).

Some behaviours that a reader of the code might not expect, which the model reproduces as written:

- **Layout dates are not truncated.** The structured path keeps only the UTC date (the comment at crawler.service.ts:83). The layout path (crawler.service.ts:126-128) keeps the parsed time of day, and so does `ExtractLayout`.
- **An exception can keep partial results.** The comment at crawler.service.ts:105 says the fallback runs "if JS extraction failed". But the `catch` at crawler.service.ts:100 wraps the whole loop, so records pushed before an exception stay in `rows` and prevent the fallback.
  - `AbortKeepsEarlierRows` covers an exception at a null day.
  - `NullEventKeepsEarlierRows` covers one at a null event.
  - `FallbackTrigger` covers the effect on the fallback.
- **Empty titles reach the store.** The structured path can produce `title == ""` (crawler.service.ts:91), and nothing filters it before `saveEvents`. Only the layout path skips untitled rows (crawler.service.ts:119).
- **`crawl()` does not deduplicate.** Repeated `(title, eventDate)` pairs are merged only by the store's upsert (`LaterDuplicateWins`).

## Model

| member | source | states |
|---|---|---|
| DaysBlock.SkipSpaces | src/modules/crawler/crawler.service.ts:73 | greedy `\s*`: every character skipped is an ECMAScript whitespace or line terminator, and the one it stops at is not |
| DaysBlock.OpenAt | src/modules/crawler/crawler.service.ts:73 | `days:\s*\[` matches at i with its `[` at o exactly when the result is `Some(o)` |
| DaysBlock.TailMatches | src/modules/crawler/crawler.service.ts:73 | true exactly when `\s*,\s*time:` matches at the given index |
| DaysBlock.FirstClose | src/modules/crawler/crawler.service.ts:73 | the lazy `[\s\S]*?\]`: the first `]` at or after j that the closing `\s*,\s*time:` follows, and None when there is no such `]` |
| DaysBlock.FindFrom | src/modules/crawler/crawler.service.ts:73 | the match the engine reports: it matches; no earlier start matches with any block; no shorter block matches at that start; None exactly when nothing matches |
| DaysBlock.DaysCapture | src/modules/crawler/crawler.service.ts:73-79 | `daysMatch[1]`: None exactly when the expression matches nowhere; otherwise it is the `[`...`]` group of the match `FindFrom` reports from the start of the page: the leftmost start and the shortest block |
| Crawler.DayStart | src/modules/crawler/crawler.service.ts:84-85 | the truncated date is a multiple of 86 400 000 ms, at most the instant, and less than one day before it (UTC years 0-99 are left out, see below) |
| Crawler.OrNull | src/modules/crawler/crawler.service.ts:89-95 | the null default of a field is null exactly when `v` is missing or empty, and is `v` otherwise, so a present value is never "" |
| Crawler.ResolveTitle | src/modules/crawler/crawler.service.ts:91 | the title is empty exactly when both names are missing or empty; `name` wins when present, otherwise `prefixedName` |
| Crawler.DayStartUnique | src/modules/crawler/crawler.service.ts:84-85 | any UTC midnight whose day contains the instant is the truncated date, so for UTC years outside 0-99 `Date.UTC(y, m, d)` of the UTC parts is that midnight |
| Crawler.DayStartIdempotent | src/modules/crawler/crawler.service.ts:84-85 | truncating an already truncated date changes nothing |
| Crawler.StructuredRecord | src/modules/crawler/crawler.service.ts:84-97 | `eventDate` is the UTC midnight of `dateline*1000`; `title` is `name` if non-empty, else `prefixedName` if non-empty, else `''`; each optional field is null when missing or empty and is kept otherwise; `sourceUrl` is the calendar URL |
| Crawler.CpiScenario | src/modules/crawler/crawler.service.ts:84-97 | a CPI event dated 1700000000 becomes a record of 2023-11-14T00:00Z with title "CPI m/m", country "US" and impact "High" |
| Crawler.EventsOutcome | src/modules/crawler/crawler.service.ts:82-98 | the inner loop as a specification: it yields at most one record per event, and exactly one per event when it completes |
| Crawler.DayOutcome | src/modules/crawler/crawler.service.ts:81-82 | a null day throws, and only a day with an `events` array yields records |
| Crawler.StructuredOutcome | src/modules/crawler/crawler.service.ts:78-102 | the nested loops as a specification: they complete only when no day is null |
| Crawler.EventsAbortSticks | src/modules/crawler/crawler.service.ts:82-100 | once a day's events have thrown, the later events change nothing |
| Crawler.StructuredAbortSticks | src/modules/crawler/crawler.service.ts:81-100 | once the days have thrown, the later days change nothing |
| Crawler.PushEvents | src/modules/crawler/crawler.service.ts:82-98 | the inner loop appends one record per event and reports whether it stopped at a null event, as the specification of the loop says |
| Crawler.ExtractStructured | src/modules/crawler/crawler.service.ts:78-102 | the rows the nested loops leave, with a caught exception keeping what was already pushed, equal the specification `StructuredOutcome` |
| Crawler.EventsOutcomeIsPrefix | src/modules/crawler/crawler.service.ts:82-98 | one day's rows are the records of its leading events; with no null event they are the records of all of its events |
| Crawler.DayOutcomeIsPrefix | src/modules/crawler/crawler.service.ts:81-82 | the same for one day, where a null day throws and missing `events` counts as `[]` |
| Crawler.StructuredIsPrefix | src/modules/crawler/crawler.service.ts:79-102 | the structured rows are always a prefix of the records of all events in day-then-event order; the loops complete exactly when nothing throws, and then they yield one record per event |
| Crawler.AbortKeepsEarlierRows | src/modules/crawler/crawler.service.ts:78-102 | a null day after throw-free days ends the loops and keeps exactly the records of those earlier days |
| Crawler.EventsComplete | src/modules/crawler/crawler.service.ts:82-98 | a day whose events are all objects completes its loop with exactly one record per event, in order |
| Crawler.NullEventKeepsEarlierRows | src/modules/crawler/crawler.service.ts:78-102 | a null event inside a day after throw-free days ends the loops and keeps exactly the records of those days and of the events before it in its day |
| Crawler.CarriedDate | src/modules/crawler/crawler.service.ts:108-114 | a non-empty running date is the text of some row's date cell |
| Crawler.CarriedDateIsLatest | src/modules/crawler/crawler.service.ts:108-114 | the running date is "" exactly when no row so far had a date cell; otherwise it is the last non-empty date cell, including one on a row later skipped |
| Crawler.DateText | src/modules/crawler/crawler.service.ts:123-129 | the text handed to `new Date` is the running date, a space and the year, followed by a space and the time exactly when the time is non-empty and not "Tentative" |
| Crawler.RowDate | src/modules/crawler/crawler.service.ts:121-132 | without a running date the row is dated with the current instant; with one it is the parse of that date text ("date year", plus " time" when the time is usable) |
| Crawler.LayoutFields | src/modules/crawler/crawler.service.ts:139-149 | the record has the given date, the row's title and the calendar URL; each other cell is null when empty and kept otherwise |
| Crawler.LayoutRecord | src/modules/crawler/crawler.service.ts:116-149 | a row yields a record exactly when it has a title and its date is valid, and the record is then `LayoutFields` of the row at that date |
| Crawler.RowRecordsPrefix | src/modules/crawler/crawler.service.ts:108-114 | the outcome of a row depends only on the rows up to it, so the outcomes of a prefix of the rows are a prefix of the outcomes |
| Crawler.LayoutRowsStep | src/modules/crawler/crawler.service.ts:110-150 | one more row appends its record to the records so far when it yields one, and leaves them unchanged otherwise |
| Crawler.LayoutRows | src/modules/crawler/crawler.service.ts:108-150 | the `.each` pass as a specification: it yields no more records than rows |
| Crawler.UndatedRowsUseNow | src/modules/crawler/crawler.service.ts:122-132 | a titled row with no date cell at or before it is dated with the current instant |
| Crawler.TentativeTimeKept | src/modules/crawler/crawler.service.ts:122-141 | a "Tentative" time is not appended to the date text, but it is kept as the record's `eventTime` |
| Crawler.KeptRowsAscend | src/modules/crawler/crawler.service.ts:110-150 | there are never more layout records than rows, and the rows they come from are in increasing row order |
| Crawler.KeptRowsYieldRecords | src/modules/crawler/crawler.service.ts:110-150 | for every m, the m-th layout record is what the m-th kept row gives with the date carried to that row |
| Crawler.KeptRowsComplete | src/modules/crawler/crawler.service.ts:116-137 | a row is kept exactly when its title is non-empty and the date built for it is valid |
| Crawler.LayoutRowsHaveTitles | src/modules/crawler/crawler.service.ts:117-149 | no layout record has an empty title, and each points at the calendar URL |
| Crawler.ExtractLayout | src/modules/crawler/crawler.service.ts:106-151 | the `.each` pass with its carried `currentDate` yields exactly `LayoutRows`, the specification characterised by the lemmas above |
| Crawler.StructuredStage | src/modules/crawler/crawler.service.ts:73-103 | structured rows exist only when the block was captured and parsed; when it was, they are exactly what the loops left |
| Crawler.CrawlRows | src/modules/crawler/crawler.service.ts:106-153 | the result is the structured rows whenever they are non-empty, and the layout rows otherwise; it is empty exactly when both are |
| Crawler.Crawl | src/modules/crawler/crawler.service.ts:62-153 | it fails exactly when the status is 403 and then returns no rows; otherwise it returns the structured rows, or the layout rows when the structured rows are empty |
| Crawler.FallbackTrigger | src/modules/crawler/crawler.service.ts:77-107 | the layout rows are returned when there is no match, when parsing fails, or when the block holds no events; rows pushed before an exception are returned and suppress the fallback; a throw-free block with events yields one record per event |
| Events.ApplyUpdate | src/modules/events/events.service.ts:17-25 | the update keeps the row's id, creation time and key, so an update under the event's own key leaves the event in the row |
| Events.Upserted | src/modules/events/events.service.ts:10-27 | after one upsert the row under the event's key holds the event; an existing row keeps its id and `createdAt`; a new row gets the next id and the current time; every other row is unchanged; the identity invariant holds |
| Events.SaveAll | src/modules/events/events.service.ts:8-29 | the sequential upserts keep the identity invariant: each row is filed under its own `(title, eventDate)` and ids are distinct |
| Events.SaveAllKeys | src/modules/events/events.service.ts:9-29 | after saving, the table holds exactly the keys it held before plus the keys of the list, so no row is ever removed |
| Events.SaveAllLastWins | src/modules/events/events.service.ts:9-27 | a key of the list holds the last event of the list with that key |
| Events.SaveAllKeepsIdentity | src/modules/events/events.service.ts:17-25 | a row that existed before keeps its id, `createdAt`, title and `eventDate` |
| Events.SaveAllUntouched | src/modules/events/events.service.ts:8-29 | a row whose key is not in the list is unchanged |
| Events.SaveAllNoInsert | src/modules/events/events.service.ts:10-26 | saving events whose keys all exist already creates no row and uses no new id |
| Events.SaveAllIdempotent | src/modules/events/events.service.ts:9-27 | saving the same list twice gives the same table as saving it once |
| Events.LaterDuplicateWins | src/modules/events/events.service.ts:9-10 | two events with one key in a list give one row, and it holds the later event |
| Events.WhereOf | src/modules/events/events.service.ts:33-37 | the filter fails exactly when a non-empty date does not parse; an empty or absent date, country or impact sets no constraint; a present one sets that value |
| Events.QueryMeaning | src/modules/events/events.service.ts:33-37 | an absent or empty `country` or `impact` imposes no constraint; a given one must equal the row's value; a given date must equal `eventDate` exactly |
| Events.InsertByDate | src/modules/events/events.service.ts:38 | placing a row among rows sorted by `eventDate` keeps them sorted and adds exactly that row |
| Events.EventStore.Upsert | src/modules/events/events.service.ts:10-27 | the table afterwards is `Upserted` of the table before, and the identity invariant holds |
| Events.EventStore.SaveEvents | src/modules/events/events.service.ts:8-29 | the table afterwards is `SaveAll` of the table before, and the identity invariant holds |
| Events.EventStore.Find | src/modules/events/events.service.ts:31-40 | it fails exactly when a non-empty date does not parse; otherwise it returns every stored row satisfying the filters, each once, in non-decreasing `eventDate` order |

## Left out

- Browser automation is I/O: launching the browser, the user agent, the viewport, `goto`, `waitForSelector`, `page.content()` and `browser.close()` (crawler.service.ts:42-70, 157-160). The status and the HTML are inputs. Navigation failures and timeouts are errors of that I/O and are not modelled.
- Scheduling is framework plumbing and is not modelled: the cron expression, `autoCrawl` (crawl then `saveEvents`), the constructor's configuration lookup and all logging (crawler.service.ts:17-36).
- `JSON.parse` is a foreign library and is the parameter `parseDays`. A successful parse of the captured block is always an array, so `days || []` never takes its default.
- Crawler.RawEvent: string fields of other JSON types (numbers, booleans) are not modelled. `dateline` is an integer.
  - `null * 1000` is 0 and `true * 1000` is 1000, so those datelines act as the integers 0 and 1.
  - A numeric string converts to its number.
  - `""`, a string of spaces, `false` and `[]` act as 0.
  - A missing `dateline`, an object, an array of more than one element, or a non-empty string that is not numeric gives `NaN` and an Invalid Date. That case is not modelled.
  - Fractional datelines, and instants beyond the ±8.64e15 ms range of `Date`, are not modelled either.
- Crawler.DayStart: `Date.UTC` (crawler.service.ts:85) reads a year from 0 to 99 as 1900 to 1999. An event dated in those UTC years is stored at the same month and day in 1900-1999; for example, dateline -62135596800 (0001-01-01T00:00Z) gives 1901-01-01T00:00Z. The model keeps the instant's own day instead, because the civil calendar is not part of this model.
- Crawler.DayOutcome: the exceptions modelled are a null day and a null event. Other TypeErrors, such as a non-iterable truthy `events` value, are not modelled.
- cheerio's DOM and selectors are foreign. Each row is given as its trimmed cell texts and its image's `alt` attribute.
- Crawler.RowDate: `new Date(string)` is the parameter `dateOf`, because its parsing depends on the locale and the time zone. The source reads `new Date().getFullYear()` and `new Date()` once per row. The model reads them once per pass, as `year` and `now`.
- Strings are sequences of Unicode scalar values, not UTF-16 code units.
- Events.StoredEvent: `updatedAt` is managed by the store and is not modelled.
  - The autoincrement id is a counter starting at 1, because the database schema is not part of this model.
  - `createdAt` is the `now` argument, the same for every insert of one `saveEvents` call.
- Concurrency, atomicity and database errors of the Prisma client are not modelled.
- Events.EventStore.Find: rows with equal `eventDate` may come back in any order, because the database does not fix one. The model returns one particular order, and its contract promises only the non-decreasing order.
  - A non-empty date that `new Date` cannot parse is modelled as the error `InvalidDate`, because the client rejects an Invalid Date filter.
- The DTOs, the controller and the module wiring have no logic (dto/*.ts, events.controller.ts, app.module.ts, crawler.module.ts).
