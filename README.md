# GoatCounter browser-statistics rollup, modelled in Dafny

This project models two parts of GoatCounter, a web-analytics server.

**The browser-statistics rollup** (`cron/browser_stat.go`). For one site, the cron job `updateBrowserStats` works in five steps:

1. **Window start.** It picks a window start: the `YYYY-MM-DD` of the site's last rollup, or `1970-01-01` if there has been none.
2. **Select.** It selects the hourly `(browser header, count, hour)` rows since then.
3. **Delete.** Straight after a successful select, and before any grouping, it deletes the site's aggregate rows from the window start on. A failure in a later step leaves the window empty.
4. **Group.** It classifies each header with `getBrowser` and groups the accepted rows into one entry per `(day, browser, version)`.
5. **Insert.** It bulk-inserts the new groups.

The model bundles steps 3 and 5 into one `Replacement`, whose effect `ApplyReplacement` gives once the run has succeeded.

`getBrowser` works like this:
- It rejects bots.
- Otherwise it returns the parser's browser name.
- The version is the decimal major version, followed by `.minor` only when the minor version is positive.
- The mobile flag means "the device is a phone".

**The date and SQL-fragment helpers** of `helper.go`:
- `dayStart` and `dayEnd`: the first and last second of a day, as text.
- `interval`: the "N days ago" expression for PostgreSQL or SQLite.
- The site state codes.

The files:

- `text.dfy` (module `Text`): `Option`, the character-wise string order `LexLess`, and the last index of a character. `LexLess` is Go's string comparison and SQLite's default BINARY collation, which compare bytes; on UTF-8 text byte order and character order agree. PostgreSQL compares text by the database collation and a `date` column as dates. The model compares only `YYYY-MM-DD` days, and for those `Helper.FormatDateOrder` shows that the text order is date order.
- `decimal.dfy` (module `Decimal`): decimal numerals, meaning Go's `strconv.FormatInt(x, 10)`, `%d` and the zero padding of time layouts. It also holds their value, which inverts them.
- `helper.dfy` (module `Helper`): dates and the `"2006-01-02"` layout, `DayStart`/`DayEnd`, `Interval` with the backend flag as a parameter, and `States`.
- `browser_stat.dfy` (module `BrowserStat`): the classifier, the window start, the grouping loop as a method over a `map` updated in place, the loop feeding the bulk insert, and one run of `updateBrowserStats`.

How the model is put together:

- **The loop's specification.** The grouping loop is specified by the function `Aggregate`, a left fold of `Step` (one loop iteration) over the classified rows. The method `GroupStats` is proved equal to it, with the loop invariant `grouped == Aggregate(Rows(parse, stats[..i]))`.
- **What is proved about `Aggregate`:**
  - which keys exist;
  - that each count is the independent sum `SumFor`;
  - conservation of the total;
  - uniqueness of the groups;
  - first-contribution-wins;
  - order independence;
  - that rejected rows are ignored.
- **Parameters.** The user-agent parser `uasurfer.Parse` is a parameter: `parse: string -> ParsedUA`. The record holds what `getBrowser` reads from it, with the `Browser` prefix of the name already trimmed. The select is another parameter, `fetch: string -> Option<seq<BStat>>`, where `None` stands for a failed query. The PostgreSQL switch `cfg.PgSQL` is the `pgsql` argument of `Interval`.
- **The store.** The delete and the insert produce a `Replacement(deleteFrom, rows)`. `ApplyReplacement` gives its effect on a site's rows of the `browser_stats` table, which are modelled as a set of groups.

## Model

| member | source | states |
|---|---|---|
| BrowserStat.WindowDate | cron/browser_stat.go:35-39 | the date the window opens on: the last rollup's date, or 1970-01-01 when there is none. `WindowStart` and `WindowStartBoundary` carry its contract |
| BrowserStat.WindowStart | cron/browser_stat.go:34-39 | the "no last rollup" literal `1970-01-01` is exactly the formatted epoch, so the bound is always the formatted window date |
| BrowserStat.WindowStartBoundary | cron/browser_stat.go:34-39 | the bound has ten characters and reads back as the window date. A formatted date sorts before it as text exactly when the date is earlier, so the boundary day itself is inside the window |
| BrowserStat.Version | cron/browser_stat.go:125-128 | the version text holds only digits, minus signs and dots, in particular no space |
| BrowserStat.VersionRoundTrip | cron/browser_stat.go:125-128 | the version text parses back as the major version plus the minor if it is positive, else 0; it contains a dot exactly when the minor is positive; there is no third component |
| BrowserStat.NumeralHasNoDot | cron/browser_stat.go:125 | a `FormatInt` numeral never contains a dot |
| BrowserStat.VersionExamples | cron/browser_stat.go:125-128 | major 20 with minor 0 gives `"20"`; with minor 2 it gives `"20.2"` |
| BrowserStat.GetBrowser | cron/browser_stat.go:116-187 | `getBrowser` on the parser's result: the empty answer for a bot, otherwise the parser's name, `Version` and the phone test. `GetBrowserFields` carries its contract |
| BrowserStat.GetBrowserFields | cron/browser_stat.go:116-186 | a bot gives `("", "", false)`. Otherwise: the name is the parser's; the version reads back as the parser's major and positive minor; mobile holds exactly when the device is a phone, since the duplicated disjunct adds nothing |
| BrowserStat.AcceptedVersionHasNoSpace | cron/browser_stat.go:124-128 | an accepted answer's version contains no space |
| BrowserStat.GroupKey | cron/browser_stat.go:95 | the map key: day, then browser, then a space, then version. `GroupKeyInjective` carries its contract |
| BrowserStat.GroupKeyInjective | cron/browser_stat.go:95 | if the days have equal length and the versions contain no space, two keys are equal exactly when their (day, browser, version) triples are |
| BrowserStat.RowOf | cron/browser_stat.go:91-98 | one selected row as the loop body sees it: the classifier's answer for its header and its day in the `2006-01-02` layout. `RowsAt` and `RowWellFormed` carry its contract |
| BrowserStat.Step | cron/browser_stat.go:92-104 | one iteration of the loop: skip a rejected row; otherwise look the key up (Go's zero value `gt` when missing), fill a zero-count group from the row, add the count. `AddRow` is proved equal to it, and `AggregateKeys`, `AggregateCounts`, `AggregateFields` and `FirstContributionWins` carry its contract |
| BrowserStat.Aggregate | cron/browser_stat.go:88-105 | the map after the loop has consumed the rows in order, starting from the empty map. `GroupStats` is proved equal to it; the `Aggregate*` lemmas below carry its contract |
| BrowserStat.RowsAt | cron/browser_stat.go:90-95 | the i-th classified row is the classification of the i-th selected row |
| BrowserStat.RowsWellFormed | cron/browser_stat.go:95-98 | if every date is a valid date with a year below 10000, each row's day is ten characters long and each accepted version contains no space |
| BrowserStat.AddRow | cron/browser_stat.go:91-104 | one pass of the loop body computes exactly `Step` of the classified row: a rejected row leaves the map alone; an accepted row fills a zero-count group from itself and adds its count |
| BrowserStat.GroupStats | cron/browser_stat.go:89-105 | the loop's final map equals the fold `Aggregate`. A key is present exactly when some accepted row has it. Each count equals the sum of that key's accepted counts, and all counts together equal the accepted total |
| BrowserStat.AggregateKeys | cron/browser_stat.go:92-104 | a group exists for a key exactly when some accepted row has that key |
| BrowserStat.AggregateCounts | cron/browser_stat.go:95-104 | each key's count is the reference sum of the accepted counts with that key; the sum is 0 for keys without a group |
| BrowserStat.AggregateFields | cron/browser_stat.go:96-102 | each group's day, browser and version come from an accepted row that has the group's key |
| BrowserStat.GroupsAreUnique | cron/browser_stat.go:95-102 | each key is the key of its own group's fields, so no two groups share a (day, browser, version) |
| BrowserStat.GroupsCollectTheirTriple | cron/browser_stat.go:95-104 | for well-formed rows, an accepted row has a group's key exactly when it has that group's day, browser and version |
| BrowserStat.AggregateConservesCounts | cron/browser_stat.go:90-105 | the counts of all groups add up to the total count of the accepted rows |
| BrowserStat.RejectedRowsIgnored | cron/browser_stat.go:92-94 | grouping all rows gives the same map as grouping only the accepted rows |
| BrowserStat.BotRowContributesNothing | cron/browser_stat.go:118-122 | appending a row whose header the parser calls a bot leaves the grouping map unchanged |
| BrowserStat.FirstContributionWins | cron/browser_stat.go:97-103 | with positive counts, a group keeps the day, browser, version and mobile flag of the first accepted row with its key |
| BrowserStat.AggregatePermutation | cron/browser_stat.go:90-105 | reordering the classified rows changes neither the set of keys nor any count |
| BrowserStat.SelectOrderIrrelevant | cron/browser_stat.go:89-105 | reordering the selected rows, whose ties `order by count desc` leaves open, changes neither the set of keys nor any count |
| BrowserStat.InsertedRows | cron/browser_stat.go:109-111 | the loop over the map hands the bulk insert exactly the map's groups |
| BrowserStat.UpdateBrowserStats | cron/browser_stat.go:29-113 | a run fails exactly when the select fails. Otherwise it deletes from the window start and inserts exactly the groups of the fetched rows |
| BrowserStat.ApplyReplacement | cron/browser_stat.go:75-76 | the delete keeps the site's rows whose day sorts before the bound; the insert at :109-113 then adds the new groups. `ReplacementReplacesWindow` and `ReplacementIsIdempotent` carry its contract |
| BrowserStat.FetchedRowsInsideWindow | cron/browser_stat.go:69 | if the selected rows are not earlier than the window date, their days do not sort before the window start |
| BrowserStat.GroupsInsideWindow | cron/browser_stat.go:75-76 | if no row's day sorts before the bound, no group's day does |
| BrowserStat.ReplacementReplacesWindow | cron/browser_stat.go:75-111 | after a run, the rows before the window are those of before, and the window holds exactly the new groups |
| BrowserStat.ReplacementIsIdempotent | cron/browser_stat.go:75-111 | for any store and any replacement, applying it twice gives the same store as applying it once. This is pure set algebra: the second delete removes exactly what the first insert added, and the second insert adds it back |
| Helper.FormatDate | helper.go:57 | Go's `Format("2006-01-02")`: the year padded to four digits, then a dash, the month padded to two, a dash and the day padded to two (the same layout as at cron/browser_stat.go:38 and :95). `FormatDateShape`, `ParseFormattedDate`, `FormatDateInjective` and `FormatDateOrder` carry its contract |
| Helper.FormatDateShape | helper.go:57 | a valid date with a year below 10000 (year 5 is padded to `0005`) formats to ten characters with dashes at positions 4 and 7 |
| Helper.ParseFormattedDate | helper.go:57 | the `YYYY-MM-DD` prefix, followed by anything, reads back as the date |
| Helper.FormatDateInjective | helper.go:57 | two dates format equally exactly when they are equal |
| Helper.FormatDateOrder | helper.go:57 | the text order of formatted dates is their chronological order |
| Helper.DayStart | helper.go:57 | `dayStart`: the formatted date followed by ` 00:00:00`. `DayBounds` and `DayStartOrder` carry its contract |
| Helper.DayEnd | helper.go:58 | `dayEnd`: the formatted date followed by ` 23:59:59`. `DayBounds` carries its contract |
| Helper.DayBounds | helper.go:57-58 | `dayStart` and `dayEnd` are 19 characters long, share the date as their first ten, read back as the date, and `dayStart` sorts before `dayEnd` |
| Helper.DayStartOrder | helper.go:57 | `dayStart` strings of two dates compare as text the way the dates compare in time |
| Helper.Interval | helper.go:60-65 | `interval`: with `pgsql` the PostgreSQL text ` now() - interval '%d days' `, otherwise the SQLite text ` datetime(datetime(), '-%d days') `. `IntervalRoundTrip` and `IntervalBackendsDiffer` carry its contract |
| Helper.IntervalRoundTrip | helper.go:60-65 | each backend's expression carries the day count in decimal between its fixed head and tail, and that count reads back |
| Helper.IntervalBackendsDiffer | helper.go:60-65 | the PostgreSQL and SQLite expressions are never equal |
| Helper.States | helper.go:19-26 | the state codes `StateActive` "a", `StateRequest` "r" and `StateDeleted` "d", listed in that order. `StatesAreDistinctCodes` carries its contract |
| Helper.StatesAreDistinctCodes | helper.go:19-26 | `States` is `"a"`, `"r"`, `"d"` in that order: three distinct one-character codes |
| Decimal.PadFacts | helper.go:57 | a zero-padded field reads back as its number, has at least the layout's width, and exactly that width when the number fits |
| Decimal.LexLessDigits | helper.go:57 | for digit strings of equal length, text order is numeric order |
| Decimal.ValueOfNatToString | cron/browser_stat.go:125 | the decimal numeral of a natural number reads back as that number |
| Decimal.IntToString | cron/browser_stat.go:125-127 | `strconv.FormatInt(x, 10)`, which is also `%d` at helper.go:62 and :64: a minus sign for a negative number, then the decimal digits. Its ensures says the text is a signed numeral; `ParseIntToString` and `IntToStringInjective` carry the rest |
| Decimal.ParseIntToString | helper.go:62-64 | a `%d` / `FormatInt` numeral, with its minus sign, reads back as the integer |
| Decimal.IntToStringInjective | helper.go:62-64 | different integers have different numerals |

## Left out

- The SQL text of the select, the delete and the bulk insert (cron/browser_stat.go:41-79, 107-113) are left out. They are database I/O, so the select is the parameter `fetch`. The delete and insert become the returned `Replacement`, and `ApplyReplacement` gives their effect.
- BrowserStat.UpdateBrowserStats: does not model the "delete" error or an error from the bulk insert's `Finish`, because both come from the database. Only the "fetch data" error is modelled. In the source the delete has already run when `Finish` fails, which leaves the window empty; the model applies the delete and the insert together, so it does not show that state.
- BrowserStat.FetchedRowsInsideWindow: the select's `created_at >= $2` filter is taken as a precondition on the fetched rows. SQL's comparison of a timestamp with a date string is not modelled.
- The internals of `uasurfer.Parse`, `IsBot` and `StringTrimPrefix` are left out, because they belong to a foreign library. Their result is the `ParsedUA` record.
- The `fmt.Println` for Opera (cron/browser_stat.go:143-146) is left out because it only prints. The commented-out heuristics (:148-183) are left out because they are not live code.
- Time zones and Go's `time.Time` are left out. A date is a `(year, month, day)` triple with a natural-number year, and the hour is carried but never formatted.
- SQL collations are left out. The delete's `day>=$2` is modelled with `LexLess`. That is right for SQLite's BINARY collation, and for a PostgreSQL `date` column on `YYYY-MM-DD` days, because `FormatDateOrder` shows that text order is date order there. Other text collations are not modelled.
- The fixed-width lemmas (`FormatDateShape`, `FormatDateOrder` and the others) require a year below 10000, where the layout gives exactly four digits. Larger years get more digits in `Pad`, as in Go, but their order is not proved.
- BrowserStat.FirstContributionWins: requires positive counts. The select's `count(browser)` is at least 1. A group whose first counts summed to 0 would be refilled by the next row, as the `v.count == 0` test does. Conservation (`AggregateConservesCounts`) holds for any counts.
- Go's random map iteration order in the insert loop is left out. The inserted rows are modelled as a set. `GroupsAreUnique` shows that no two groups coincide, so the set loses no row.
- The context helpers of `helper.go` (`GetSite`, `MustGetSite`, `GetUser`, `NewContext`, :28-55) are left out because they are context lookups and a database handle.
- `zmail/zmail.go` is not part of this model. It is mail sending over the network.
- `cron/hit_stat_test.go` is not part of this model. It is a database-backed test of code outside this model.
- Concurrency and per-site locking of cron runs are left out.
- Go's `int` is modelled as an unbounded `int`. Overflow of counts or version numbers is not modelled.
