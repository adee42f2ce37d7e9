# Facility availability scraper: a Dafny model

This project models the core of a Google Apps Script scraper for a sports-facility
reservation site, and proves properties of the model. The scraper:

1. fetches the availability page with a cookie-carrying crawler;
2. strips the tags that stop the page from parsing as XML;
3. finds the court tables with a small tree query;
4. turns each table into a calendar of per-day, per-slot availability values;
5. compares each calendar with the snapshot stored in a spreadsheet on the previous run;
6. stores the new snapshot;
7. sends a message listing every slot that moved between "full" (`×`) and "available"
   (a number), or an error message.

Modules, one per source file, plus two shared ones:

- `Results` holds `Option`, `Result` and the failures the code can raise. Every `throw`,
  and every JavaScript TypeError on `undefined` or `null`, becomes an `Err`.
- `Text` holds the JavaScript string operations used: `trim`, `join`, `split` on one
  character, and "is a substring of".
- `HtmlParser` models `src/htmlParser.ts`:
  - parsed documents are a finite tree datatype;
  - `Parser.Find` and `Parser.Dfs` are the recursive depth-first search, appending to a
    shared `ElementList`;
  - both are proved equal to a pre-order filter, `Matches`.
- `Calendars` models `src/calendar.ts`:
  - availability values, `needAlert`, `Diff.toString` and `columnId`;
  - `fromTable`;
  - `compare`, a method with nested loops proved against `CompareSpec`;
  - `store` and `restore`, methods over a `Workbook` whose sheets are grids of cell texts.
- `Crawling` models the cookie jar of `src/crawler.ts` as a `Crawler` class with a
  `cookies` field.
- `XMain` models `src/x_main.ts`:
  - `normalizeHtml`, `parseDates`, `getCalendarInfo` and `getDiffs`;
  - the message texts and `main`'s decision what to send;
  - `getPayload`.
- `DebugMain` models the older `main` of `src/main.ts`. It gathers one flat list of changes.
  Its copies of `normalizeHtml` (`src/main.ts:52-63`), `getCalendarInfo` (`src/main.ts:65-74`),
  `parseDates` (`src/main.ts:76-82`) and `getPayload` (`src/main.ts:84-87`, exported there) have the same code as
  those of `src/x_main.ts`, so the `XMain` members model both.

Everything outside the calls is a parameter:

- the fetched page, as `page: Result<string>`;
- the XML parser, as `parse: string -> Result<Element>`;
- the spreadsheet, as a `Workbook` object;
- the `Set-Cookie` headers of a response, as a `Response` value.

Both entry points pass `"19:00～21:00"` as the target slot. That label has a FULLWIDTH TILDE
between the clocks. `compare` tests membership against the slot label after
`new Availability` rewrote it with `time.replace(/([0-9]+:[0-9]+).([0-9]+:[0-9]+)/gi, "$1-$2")`.
The replacement puts both captured clocks back around a `-`, so each match has the character
that `.` matched replaced by `-` and nothing else changed. The pattern has no letters, so the `i`
flag changes nothing. The model therefore states the rewrite without groups or case folding. For two clocks around one separator that is neither an ASCII digit,
nor a line terminator, nor outside the Basic Multilingual Plane, that character is the
separator (`Calendars.NormaliseRange`). In general it is whatever the backtracking `.` took:
`"19:00521:00"` becomes `"19:005-1:00"`. No label normalises to exactly `"19:00～21:00"`:
in that text the tilde is the separator, and the rewrite turns the separator into `-`.
Labels such as `"19:00 ～ 21:00"` keep their tilde, because the pattern matches nowhere in them,
but they are not the target either. So the target matches no slot, and as written no change is
ever reported:

- `Calendars.NormaliseNeverYieldsTarget` proves this for labels;
- `Calendars.CompareAsWrittenIsEmpty` proves it for `compare`;
- `XMain.RunAsWrittenFindsNothing` and `XMain.RunAsWrittenSendsNoDiff` prove it for a run;
- `DebugMain.DebugRunAsWrittenLogsNothing` proves it for the debug revision.

The model keeps this behaviour. `compare`, the `forEach` of both revisions (`XMain.RunFrom`,
`DebugMain.DebugRunFrom`) and every general property about them take the target list as a
parameter and are proved for any list. Only the loops `CollectDiffs` and `CollectFlat` and the
entry points fix it to the list as written.

## Model

| member | source | states |
|---|---|---|
| Calendars.NewAvailability | src/calendar.ts:7-10 | the value is kept verbatim; the label keeps its length, and each character is either the original one or `-` |
| Calendars.NormaliseTime | src/calendar.ts:8 | the global rewrite keeps the length and replaces characters only by `-` |
| Calendars.RewriteKeepsOrDashes | src/calendar.ts:8 | from any position on, the global replace keeps the remaining length and replaces characters only by `-` |
| Calendars.NormaliseRange | src/calendar.ts:8 | a label made of two clocks `digits:digits` around one non-digit separator comes back with the separator replaced by `-` |
| Calendars.NormaliseWithoutMatch | src/calendar.ts:8 | a label in which the pattern matches nowhere comes back unchanged |
| Calendars.NormaliseWithoutColon | src/calendar.ts:8 | a label without `:` comes back unchanged |
| Calendars.NormaliseNeverYieldsTarget | src/calendar.ts:8 | no label normalises to `"19:00～21:00"`, because the rewrite turns its tilde into `-` |
| Calendars.MarkersAreNotNumbers | src/calendar.ts:1-2 | neither `×` nor `－` passes `ParsesAsInteger` (the `parseInt` test of `isAvailable`), so neither counts as available |
| Calendars.FullIsNotAvailable | src/calendar.ts:20-27 | `IsFull` (`isFull`) and `IsAvailable` (`isAvailable`) never hold together |
| Calendars.NeedAlertMeaning | src/calendar.ts:53-55 | `NeedAlert` (`needAlert`) fires exactly when one side is full and the other available; it is symmetric and false across `－`, between two numbers and between a slot and itself |
| Calendars.DiffText | src/calendar.ts:48-50 | the sentence is the date at index 0, a space at index `\|date\|`, the time right after it, then the status words, the before value, the word `から`, the after value and the closing words, each at its offset, and nothing after them |
| Calendars.ColumnId | src/calendar.ts:57-59 | the column is the character `'A' + id`, a capital letter for ids below 26 |
| Calendars.FromTable | src/calendar.ts:76-87 | name from the first `tr`, raw schedule names from the second, one day per later row with date `dates[i]` and slot `j` built from schedule name `j` and cell `j`; fewer than two rows, or a day row wider than the label row, is an error |
| Calendars.Compare | src/calendar.ts:159-178 | the nested loops return `CompareSpec`: the diffs of the alerting target slots, or `MisalignedCalendars` when a target slot of the receiver has no counterpart in the argument |
| Calendars.CompareDay | src/calendar.ts:162-175 | the inner loop over one day's slots succeeds exactly when that day is aligned, returning that day's diffs in slot order |
| Calendars.CompareDiffs | src/calendar.ts:159-178 | a successful compare returns one `Diff` per alerting target slot, and only those; cells are in day-major then slot order; `before` is from the receiver and `after` from the argument |
| Calendars.AlertCellsSpec | src/calendar.ts:161-167 | the cells visited are exactly those whose normalised time is a target and where `needAlert` holds, in increasing order |
| Calendars.CompareSelf | src/calendar.ts:159-178 | a calendar compared with itself yields no diffs |
| Calendars.CompareNoTargets | src/calendar.ts:163-165 | an empty target list yields no diffs and no error |
| Calendars.NoAlertsNoDiffs | src/calendar.ts:159-178 | aligned calendars with no alerting cell compare to an empty list |
| Calendars.CompareAsWrittenIsEmpty | src/calendar.ts:163 | with the target list `["19:00～21:00"]`, a calendar built by `fromTable` or `restore` compares empty with any calendar, without even reading it |
| Calendars.BuildRows | src/calendar.ts:104-113 | the push loops build the layout: the header row, then one row per day |
| Calendars.LayoutShape | src/calendar.ts:104-113 | the header is `["date", ...scheduleNames]`; day row `i` is the date followed by the slot values, one cell wider than its schedule |
| Calendars.LayoutRectangular | src/calendar.ts:104-118 | all rows are as wide as the header exactly when every day has one slot per schedule name |
| Calendars.StoreRangeMeaning | src/calendar.ts:116-117 | the range is `A1:` followed by the letter of the header's last column and a row number equal to the number of rows |
| Calendars.DecimalRoundTrip | src/calendar.ts:117 | the row count rendered into the range reads back as the same number |
| Calendars.StoreResult | src/calendar.ts:115-118 | writing succeeds exactly when there are fewer than 26 schedule names and every day has one slot per name |
| Calendars.Store | src/calendar.ts:101-121 | the sheet named after the calendar is created or cleared, then holds the layout, or stays empty when the range or `setValues` fails; no other sheet changes |
| Calendars.LastRow | src/calendar.ts:136 | `getLastRow` is the last row with a non-empty cell; every later row is empty |
| Calendars.Restore | src/calendar.ts:123-157 | the loops return `RestoreSpec`: no calendar without a sheet, an error when the last filled row is the header, otherwise seven names from columns 2 to 8 and one day per data row |
| Calendars.ReadNames | src/calendar.ts:132-134 | the header loop reads the seven cells of row 1 from column 2 on, in order |
| Calendars.ReadDays | src/calendar.ts:136-149 | one day per row from row 2 to the last filled row, in row order |
| Calendars.ReadDay | src/calendar.ts:139-148 | the inner loop over columns 2 to 8 builds the day that `RestoredDay` describes |
| Calendars.RestoredDay | src/calendar.ts:139-146 | the date is the row's first cell, and slot `k` is the availability built from schedule name `k` and the cell in column `k + 2` |
| Calendars.RestoredDayWellFormed | src/calendar.ts:144-146 | a restored day has one slot per schedule name, each labelled by normalising its name |
| Calendars.RestoredShape | src/calendar.ts:132-156 | a restored calendar carries the requested name, at least one day, seven schedule names and seven slots per day, each labelled by normalising its column's name |
| Calendars.RestoreCleared | src/calendar.ts:136 | a sheet left empty by a failed store fails to restore |
| Calendars.StoreRestoreRoundTrip | src/calendar.ts:101-157 | for a well-formed calendar with seven slots per day and at least one day whose last day row has some non-empty cell, restoring its layout gives back that calendar |
| Calendars.StoredIsRestored | src/calendar.ts:101-157 | restoring right after storing such a calendar into any workbook returns it |
| HtmlParser.MatchQueryMeaning | src/htmlParser.ts:7-24 | under `MatchQuery` (`matchQuery`), a node matches exactly when its tag name equals the query's, its `class` attribute equals a given class, and every listed attribute is present with an equal value; an absent class or attribute list constrains nothing |
| HtmlParser.MatchAttrsAll | src/htmlParser.ts:15-22 | the early-exit attribute loop accepts exactly when every pair is on the node, so an empty list accepts |
| HtmlParser.Parser.constructor | src/htmlParser.ts:29-31 | the parser keeps the given root |
| HtmlParser.Parser.Find | src/htmlParser.ts:33-37 | `find` returns the pre-order filter `Matches(root, q)` |
| HtmlParser.Parser.Dfs | src/htmlParser.ts:39-53 | `_dfs` appends exactly the matches of the subtree, in pre-order, behind what the result already held |
| HtmlParser.Parser.DfsChildren | src/htmlParser.ts:48-52 | the loop over the children appends the matches of each child's subtree, child after child |
| HtmlParser.ElementList.Push | src/htmlParser.ts:45 | `push` appends one element |
| HtmlParser.FindSound | src/htmlParser.ts:33-53 | every element found matches the query and lies in the tree |
| HtmlParser.FindComplete | src/htmlParser.ts:33-53 | every matching element of the tree is found |
| HtmlParser.MatchesOrder | src/htmlParser.ts:44-52 | a node comes before its descendants, and an earlier child's matches come before a later child's |
| HtmlParser.MatchesBound | src/htmlParser.ts:39-53 | there are never more results than nodes in the tree |
| HtmlParser.NoMatchEmpty | src/htmlParser.ts:33-37 | a tree with no matching element yields an empty result |
| HtmlParser.LeafMatches | src/htmlParser.ts:44-46 | a tree without child elements yields `[root]` or `[]` |
| HtmlParser.SelectMembers | src/htmlParser.ts:44-46 | filtering keeps exactly the matching elements |
| Crawling.Crawler.constructor | src/crawler.ts:7-9 | a new crawler has an empty jar, so it sends an empty `Cookie` header |
| Crawling.Crawler.Absorb | src/crawler.ts:27-40 | each `Set-Cookie` value's text before its first `;` is appended in order, duplicates kept and old entries untouched; with no `Set-Cookie` the jar is unchanged |
| Crawling.Crawler.Request | src/crawler.ts:11-42 | the request carries the jar as it was, joined with `"; "`, and the fixed `User-Agent`; the response's cookies are absorbed and its body returned |
| Crawling.SetCookieValues | src/crawler.ts:28-33 | a missing header yields no values, and a single string counts as a list of one |
| Crawling.CookiePair | src/crawler.ts:38 | the pair is the prefix of the value before its first `;`, and contains no `;` |
| Crawling.JarGrows | src/crawler.ts:27-40 | over any sequence of responses the jar grows by exactly the number of `Set-Cookie` values, keeps its old entries as a prefix, and never holds a `;` |
| Crawling.HeaderSeparatesPairs | src/crawler.ts:16 | splitting the `Cookie` header that `Crawler.CookieHeader` builds at `;` gives back every pair of the jar, in order |
| Text.Trim | src/calendar.ts:78 | `trim` returns the string with whitespace cut from each end: what precedes and follows the result is whitespace, the result has none at either end, and a string with none at its ends comes back unchanged |
| Text.JoinLaidOut | src/x_main.ts:16 | `join(sep)` lays the parts out in order, each at its offset, with `sep` between each two and nothing else |
| XMain.NormalizeHtml | src/x_main.ts:88-99 | the loop over the six patterns applies each removal in turn; the result is never longer than the input, and is the input when no pattern occurs, ignoring ASCII case |
| XMain.ApplyAllShorter | src/x_main.ts:88-99 | the removals never lengthen the text |
| XMain.ApplyAllWithoutMatch | src/x_main.ts:88-99 | text in which none of the patterns occurs is left unchanged |
| XMain.StripWithoutMatch | src/x_main.ts:97 | a `replace` whose pattern matches nowhere returns its input |
| XMain.ParseDates | src/x_main.ts:112-118 | one date per `tr` found in pre-order after the first, each its trimmed text |
| XMain.ParseDatesFromRows | src/x_main.ts:112-118 | every date is the trimmed text of a `tr` element inside the table |
| XMain.FromTablesEach | src/x_main.ts:108 | a `map` over the court tables that succeeds gives one calendar per table, each that table's `fromTable` |
| XMain.FromTablesFailure | src/x_main.ts:108 | a `map` that fails raises the error of the first table whose `fromTable` fails; every table before it succeeds |
| XMain.FirstFailureOk | src/x_main.ts:108 | a `map` whose callback throws nowhere returns every value, in order |
| XMain.FirstFailureErr | src/x_main.ts:108 | a `map` whose callback throws raises the first error, and every earlier call returned normally |
| XMain.CalendarsOfCourts | src/x_main.ts:101-110 | for `CalendarsOf` (`getCalendarInfo` after parsing, `GetCalendarInfo`): there are at least two `table.tcontent` elements, and one calendar per table from the third on, each dated from the second table and well formed |
| XMain.CollectDiffs | src/x_main.ts:42-53 | the loop restores, compares, collects and stores one calendar at a time, as `RunFrom` (the `forEach`, for any target list) does |
| XMain.GetDiffs | src/x_main.ts:37-54 | `getDiffs` returns `GetDiffsSpec`: it fails as the page fetch or extraction fails, and otherwise runs the loop over the extracted calendars |
| XMain.RunComparesWithSnapshots | src/x_main.ts:43-52 | with distinct court names, a run returns a group for a calendar exactly when it had a snapshot before the run and the comparison is non-empty, in page order |
| XMain.RunStoresAll | src/x_main.ts:43-52 | a run that does not fail has stored every calendar, with or without a snapshot or a change |
| XMain.RunAsWrittenFindsNothing | src/x_main.ts:46 | with the target as written, a run that does not fail returns no group |
| XMain.GroupText | src/x_main.ts:15-18 | a group's text is `[name]` and a newline, then the changes' lines in order with one newline between each two and nothing after; with no change, just the heading |
| XMain.CreateDiffMessage | src/x_main.ts:138-141 | the message is the fixed heading and a newline, then the groups' texts in order with a blank line between each two and nothing after; every change of every group appears in it |
| XMain.Notifications | src/x_main.ts:21-35 | the sends of the `try`/`catch`: one error message when `getDiffs` fails; the diff message when there are groups, followed by one error message when that send throws; nothing when there is no group |
| XMain.Run | src/x_main.ts:21-35 | `main` hands the notifier what `Notifications` prescribes for the outcome of `getDiffs` and of the diff send, and leaves the sheets as `getDiffs` does |
| XMain.RunAsWrittenSendsNoDiff | src/x_main.ts:21-35 | as written, `main` sends nothing or one error message, whatever the notifier does |
| XMain.GetPayload | src/x_main.ts:120-123 | the payload is the template's `key=value` entries laid out in template order with exactly one `&` between each two and nothing else, and is empty for an empty template |
| XMain.PayloadRoundTrip | src/x_main.ts:120-123 | when no key or value holds `&` and no key holds `=`, splitting the payload at `&` and each piece at its first `=` gives back the template, in order and unescaped |
| DebugMain.CollectFlat | src/main.ts:10-16 | the loop restores, compares, collects the changes of every calendar and stores it, as `DebugRunFrom` (the `forEach`, for any target list) does |
| DebugMain.DebugRunFlattens | src/main.ts:10-17 | for any target list: when the debug run succeeds, the later revision succeeds too, leaves the same sheets, and its groups flatten to the same changes in calendar order; when the debug run fails other than on a missing snapshot, the later revision fails with the same error and sheets |
| DebugMain.MissingSnapshotFails | src/main.ts:12-13 | a court without a stored snapshot stops the debug run at `compare`, while the later revision stores it and goes on |
| DebugMain.DebugRunAsWrittenLogsNothing | src/main.ts:13 | as written, the debug run logs no change |
| DebugMain.LogLines | src/main.ts:17 | one log line per change, each its text |
| DebugMain.LogAll | src/main.ts:17 | the logging loop writes exactly `LogLines`, one line per change in order |
| DebugMain.Run | src/main.ts:5-18 | `main` does what `DebugSpec` describes: it logs every change in order, or stops with the first failure |

## Left out

- `UrlFetchApp.fetch`, redirects, Shift_JIS decoding and the `method`, `url` and `payload` of `Crawler.request` are not modelled. A request takes the response's `Set-Cookie` field and body as a `Response` value.
- The fixed request sequence and the `Utilities.sleep` calls of `getCalendarPage` are not modelled. `XMain.GetDiffs` takes the fetched page, or its failure, as a parameter.
- Retries, weekday conditions, maintenance-window checks and per-month page loops do not exist in the source files, so the model has none. `compare` filters by exact membership of the normalised time.
- `XmlService.parse` and `getRootElement` are the parameter `parse`. Namespaces, attribute order and the XML text itself are not modelled.
- `getValue` of an element is modelled as the concatenation of the character data below it, with no entity handling.
- HtmlParser: element identity is not modelled. Structurally equal subtrees are equal values.
- `SpreadsheetApp` is a map from sheet names to grids of strings. The sheet's type coercion of cell values, and its formatting, are left out. Cells beyond what was written read as `""`.
- `Logger.log` is left out, except for the change lines that the debug `main` logs.
- `getNotifierClient`, `PropertiesService` and `src/notification.ts` are not modelled. `XMain.Run` returns the messages it hands to `notifier.send`, in order, and takes whether the diff send throws as the parameter `sendFailure`.
- XMain.Run: a `getNotifierClient` that throws (it is outside the `try`), and an error send that throws (uncaught, so `main` ends with it), are not modelled; neither changes which messages are handed to the notifier before it.
- The `payloads` global is not part of the source files. `XMain.GetPayload` takes the template.
- XMain.ErrorText: the texts of JavaScript errors are not modelled. Each failure has a fixed stand-in text.
- Calendars.ColumnId: requires `'A' + id` below the surrogate range, which `store` meets because it only calls it for fewer than 26 names. Larger ids are not modelled.
- Calendars.FromTable: a day row with no entry in `dates` gets the date text `"undefined"`, as a template string renders it. The `undefined` value itself is not modelled.
- Calendars.StoreRestoreRoundTrip: proved only for calendars with exactly seven schedule names, at least one day, and some non-empty cell in the last day row, because `restore` reads a fixed width of seven and stops at the last non-empty row.
- Calendars.StoredIsRestored: the same three conditions as `Calendars.StoreRestoreRoundTrip`, for the same reasons.
- XMain.RunComparesWithSnapshots: stated for pages whose court names are distinct. With a repeated name, a later calendar compares with the snapshot stored earlier in the same run, and the model follows that through `RunFrom`.
