# Arbeitszeit time tracker — a Dafny model of its core

Arbeitszeit is a client-side time tracker for teachers. A start/stop button
times a work session against a category and a note; each stopped session
becomes an entry; entries can be edited and deleted; an overview shows today's
total, the entries in a date range and category newest first, and a total per
category. Everything lives in one file, `app.js`.

This project models the logic beneath the page: the duration arithmetic and
formatting, the two-state timer, the entry and category lists and their
handlers, and the filter, sort and grouping of the overview. Timestamps are
integer milliseconds of local wall-clock time. What the user types into a
field or a dialog, the current time and the id of a new entry are parameters.

Modules, one file each:

- `Wrappers` (`wrappers.dfy`): `Option`, the stand-in for `null` and a cancelled dialog.
- `Text` (`text.dfy`): `String.prototype.trim` and the blank test built on it.
- `Format` (`format.dfy`): `String(n)`, `pad`, `msToHMS` and `msToHM`, with JavaScript's `Math.floor` and truncating `%` written out, so the functions are exact for negative values too.
- `Rounding` (`rounding.dfy`): `roundTo5Minutes`.
- `Seqs` (`seqs.dfy`): `Array.prototype.filter` and an in-place sort by a key, largest first.
- `Entries` (`entries.dfy`): the entry record, duration sums, lookup and removal by id.
- `Aggregation` (`aggregation.dfy`): `sameDay`, the today total, the date and category filter shared by `render` and `exportCSV`, the per-category totals, and `render` itself as a method returning what the page shows.
- `Tracker` (`tracker.dfy`): class `App` holds the mutable state (`entries`, `categories`, the timer fields of `state`, and `settings.rounding5`) and one method per handler. `App.Valid()` is the invariant the handlers keep: a running timer has a start time, categories are distinct, and every entry satisfies `end == start + durationMs`.

Three details of `app.js` that the model keeps:

- Start and stop are one toggle. Nothing rejects an illegal transition; the button's state picks the branch.
- The category and note fields update the timer state on every change, also while the timer runs (app.js:468-475). The entry created at stop takes the state's category and note.
- An edit keeps the old note only when the note dialog is cancelled. An empty answer clears the note. A cancelled or empty category dialog falls back to the old category and trims it. A category answer made only of whitespace keeps the old category untrimmed.

## Model

| member | source | states |
|---|---|---|
| Text.TrimShape | app.js:182 | `trim` returns the contiguous middle of its input, and everything cut off on either side is whitespace. |
| Text.TrimEdges | app.js:182 | The result of `trim` neither starts nor ends with whitespace. |
| Text.TrimEmptyIffBlank | app.js:182-183 | A name trims to the empty string exactly when it consists only of whitespace. |
| Text.TrimIdempotent | app.js:359-369 | Trimming twice equals trimming once, for every string. |
| Format.NatToString | app.js:34 | `String(n)` of a non-negative number is a non-empty string of decimal digits with no leading zero (except for 0 itself). |
| Format.NatToStringRoundTrip | app.js:34 | Reading back the digits `String(n)` writes gives `n`. |
| Format.PadDigits | app.js:34 | `pad(n)` for `n >= 0` has at least two digits, exactly two below 100, and they denote `n`. From 10 on it is `String(n)` itself, with no leading zero. |
| Format.TruncRem | app.js:38-39 | JavaScript `%` takes the sign of the dividend, lies strictly within one divisor of 0, and differs from the dividend by a multiple of the divisor. Together these fix its value. |
| Format.MsToHMSReadsBack | app.js:35-41 | For `ms >= 0`, `msToHMS` gives `H:MM:SS`. Hours have at least two digits. Minutes and seconds are two digits each and below 60. `H*3600 + MM*60 + SS` equals the whole seconds of `ms`. |
| Format.MsToHMReadsBack | app.js:42-47 | For `ms >= 0`, `msToHM` gives `H:MM`. Hours have at least two digits and minutes are below 60. `H*60 + MM` equals the whole minutes of `ms`. |
| Rounding.RoundTo5Minutes | app.js:58-61 | The result is a multiple of 300 000 ms. It lies less than 150 000 ms below the input or at most 150 000 ms above it. |
| Rounding.RoundIsNearest | app.js:58-61 | No multiple of five minutes is closer to the input than the rounded value. |
| Rounding.HalfRoundsUp | app.js:60 | An input exactly half-way between two multiples rounds up. |
| Rounding.MultiplesAreFixed | app.js:60 | A multiple of five minutes is left unchanged. |
| Seqs.Filter | app.js:266 | `filter` returns no more elements than it was given. |
| Seqs.FilterSubMultiset | app.js:266 | `filter` returns nothing more often than it occurs in the input. |
| Seqs.FilterMembers | app.js:266 | `filter` keeps only the elements that pass, and keeps every element that passes. |
| Seqs.FilterAppend | app.js:266 | `filter` distributes over concatenation, so it keeps the relative order of what it keeps. |
| Seqs.FilterCount | app.js:266 | Each value that passes occurs as often as in the input; each value that fails does not occur. |
| Seqs.FilterPermutation | app.js:266 | Filtering two permutations of each other gives permutations of each other. |
| Seqs.FilterTwice | app.js:266-270 | Two successive filters are one filter by the conjunction of their tests. |
| Seqs.FilterCommutes | app.js:266-272 | The order of two filters does not matter. |
| Seqs.SortDescending | app.js:275 | The in-place sort leaves the array ordered by key, largest first, and a permutation of what it was. |
| Seqs.SortedCopy | app.js:293 | Sorting a copy gives a permutation of the input, ordered by key, largest first. |
| Entries.FirstIndexWithId | app.js:352 | `find` gives the first entry with the id, or nothing exactly when no entry has it. |
| Entries.WithoutId | app.js:377 | After deletion no entry has the id. Every entry with another id remains. |
| Entries.WithoutIdKeepsOrder | app.js:377 | Deletion keeps the remaining entries in their original order, since it distributes over concatenation. |
| Entries.WithoutAbsentId | app.js:377 | Deleting an id that no entry has changes nothing. |
| Entries.WithoutIdCount | app.js:377 | Exactly the entries with the id are removed; every other entry keeps its number of occurrences. |
| Entries.SumDurationsAppend | app.js:259 | The sum of durations of a concatenation is the sum of the two sums. |
| Entries.SumDurationsPermutation | app.js:290 | The sum of durations does not depend on the order of the entries. |
| Aggregation.SameDayWindow | app.js:54-57 | A timestamp is on the day of `now` exactly when it lies between that day's midnight and the next. |
| Aggregation.TodayIsOneDayRange | app.js:256-259 | The today total equals the total of the range filter from today to today. |
| Aggregation.FilteredIsSelection | app.js:263-272 | The successive date and category filters (each run only when its field is set) are one filter by "start on or after `from`, before the midnight after `to`, and category equal to the chosen one". |
| Aggregation.FilteredMembers | app.js:263-272 | The filtered list holds exactly the selected entries and is a sub-multiset of the entries. |
| Aggregation.CategoryFilterCommutes | app.js:266-272 | Filtering by category first and by date range afterwards gives the same list. |
| Aggregation.CategoryTotalsKeys | app.js:278-281 | A category appears in `byCat` exactly when some listed entry has it. |
| Aggregation.CategoryTotalsMeaning | app.js:278-281 | Each category's total in `byCat` is the sum of the durations of its entries. |
| Aggregation.CategoryOrderIsKeys | app.js:290-293 | The key order of `byCat` lists every category with a total exactly once. |
| Aggregation.SumOverStep | app.js:279-281 | One step of the `forEach` adds the entry's duration to the sum of the totals, whether its category is new or already has a total. |
| Aggregation.GrandTotalIsSum | app.js:290 | The sum of the per-category totals equals the sum of the durations of the list. |
| Aggregation.PermutedTotals | app.js:275-290 | Grouping the sorted list gives, per category and overall, the same totals as the filtered list before sorting. |
| Aggregation.GroupByCategory | app.js:278-281 | The `forEach` loop builds exactly the per-category totals and their key order. |
| Aggregation.GroupsMeaning | app.js:290-293 | When the key order lists each key of `byCat` once, `Object.entries(byCat)` has exactly one row per category. Each row carries that category's total, and the rows add up to the sum of the totals. |
| Aggregation.ProtoCategoryLost | app.js:278-281 | As written, one hour under the category "__proto__" never becomes a key of `byCat`, while the intended totals hold it (see Findings). |
| Aggregation.ConstructorCategoryBecomesText | app.js:278-281 | As written, one hour under the category "constructor" is stored as the text of the inherited function followed by "3600000", while the intended totals hold the number (see Findings). |
| Aggregation.AsWrittenAgrees | app.js:278-281 | When no category is named after a member of `Object.prototype`, the loop as written stores exactly the intended per-category totals. |
| Aggregation.Render | app.js:254-306 | The today total is the sum over today's entries. The list is a permutation of the filtered entries, sorted newest first. Each category total is the sum over the filtered entries of that category. The summary rows are the `byCat` pairs sorted by total, largest first. The grand total is the sum over the filtered entries. |
| Tracker.EditedCategory | app.js:358-368 | A non-blank answer is stored trimmed. A whitespace-only answer keeps the old category. A cancelled or empty dialog keeps the old category, trimmed unless it is blank. |
| Tracker.EditedNoteMeaning | app.js:359-369 | The stored note is the chosen text (the answer, or the old note when the dialog is cancelled) with exactly its leading and trailing whitespace cut off. It is empty exactly when that text is blank, so an empty answer clears the note. |
| Tracker.RecordedDuration | app.js:209-210 | Without rounding the stop records the elapsed time. With rounding it records a multiple of five minutes within half a step of it. |
| Tracker.App.constructor | app.js:26-29 | First use starts idle: no entries, the eight default categories, the first category selected, an empty note, and rounding off. |
| Tracker.App.ToggleTimer | app.js:192-235 | Start from idle runs the timer from `now`, with the selected category and the trimmed note. Stop from running appends exactly one entry and leaves the earlier ones unchanged. The entry has the fresh id, `start` = the start time, the (possibly rounded) elapsed duration and `end == start + durationMs`. The timer then returns to idle with the fields' category and note. `Valid()` is kept. |
| Tracker.App.SelectCategory | app.js:468-471 | A category change is stored in the timer state. |
| Tracker.App.TypeNote | app.js:472-475 | A note edit is stored trimmed in the timer state. |
| Tracker.App.SetRounding5 | app.js:119-123 | The rounding switch sets the setting. |
| Tracker.App.AddCategory | app.js:179-190 | A cancelled or empty dialog, a blank name and a name already present each leave the list unchanged, with their own outcome. Otherwise the trimmed name is appended, so the list stays duplicate-free. |
| Tracker.App.EditEntry | app.js:351-373 | Each outcome holds exactly in its own case. An unknown id gives `NoSuchEntry`. A dismissed time dialog gives `EditCancelled`. An unparseable time or `end <= start` gives `InvalidTimes`, the alert. Each of these leaves all entries unchanged. Otherwise only the first entry with the id changes: its new start and end, `durationMs == end - start`, and the category and note as above. |
| Tracker.App.DeleteEntry | app.js:375-380 | When confirmed, exactly the entries with the id are removed. Otherwise nothing changes. |

## Left out

- Page construction and rendering are not modelled: `renderCategories`, `renderFilterCategories`, the markup of `renderSummary` and `renderEntries`, `updateTimerDisplay` and `init`'s UI set-up. `Render` returns the values the page shows, unformatted; the formatting functions are modelled separately in `Format`.
- `prompt`, `alert` and `confirm` are not modelled. Their answers are method parameters, and alerts are distinguished outcomes.
- Persistence (`save`, `load` and their JSON fallback) is not modelled. Every handler's new state is what would be saved. A corrupt stored state that breaks `App.Valid()` is not modelled either.
- The display tick (`startTick`, `stopTick`), service-worker registration and the install prompt are browser plumbing and are not modelled.
- CSV file generation, `makeBackup` and `onRestore` produce or read files. Only the filter `exportCSV` shares with `render` is modelled (`Aggregation.Filtered`, app.js:385-390). The CSV rows keep entry order and are not sorted.
- Dates: `Date` parsing, ISO strings, time zones and daylight saving time are not modelled. Timestamps are local wall-clock milliseconds, a day is `DayMs` long, and `from`/`to` are the midnights that begin the chosen days. The week default of `initDefaultFilters` is not modelled.
- `Date.now()` and `crypto.randomUUID()` become the parameters `now` and `freshId`. Ids are not assumed unique: an edit changes the first entry with the id, and a delete removes every one.
- `Math.round(ms / five)` is computed exactly, as `floor((ms + 150000) / 300000)`. Floating-point rounding of the division is not modelled.
- `String(n)` is modelled without the exponent notation JavaScript uses from 10^21 on.
- The order of `Object.entries(byCat)` is modelled as insertion order. JavaScript lists integer-like keys first; that rule is not modelled.
- Aggregation.GroupByCategory: computes the intended totals, for every category name. app.js accumulates into a plain `{}`, which gives wrong totals for names of `Object.prototype` members (see Findings). That behaviour is modelled separately by `Aggregation.ByCatAsWritten` and is not what `Render` uses.
- Seqs.SortDescending: does not state that the sort is stable (JavaScript's `sort` is). Entries with equal start, and groups with equal total, may come out in any order the model allows.
- Seqs.SortedCopy: inherits the same gap; stability is not stated.
- Selecting the new category in the category field after adding it (app.js:189) is UI. The timer state does not change there, and the model leaves it unchanged.

## Findings

| source | as written | input that shows it | evidently intended | confidence | as-written member | corrected member |
|---|---|---|---|---|---|---|
| app.js:278-281 | `byCat` is a plain `{}`, so `byCat[e.category] \|\| 0` reads members inherited from `Object.prototype`, and assigning to `byCat.__proto__` is ignored. | One entry of 3 600 000 ms with category "__proto__": the hour is missing from `byCat` and from the total. The same entry with category "constructor": the total becomes text and is shown as "NaN:NaN". Both names pass `onAddCategory` (app.js:179-185) and `editEntry` (app.js:358). | Every category accumulates the sum of its durations, whatever its name (for example with `Object.create(null)` or a `Map`). | not executed | Aggregation.ProtoCategoryLost, Aggregation.ConstructorCategoryBecomesText | Aggregation.CategoryTotalsMeaning |
