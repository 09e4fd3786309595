# Timesheet core, modelled in Dafny

A model of the browser timesheet in `app.js`. The user keeps one list of
entries per day. An entry has a project, a comment, a legacy duration and a
start time written `H:MM` or `HH:MM`. An entry lasts until the next later
start of the day. The model covers:

- the time arithmetic;
- the +/- start buttons with their 5-minute / 15-minute / quarter-hour stage machine;
- the search that moves a start until no other entry has it;
- the start-time order of the list, and the debounced resort after button presses;
- adding and removing entries, and the start field's handlers;
- the day change;
- the per-project summary, the comment suggestions and the CSV export;
- HTML escaping.

## Modules

| Module | File | What it holds |
|---|---|---|
| `TimeOfDay` | `time.dfy` | clock parsing and formatting, durations, the time picker's quarter hours |
| `Text` | `text.dfy` | `trim`, ASCII `toLowerCase`, name ordering, `join`, `escapeHtml` |
| `StableSort` | `stablesort.dfy` | a stable sort by an integer key, which is what both comparators of the source amount to |
| `Entries` | `entries.dfy` | the entry datatype, `visibleMinutes`, the two entry orders, lookup by id |
| `Uniqueness` | `uniqueness.dfy` | `ensureUniqueStart` |
| `Rounding` | `rounding.dfy` | `ceilUp`, `floorDown` and one press of `adjustStart` |
| `Summary` | `summary.dfy` | `groupByProject`, `getFrequentComments` |
| `Csv`, `Export` | `csv.dfy`, `export.dfy` | the CSV text, a reader for it, `exportCSV` |
| `Deferred` | `deferred.dfy` | the debounced resort as a value |
| `Sheet` | `timesheet.dfy` | the application `state` as a class, with the event handlers as methods |

## Design choices

**The application state.** `state` becomes the class `Sheet.Timesheet`.
- The entries are a `seq<Entry>` field. A JavaScript `e.start = …` on an entry object becomes replacing that position of the sequence.
- The four `sort*` fields and the browser's timeouts are fields of the class. The handles are a counter of the timeouts created, plus the set of timeouts still armed.
- A ghost counter `sortRuns` counts how often the list was sorted. This lets contracts say "sorted exactly once".

**Inputs from the outside world.** `nowHHMM()`, `Date.now()`, `todayISO()`, `makeId()` and the entries `loadDay` reads are parameters of the operations. Entry ids are plain strings. The lemmas about distinct starts assume that ids are distinct.

**Parsing follows the code.**
- The shape test `^\d{1,2}:\d{2}$` checks only the shape, so `24:99` parses to 1539.
- Any other text parses to 0.
- Stored entries and `addEmptyEntry` skip the uniqueness search, as in the code.

**Pure and stateful forms.** Each stateful method is stated against a pure function of the old state: `Resolved`, `WithStart`, `Added`, `Removed`, `StartChanged`, `Schedule`, `Cancel`, `Flush` and the sorts. The lemmas beside those functions state what the source promises of them.

## Model

| member | source | states |
|---|---|---|
| TimeOfDay.ParseHHMM | app.js:81-87 | text that fails the shape test parses to 0; nothing parses above 99:99 |
| TimeOfDay.ParseHHMMFields | app.js:81-87 | an accepted string parses to sixty times the number before the colon plus the number after it |
| TimeOfDay.OutOfRangeClockAccepted | app.js:81-87 | `24:99` passes the shape test and gives 1539; the empty string and `9h30` give 0 |
| TimeOfDay.FormatDuration | app.js:74-79 | a zero or negative duration is shown as `00:00` |
| TimeOfDay.FormatDurationParses | app.js:74-79 | a duration label of two-digit hours reads back as the same number of minutes |
| TimeOfDay.FormatClockParses | app.js:89-93 | every minute of the day is written as canonical `HH:MM` text that parses back to that minute |
| TimeOfDay.ClockRoundTrip | app.js:89-93 | a canonical `HH:MM` string survives parsing and re-formatting unchanged |
| TimeOfDay.DurationBetween | app.js:100-108 | the duration is 0 unless both times pass the shape test |
| TimeOfDay.DurationBetweenSpec | app.js:100-108 | for valid in-day times the duration is non-negative, below a day, and the start plus it is the end modulo a day (past midnight when the end is earlier) |
| TimeOfDay.QuarterTimes | app.js:1031-1039 | exactly 57 canonical clock strings, the i-th being 07:00 plus i quarter hours, so 07:00 to 21:00 inclusive |
| TimeOfDay.ClockTextInDay | app.js:1031-1039 | the template written for a minute of the day is a canonical clock that reads back as that minute |
| Text.Trim | app.js:61-68 | the trimmed text starts and ends with a non-blank character |
| Text.TrimEmptyIff | app.js:61-68 | the trim is empty exactly when the text is all white space |
| Text.TrimIdempotent | app.js:61-68 | trimming twice is trimming once |
| Text.SortNamesSorted | app.js:61-68 | the sorted project list is in ascending order and is a permutation of its input |
| Text.SortNamesStrict | app.js:61-68 | a list without repeated names comes out strictly ascending |
| Text.EscapeHtml | app.js:645-647 | the intended escaping leaves no `<`, `>` or `"` in its output |
| Text.EscapeHtmlRoundTrip | app.js:645-647 | decoding the four entities gives back the text that was escaped |
| Text.EscapeHtmlAdjacentSpecials | app.js:645-647 | as written, `a<>b` becomes `aundefinedb`, which does not decode back to `a<>b` |
| Text.EscapeHtmlAdjacentSpecialsIntended | app.js:645-647 | the intended escaping turns `a<>b` into `a&lt;&gt;b` |
| Text.EscapeHtmlAsWrittenIsolated | app.js:645-647 | where no two special characters are adjacent, the code as written escapes as intended |
| StableSort.SortOrdered | app.js:568-584 | the sort leaves keys in non-decreasing order |
| StableSort.SortStable | app.js:568-584 | elements with equal keys keep their relative order |
| StableSort.SortIdempotent | app.js:568-584 | sorting an already sorted list changes nothing |
| Entries.ProjectLabel | app.js:607 | the project is filed under its trimmed name, or under `Sans projet` when that is empty |
| Entries.ProjectLabelPlain | app.js:603-607 | a label is its own trim; only a pause entry is labelled `pause` |
| Entries.NextStartAfterSpec | app.js:110-125 | no result exactly when no other entry starts later; otherwise the result is the earliest later start, and it belongs to some entry |
| Entries.VisibleMinutesSpec | app.js:110-125 | without a valid start, the legacy minutes; with one, a non-negative duration that is 0 exactly when no other entry starts later, and otherwise reaches the nearest later start with none in between |
| Entries.SortByStartSpec | app.js:568-584 | same entries; entries without a valid start lead, in list order; valid starts never increase along the list; entries with equal starts keep list order |
| Entries.SortForExportSpec | app.js:654-664 | same entries; valid starts come first in non-decreasing order, then the rest; ties and the unscheduled entries keep list order |
| Entries.SortByStartIdempotent | app.js:568-584 | sorting the sorted list again changes nothing |
| Entries.PermutationKeepsDistinct | app.js:568-584 | reordering keeps ids distinct and starts distinct |
| Entries.FindIndex | app.js:426-427 | none exactly when no entry has the id; otherwise the first position holding it |
| Uniqueness.Direction | app.js:544 | the direction is +1 exactly when `preferredDir >= 0`, and -1 otherwise |
| Uniqueness.NudgeStepIsModulo | app.js:559 | one move is 15 minutes forwards or backwards, modulo a day |
| Uniqueness.NudgedClosedForm | app.js:549-561 | after k moves the minute is the start plus or minus 15k, modulo a day |
| Uniqueness.StepsFromSpec | app.js:549-561 | the search passes only over minutes another entry has, and stops at a free one unless it reaches 96 moves |
| Uniqueness.ResolveStart | app.js:539-565 | the loop returns the start the search specifies, and `changed` is true exactly when at least one move was made |
| Uniqueness.ResolvedStartInvalid | app.js:541-542 | a start that fails the shape test is left as it is and nothing moves |
| Uniqueness.ResolvedStartShape | app.js:539-565 | a valid start makes at most 96 moves in the sign of `preferredDir`, and the result is again a valid start |
| Uniqueness.ResolvedStartMoved | app.js:558-560 | after a move the start is canonical `HH:MM` text of the start plus or minus 15n, modulo a day |
| Uniqueness.ResolvedStartSearch | app.js:549-561 | every minute passed over is taken; a search that stops early ends on a free minute; with fewer than 96 other valid starts it always stops early |
| Uniqueness.ResolvedStartFree | app.js:539-565 | with fewer than 96 other valid starts, no other entry starts at the resolved start |
| Uniqueness.UpdateStartKeepsDistinct | app.js:539-565 | writing a start that collides with nothing keeps ids and starts distinct |
| Uniqueness.ResolveKeepsDistinct | app.js:539-565 | writing any start and then resolving it keeps ids and starts distinct, while fewer than 96 other entries have a valid start |
| Rounding.CeilUp | app.js:504-506 | the result is a multiple of the step, strictly after `m` and at most one step ahead |
| Rounding.FloorDown | app.js:507-509 | the result is a multiple of the step, strictly before `m` and at most one step behind |
| Rounding.CeilUpNearest | app.js:504-506 | no multiple of the step lies strictly between `m` and ceilUp |
| Rounding.FloorDownNearest | app.js:507-509 | no multiple of the step lies strictly between floorDown and `m` |
| Rounding.Normalize | app.js:528 | the double remainder is the mathematical remainder modulo a day |
| Rounding.AdjustPressSpec | app.js:496-531 | the press records its direction and time. Stage 0 lands on the nearest 5-minute mark ahead or behind, then stage 1. Stage 1 does the same on the 15-minute grid, then stage 2. Later stages move exactly 15 minutes and stay. All modulo a day |
| Rounding.ReversalRestarts | app.js:500-501 | pressing in the other direction starts over on the 5-minute grid |
| Rounding.ThreePresses | app.js:515-528 | from 07:02 three presses give 07:05, 07:15, 07:30; pressing down at 00:00 wraps to 23:55 |
| Summary.GroupByProject | app.js:600-612 | the loop over the entries yields the day's project summary |
| Summary.ProjectSummaryOrdered | app.js:600-612 | rows are strictly ascending by name; each row's minutes are the sum of the shown durations of the non-pause entries filed under that name |
| Summary.ProjectSummaryNames | app.js:600-612 | there is a row for a name exactly when some non-pause entry is filed under it |
| Summary.ProjectSummaryPlain | app.js:603-607 | no row name is empty, has surrounding blanks or reads `pause` |
| Summary.FrequentComments | app.js:128-150 | the loop and the ranking yield the first `maxItems` comments ranked by count |
| Summary.FrequentComposition | app.js:128-150 | the list holds `maxItems` comments, or every qualifying comment when there are fewer; none is repeated and each is the trimmed comment of a qualifying entry |
| Summary.FrequentRanking | app.js:144-149 | counts never increase along the list; a qualifying comment left out appears only when the list is full, and is no more frequent than any listed one |
| Csv.CsvRoundTrip | app.js:704 | reading the quoted, `;`-separated, newline-joined text back gives exactly the lines and cells written |
| Export.ExportCsv | app.js:650-704 | the text is the CSV form of the export's lines |
| Export.PushDataLines | app.js:672-693 | the first loop appends the data line of every non-pause entry of the sorted copy |
| Export.PushTotalsLines | app.js:696-702 | the second loop appends one totals line per summary row |
| Export.EndTimeSpec | app.js:677-684 | the end cell is empty or the valid start of the next entry in the sorted copy (pauses included), which is never earlier than the entry's own start |
| Export.DataLinesFrom | app.js:666-693 | every data line belongs to a non-pause entry of the sorted copy |
| Export.DataLinesCover | app.js:666-693 | every non-pause entry of the sorted copy gets its data line |
| Export.TotalsFilterKeepsAll | app.js:696-699 | the pause filter on the totals never removes a row |
| Export.ExportLayout | app.js:650-702 | the data header, the data lines in ascending start order, an empty line, the totals header and one line per row of groupByProject |
| Export.ExportRoundTrip | app.js:650-704 | the exported text reads back as exactly the lines written |
| Deferred.ScheduleSpec | app.js:439-451 | one fresh timeout is armed and the old one withdrawn; the sort is pending; a non-empty focus id or selector replaces the old one, an empty one keeps it |
| Deferred.CancelSpec | app.js:453-461 | nothing is pending, remembered or armed, so a later flush does not sort |
| Deferred.FlushSpec | app.js:463-489 | nothing is left pending, remembered or armed; with nothing pending the state is unchanged |
| Deferred.FireIsFlush | app.js:443 | only the stored timeout can fire, it always finds a sort pending, and its firing is a plain flush |
| Deferred.SchedulesThenFlush | app.js:439-489 | after any number of presses exactly one timeout is armed and a sort is pending, with the last non-empty focus id and selector; the flush after them sorts, and leaves nothing that could sort again |
| Sheet.WithStartFrame | app.js:539-565 | writing a start changes only that entry's start; an invalid start is stored as given; a valid one stays valid |
| Sheet.WithStartKept | app.js:549-553 | a valid start that no other entry has is kept exactly as written |
| Sheet.WithStartMoved | app.js:549-561 | a valid start that another entry has moves 1 to 96 quarter hours in the preferred direction, modulo a day, and is written canonically |
| Sheet.WithStartFree | app.js:539-565 | with fewer than 96 other valid starts, no other entry shares the entry's new start |
| Sheet.WithStartKeepsDistinct | app.js:539-565 | writing and resolving a start keeps ids and starts distinct, under the same bound |
| Sheet.SortKeepsDistinct | app.js:568-584 | sorting keeps ids and starts distinct |
| Sheet.AddedSpec | app.js:401-402 | the old entries stay in place and the new entry is appended with at most its start moved; an invalid start is kept as is |
| Sheet.AddedKeepsFreeStart | app.js:401-402 | the new entry never collides with itself, so a start no old entry has is kept |
| Sheet.AddedKeepsDistinct | app.js:401-402 | a new id keeps ids and starts distinct, while fewer than 96 old entries have a valid start |
| Sheet.EmptyEntryKeepsDistinct | app.js:412-425 | the empty entry has no valid start, so distinct starts stay distinct, and a new id keeps ids distinct |
| Sheet.RemovedSpec | app.js:426-435 | an absent id changes nothing; with distinct ids, the entry is cut out of its position, no entry with that id is left, and starts stay distinct |
| Sheet.StartChangedMoves | app.js:318-333 | a typed start that collides moves 1 to 96 quarter hours: backwards when it is earlier than the previous valid start, forwards otherwise |
| Sheet.PressedStart | app.js:527-530 | after a press the start is canonical: the pressed minute when it is free, otherwise moved 1 to 96 quarter hours further in the press direction |
| Sheet.ProjectAddedSpec | app.js:61-68 | the new list holds the old names and the new one, sorted ascending, and strictly so when the old names had no repeats |
| Sheet.Timesheet.constructor | app.js:185-199 | the initial state: no entries, nothing focused, no rounding records, no resort pending or armed |
| Sheet.Timesheet.SortEntriesByStartInPlace | app.js:568-584 | the entries become their start-order sort, which keeps ids and starts distinct; nothing else changes |
| Sheet.Timesheet.EnsureUniqueStart | app.js:539-565 | the resolved start is stored on the entry; `changed` reports whether it moved; nothing else changes |
| Sheet.Timesheet.WriteStart | app.js:527-529 | the assignment and resolve give the WithStart list, keeping ids and starts distinct under the bound; nothing else changes |
| Sheet.Timesheet.ScheduleDeferredSort | app.js:439-451 | the resort fields become Schedule of the old ones and stay consistent; the entries are not touched |
| Sheet.Timesheet.CancelDeferredSort | app.js:453-461 | the resort fields become Cancel of the old ones; the entries are not touched |
| Sheet.Timesheet.FlushDeferredSort | app.js:463-489 | sorts exactly once when a sort was pending and not at all otherwise; returns the remembered focus and selector; leaves the resort fields flushed |
| Sheet.Timesheet.TimerFires | app.js:443 | the firing timeout sorts the entries exactly once and hands back the remembered focus and selector |
| Sheet.Timesheet.AddEntry | app.js:389-410 | the new entry is appended with its start resolved forwards; the list is sorted once and the entry focused; a fresh id keeps ids and starts distinct under the bound |
| Sheet.Timesheet.PushEntry | app.js:401-402 | push and resolve give the Added list, keeping ids and starts distinct under the bound |
| Sheet.Timesheet.AddEmptyEntry | app.js:412-425 | one empty entry is appended and focused, with no resolving and no sort |
| Sheet.Timesheet.RemoveEntry | app.js:426-435 | the entries become the Removed list; nothing else changes |
| Sheet.Timesheet.AdjustStart | app.js:496-535 | an unknown id changes nothing. Otherwise the press's minute is written and resolved in its direction, the stage record is saved, and a resort is scheduled for the pressed button. There is no sort yet, and distinctness is kept under the bound |
| Sheet.Timesheet.ChangeStart | app.js:318-342 | a value failing the shape test changes nothing and shows the old start. Otherwise the value is resolved in the chosen direction and both rounding records are dropped. The resort is cancelled, the list is sorted once, and the resolved start is shown |
| Sheet.Timesheet.AcceptStart | app.js:321-341 | the accepted value is stored and resolved, the rounding records dropped, the resort cancelled and the list sorted once |
| Sheet.Timesheet.StampStart | app.js:297-313 | an entry without a start gets the current time, resolved forwards; its rounding records are dropped and the list sorted once. An entry with a start is left as it is |
| Sheet.Timesheet.EnsureProject | app.js:61-68 | an empty or already known name changes nothing; a new one is added and the list re-sorted |
| Sheet.Timesheet.ChangeDay | app.js:890-902 | a pending resort runs first. The picked day is shown (today when empty) with its stored entries sorted. An empty day gets one focused empty entry; otherwise nothing is focused |
| Sheet.Timesheet.ShowDay | app.js:892-901 | the day's stored entries are shown sorted, and an empty day gets one focused empty entry |

## Left out

- Rendering, the DOM, focus and scrolling are not modelled; the model keeps only the state the handlers change.
- `localStorage` and JSON (`loadDay`, `saveDay`, `loadMeta`, `persist`): the stored day enters `ChangeDay` as a parameter, and saving is not modelled.
- Real timers: `setTimeout` and `clearTimeout` become abstract handles. The 400 ms delay and the interleaving of other events are not modelled.
- `Date`, `Math.random`, `nowHHMM`, `todayISO` and `makeId` are not modelled; their results are parameters.
- The ordering of project names: `localeCompare` becomes character-code order.
- `toLowerCase` is modelled on ASCII letters only.
- trim removes the JavaScript white-space set; no Unicode normalisation is modelled.
- Summary.FrequentComments: the `limitDays` parameter is never read by the code, so it is not modelled.
- `Math.round` in minutesToHHMM is the identity on the whole numbers this model uses; fractional minutes are not modelled.
- handleGlobalKeys is not modelled. It only maps keys onto operations the model has: `addEntry`, `shiftDay`, and `adjustStart` through adjustMinutes, or onto focus moves.
- adjustMinutes is not modelled separately: it forwards to `adjustStart`, which `Sheet.Timesheet.AdjustStart` models.
- shiftDay's date arithmetic on `Date` is not modelled. What follows it is the same as the date picker's handler, which `Sheet.Timesheet.ShowDay` models.
- addPause is `addEntry` with the prefill project `Pause` and comment `Pause`. That is `Sheet.Timesheet.AddEntry` with that `Prefill`, so it has no member of its own.
- The project and comment input handlers, their suggestion lists and the settings dialog are not modelled.
- The legacy `state.data.projects` list is not modelled.
- exportFullYearCSV, which reads every stored day of a year, is not modelled.
- The Blob download and the clipboard copy of exportCSV are not modelled; `Export.ExportCsv` stops at the text.
- Sheet.Timesheet.ChangeStart requires the entry to be in the list. The handler's closure can also hold an entry that was removed meanwhile; that case is not modelled.
- Sheet.NewEntry treats a `null` `prefill.start` like a missing one; the code would store `null`.
- Entries are values: `indexOf` on an entry object becomes its position in the sorted copy, and two entries being the same object is not modelled.
- The distinct-start lemmas assume that ids are distinct, which `makeId` makes likely but does not guarantee, and that fewer than 96 other entries have a valid start; beyond that the search can give up on a taken minute.
- Where the written description and the code disagree (an invalid time parsing to 0 rather than to a separate failure value), the model follows the code.

## Findings

| source | as written | input that shows it | evidently intended | confidence | as-written member | corrected member |
|---|---|---|---|---|---|---|
| app.js:645-647 | the pattern `[&<>"]+` matches a whole run of special characters, and the run is looked up in a table keyed by single characters, so a run of two or more becomes the text `undefined` | `a<>b` is escaped to `aundefinedb` | each special character replaced by its own entity, `a&lt;&gt;b` | not executed | Text.EscapeHtmlAdjacentSpecials | Text.EscapeHtmlRoundTrip |
