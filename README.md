# App Store Connect Analytics: Conversion + Sessions/Unit, in Dafny

This project models the userscript
`app-store-connect-analytics-conversion-sessions-unit.js` and proves
properties of the model. The script finds the Apps table on App Store
Connect's analytics page and appends two derived columns:

- "Conv (Imp→Dl)": units per impression, shown as a percentage;
- "Sessions/Unit": sessions per unit.

Both new headers are sortable, and the script re-applies itself when the
page re-renders, at most once per animation frame.

The model is organised along the script's own parts:

- `options.dfy`: `Option`. "Not available" (`NaN` in the script) is `None`.
- `text.dfy`: the JavaScript string operations the script relies on:
  - white space as `\s` and `trim()` define it;
  - `trim`, `startsWith` and `replace(/c/g, "")`;
  - ASCII `toUpperCase`/`toLowerCase`.
- `metric.dfy`, `metric_facts.dfy`: `parseMetricFromTitleOrText` and
  `getPrimaryMetricFromCell`, together with what they mean and the worked
  examples ("451", "8.51K", "$53", "1,234", "-", "–", and title "8508").
- `derived.dfy`: `computeDerived`, `fmtPercent`, `fmtNumber`, and the
  number `rowSortValue` reads back from a rendered cell.
- `headers.dfy`: the header row:
  - table detection (`findAppsTable`);
  - `headerIndexMap`;
  - `ensureHeader` and `cloneHeaderLike`;
  - `wireSortHeaders`' binding;
  - `onToggle`'s next direction;
  - `refreshSortHeaderUi`/`setHeaderLabel`.
- `rows.dfy`: the body rows: which rows `ensureRows` annotates, the two
  cells it inserts, and `rowSortValue`.
- `sorting.dfy`: `applySort`'s comparator (a strict total order);
  `StableOrder`, an insertion sort that stands in for `Array.prototype.sort`;
  the proof that the sorted order is unique; and the reordering of the rows.
- `table.dfy`: one table as a value (`TableState`) and what `apply` and
  `applySort` do to it. It also proves that a second `apply` changes
  nothing.
- `apps_table.dfy`: class `AppsTable`, the table the script edits in place.
  - Its fields are the header cells, the body rows and the dataset sort
    state.
  - Its methods are `headerIndexMap`, `setSortState`, `ensureHeader`,
    `ensureRows`, `wireSortHeaders`, `refreshSortHeaderUi`, `applySort`,
    `onToggle`, the click and key handlers, and `apply`.
  - Each method is proved to produce the outcome that `table.dfy` defines.
  - The loops of `headerIndexMap` and `ensureRows` are module-level
    methods over sequences.
- `scheduler.dfy`: the flags `applyScheduled` and `applyRunning`, and the
  observer's connection, as a state machine. It is driven by mutation,
  animation-frame, run-start and run-end events.
- `page.dfy`: class `Script`, holding the page tables and the flags, with
  the methods `findAppsTable`, `apply`, `runApplyCycle`, `scheduleApply`,
  the observer callback, the frame callback and the top-level start-up.

How detection treats the injected headers. `findAppsTable` (lines 94-108)
matches the labels of every `thead th`, the injected "Sessions/Unit" header
included. That header's label, "sessions/unit", starts with "sessions".
`IsAppsTable` counts every header in the same way.
`Headers.InjectedHeaderCounts` shows a header row that is recognised as the
Apps table only because of the injected header, while its column map still
lacks sessions.

## Model

| member | source | states |
|---|---|---|
| Metric.ParseDecimal | app-store-connect-analytics-conversion-sessions-unit.js:32 | `Number()` of a string of the title pattern, exactly; "not available" for any other string (see `Metric.ParseDecimalAccepts`) |
| Metric.ParseSuffixed | app-store-connect-analytics-conversion-sessions-unit.js:44-52 | the regular-expression match with the K/M/B scaling; its acceptance and values are stated by `Metric.ParseSuffixedAccepts` and `Metric.SuffixedValue` |
| Metric.Clean | app-store-connect-analytics-conversion-sessions-unit.js:41 | removes every `$` and `,`, trims and upper-cases a token |
| Metric.ParseToken | app-store-connect-analytics-conversion-sessions-unit.js:41-52 | a cleaned token: a bare dash is unavailable, otherwise the suffixed reader (see `Metric.TokenMeaning`) |
| Metric.ParseText | app-store-connect-analytics-conversion-sessions-unit.js:34-52 | blank trimmed text is unavailable, otherwise the first token is read (see `Metric.TextMeaning`) |
| Metric.ParseTitleOrText | app-store-connect-analytics-conversion-sessions-unit.js:27-53 | a missing element is unavailable; a decimal title wins; else the text (see `Metric.TitleOrTextMeaning`) |
| Metric.PrimaryMetric | app-store-connect-analytics-conversion-sessions-unit.js:55-67 | the first `p[title]`, else the first link, else the cell (see `Metric.PrimaryMetricOrder`) |
| Metric.IsSuffixedDecimal | app-store-connect-analytics-conversion-sessions-unit.js:44 | the language of `^(-?\d+(\.\d+)?)([KMB])?$`, written independently of the reader |
| Metric.ParseSuffixedAccepts | app-store-connect-analytics-conversion-sessions-unit.js:44-46 | the suffixed reader succeeds exactly on the strings of the pattern, and on an unsuffixed literal agrees with the decimal reader |
| Metric.SuffixedValue | app-store-connect-analytics-conversion-sessions-unit.js:47-52 | a decimal literal followed by K, M or B reads as the literal times 1000, 1000000 or 1000000000 |
| Metric.DashNotSuffixed | app-store-connect-analytics-conversion-sessions-unit.js:42 | neither bare dash matches the pattern |
| Metric.TokenMeaning | app-store-connect-analytics-conversion-sessions-unit.js:41-52 | a token is available exactly when its cleaned form matches the pattern, and then reads by the suffixed reader |
| Metric.TextMeaning | app-store-connect-analytics-conversion-sessions-unit.js:34-52 | text is available exactly when it is not blank and the cleaned first token of its trimmed form matches the pattern; every other text is unavailable |
| Metric.TitleOrTextMeaning | app-store-connect-analytics-conversion-sessions-unit.js:30-52 | an element is available exactly when its trimmed title is a decimal literal or its text is available |
| Metric.ParseDecimalAccepts | app-store-connect-analytics-conversion-sessions-unit.js:32 | the decimal reader succeeds exactly on the strings `^-?\d+(\.\d+)?$` accepts |
| Metric.ParseShow | app-store-connect-analytics-conversion-sessions-unit.js:47 | the decimal digits of a natural number read back as that number |
| Metric.ParseFraction | app-store-connect-analytics-conversion-sessions-unit.js:44-47 | `i.f` with digit strings `i` and `f` reads as `i + f / 10^|f|` |
| Metric.ParseNegative | app-store-connect-analytics-conversion-sessions-unit.js:44-47 | a leading `-` negates the value and accepts exactly what the unsigned literal accepts |
| Metric.TitlePrecedence | app-store-connect-analytics-conversion-sessions-unit.js:31-32 | an exact-decimal trimmed title gives its value whatever the text holds, and is always available |
| Metric.TitleFallsThrough | app-store-connect-analytics-conversion-sessions-unit.js:31-34 | a missing, empty or malformed title falls through to the text |
| Metric.BlankTextUnavailable | app-store-connect-analytics-conversion-sessions-unit.js:34-35 | blank text is not available |
| Metric.FirstTokenOf | app-store-connect-analytics-conversion-sessions-unit.js:39 | the first token of `tok + space + rest` is `tok` |
| Metric.OnlyFirstTokenCounts | app-store-connect-analytics-conversion-sessions-unit.js:37-39 | whatever follows the first white space in the text does not affect the value |
| Metric.CleanToken | app-store-connect-analytics-conversion-sessions-unit.js:41-45 | a clean token (no space, `$`, `,`, lower case or bare dash) reads by the suffixed-number reader alone, and is available exactly when it matches the pattern |
| Metric.PrimaryMetricOrder | app-store-connect-analytics-conversion-sessions-unit.js:55-67 | a missing cell is unavailable; otherwise the `p[title]` decides whatever the link and cell text hold, then the link whatever the cell text holds, then the cell itself |
| MetricFacts.SymbolsIgnored | app-store-connect-analytics-conversion-sessions-unit.js:41-47 | a token that becomes a decimal literal once `$` and `,` are removed reads as that literal |
| MetricFacts.SuffixScales | app-store-connect-analytics-conversion-sessions-unit.js:41-52 | a token that becomes a decimal literal (signed, with or without a fraction) followed by K, M or B in either case once `$` and `,` are removed reads as the literal times 1e3, 1e6 or 1e9 |
| MetricFacts.DigitsRead | app-store-connect-analytics-conversion-sessions-unit.js:39-47 | a token of digits reads as their value |
| MetricFacts.ExamplePlain | app-store-connect-analytics-conversion-sessions-unit.js:38 | "451" reads as 451 |
| MetricFacts.ExampleThousands | app-store-connect-analytics-conversion-sessions-unit.js:38 | "8.51K" reads as 8510 |
| MetricFacts.ExampleCurrency | app-store-connect-analytics-conversion-sessions-unit.js:38-41 | "$53" reads as 53 |
| MetricFacts.ExampleSeparator | app-store-connect-analytics-conversion-sessions-unit.js:41 | "1,234" reads as 1234 |
| MetricFacts.ExampleDash | app-store-connect-analytics-conversion-sessions-unit.js:41-42 | "-" and "–" are not available |
| MetricFacts.ExampleExactTitle | app-store-connect-analytics-conversion-sessions-unit.js:30-32 | title "8508" with text "8.51K" reads as exactly 8508 |
| Derived.Ratio | app-store-connect-analytics-conversion-sessions-unit.js:83-90 | the quotient exists iff both values are available and the denominator is nonzero, and then times the denominator gives the numerator |
| Derived.ComputeDerived | app-store-connect-analytics-conversion-sessions-unit.js:82-92 | conv is defined iff units and impressions are available and impressions are nonzero, and is then units/impressions; likewise spu = sessions/units |
| Derived.Decimals | app-store-connect-analytics-conversion-sessions-unit.js:76-79 | 4 decimals iff the magnitude is below 0.1, 2 iff it is at least 1, else 3 |
| Derived.FmtPercent | app-store-connect-analytics-conversion-sessions-unit.js:69-72 | the dash iff not available; otherwise 100·x with 2 decimals and a `%` |
| Derived.FmtNumber | app-store-connect-analytics-conversion-sessions-unit.js:74-80 | the dash iff not available; otherwise x with the tiered number of decimals, no `%` |
| Derived.PercentReadsBack | app-store-connect-analytics-conversion-sessions-unit.js:192-196 | reading a rendered conversion back under "conv" gives the conversion |
| Derived.NumberReadsBack | app-store-connect-analytics-conversion-sessions-unit.js:192-199 | reading rendered sessions per unit back under "spu" gives the value |
| Derived.ReadBack | app-store-connect-analytics-conversion-sessions-unit.js:192-199 | the number read back from a rendered cell: the dash unavailable; under "conv" the value over 100; under another key the value, or unavailable when it carries `%` (see `Derived.PercentReadsBack`) |
| Derived.PercentNotANumber | app-store-connect-analytics-conversion-sessions-unit.js:198-199 | a percentage read under a key other than "conv" is not a number |
| Derived.DecimalsMonotone | app-store-connect-analytics-conversion-sessions-unit.js:76-79 | a smaller magnitude never gets fewer decimals |
| Derived.DecimalsSymmetric | app-store-connect-analytics-conversion-sessions-unit.js:76 | the tier depends on the magnitude only |
| Derived.ExampleConversion | app-store-connect-analytics-conversion-sessions-unit.js:82-92 | 50 units from 1000 impressions and 75 sessions give 5% and 1.5; zero impressions give no conversion |
| Headers.Classify | app-store-connect-analytics-conversion-sessions-unit.js:118-121 | a header names at most one column: impressions when its label starts with "impressions", else units, else sessions, in that priority |
| Headers.IsAppsTable | app-store-connect-analytics-conversion-sessions-unit.js:97-103 | some header starts with each of "impressions", "units" and "sessions", injected headers included (see `Headers.InjectedHeaderCounts`) |
| Headers.IndexMap | app-store-connect-analytics-conversion-sessions-unit.js:110-124 | the column map over the base headers, later headers overwriting earlier ones (see `Headers.IndexMapMeaning`) |
| Headers.BaseHeaders | app-store-connect-analytics-conversion-sessions-unit.js:115-117 | the base headers are unmarked and no more than the headers |
| Headers.MarkedHeadersIgnored | app-store-connect-analytics-conversion-sessions-unit.js:115 | a marked header never joins the base headers, so it never enters the column map |
| Headers.IndexMapMeaning | app-store-connect-analytics-conversion-sessions-unit.js:110-124 | a column is mapped iff some base header names it, and it maps to the last such base header's index |
| Headers.IndexMapSnoc | app-store-connect-analytics-conversion-sessions-unit.js:114-122 | one more base header sets its column to its index among base headers, overwriting an earlier one |
| Headers.AppsTableKept | app-store-connect-analytics-conversion-sessions-unit.js:94-106 | adding headers never makes the Apps table unrecognised |
| Headers.SpuLabelIsSessions | app-store-connect-analytics-conversion-sessions-unit.js:97-98 | the injected "Sessions/Unit" header's label starts with "sessions" |
| Headers.InjectedHeaderCounts | app-store-connect-analytics-conversion-sessions-unit.js:97-102 | detection counts the injected header even though it never enters the column map, so it recognises a table whose map lacks sessions |
| Headers.CloneHeaderLike | app-store-connect-analytics-conversion-sessions-unit.js:134-156 | the clone is marked, a sort header with the given key and caption and `aria-sort` "none"; it keeps the template's `data-tm-sort-bound` attribute and has no listeners |
| Headers.Anchor | app-store-connect-analytics-conversion-sessions-unit.js:274 | the anchor is the header at the units index, or the last one when that index is out of range |
| Headers.InsertHeadersShape | app-store-connect-analytics-conversion-sessions-unit.js:261-277 | the header row is unchanged when it has a marked header or no header; otherwise conv then spu follow the anchor, all else in place |
| Headers.InsertHeadersIdempotent | app-store-connect-analytics-conversion-sessions-unit.js:265 | a second `ensureHeader` changes nothing |
| Headers.InsertHeadersKeepBase | app-store-connect-analytics-conversion-sessions-unit.js:115-117 | inserting the two headers leaves the base headers, and so the column map, unchanged |
| Headers.InsertHeaders | app-store-connect-analytics-conversion-sessions-unit.js:261-277 | the header row after `ensureHeader` (see `Headers.InsertHeadersShape`) |
| Headers.NextDir | app-store-connect-analytics-conversion-sessions-unit.js:245-246 | the next direction is desc iff the key is the current key and the current direction is asc, else asc |
| Headers.ToggleTransitions | app-store-connect-analytics-conversion-sessions-unit.js:241-249 | toggling a key always leaves an active sort: (k, asc) goes to desc, (k, desc) and a new key go to asc, and it alternates |
| Headers.LabelsHaveNoArrow | app-store-connect-analytics-conversion-sessions-unit.js:15-16 | neither base label ends in an arrow |
| Headers.BaseLabel | app-store-connect-analytics-conversion-sessions-unit.js:174 | the conversion label for the key "conv", the sessions-per-unit label for any other |
| Headers.RefreshHeader | app-store-connect-analytics-conversion-sessions-unit.js:172-181 | one sort header relabelled by the sort state; any other header unchanged (see `Headers.RefreshMeaning`) |
| Headers.Refresh | app-store-connect-analytics-conversion-sessions-unit.js:169-182 | every header of the row refreshed in place, the row's length kept |
| Headers.RefreshMeaning | app-store-connect-analytics-conversion-sessions-unit.js:169-182 | a sort header's text is its key's base label (the conversion label for "conv", else the sessions-per-unit label) with " ▲" when active ascending, " ▼" when active descending, bare otherwise; it shows an arrow and `aria-sort` other than "none" exactly when active, "ascending" and "descending" by direction |
| Headers.RefreshOverwrites | app-store-connect-analytics-conversion-sessions-unit.js:169-182 | the refresh depends only on the current sort state |
| Headers.RefreshKeeps | app-store-connect-analytics-conversion-sessions-unit.js:171-181 | the refresh changes only the label and `aria-sort` of sort headers, and no other header |
| Headers.Wire | app-store-connect-analytics-conversion-sessions-unit.js:235-240 | every header goes through `WireHeader`, the row's length kept (see `Headers.WireMeaning`) |
| Headers.WireHeader | app-store-connect-analytics-conversion-sessions-unit.js:238-240 | a sort header without the bound attribute gets it and the listeners; any other header is skipped |
| Headers.WireMeaning | app-store-connect-analytics-conversion-sessions-unit.js:235-259 | afterwards every sort header has the bound attribute; a header has listeners iff it had them or was a sort header without the attribute; nothing else changes |
| Headers.CloneBinding | app-store-connect-analytics-conversion-sessions-unit.js:135-240 | a header cloned from a template carrying the bound attribute is skipped by the binding and never gets listeners; from any other template it gets them |
| Headers.WireIdempotent | app-store-connect-analytics-conversion-sessions-unit.js:238-239 | binding twice is binding once, and binding commutes with the refresh |
| Headers.RefreshWireKeepBase | app-store-connect-analytics-conversion-sessions-unit.js:171-181 | binding and refreshing the sort headers keep the base headers |
| Rows.AnnotateShape | app-store-connect-analytics-conversion-sessions-unit.js:308-331 | a row that needs cells gets exactly conv then spu right after its units cell, every other cell in place, and those are its only derived cells; any other row is unchanged |
| Rows.AnnotateRowsAt | app-store-connect-analytics-conversion-sessions-unit.js:305-333 | every row is annotated on its own, in place |
| Rows.SortValueOfAnnotated | app-store-connect-analytics-conversion-sessions-unit.js:184-200 | an annotated row sorts by its conversion under "conv" and by its sessions per unit under "spu" |
| Rows.SortValueOfPlain | app-store-connect-analytics-conversion-sessions-unit.js:187-190 | a row without derived cells sorts as not available |
| Rows.AnnotatedNeedsNothing | app-store-connect-analytics-conversion-sessions-unit.js:308 | after annotation a row no longer needs cells |
| Rows.AnnotateIdempotent | app-store-connect-analytics-conversion-sessions-unit.js:308 | annotating a row twice is annotating it once |
| Rows.SecondPassCounts | app-store-connect-analytics-conversion-sessions-unit.js:301-335 | a second `ensureRows` reports 0, and a row arriving later is the only one counted |
| Rows.AnnotateSettled | app-store-connect-analytics-conversion-sessions-unit.js:307-308 | rows that need nothing are left as they are |
| Rows.AnnotateRow | app-store-connect-analytics-conversion-sessions-unit.js:308-331 | one row after `ensureRows` (see `Rows.AnnotateShape`) |
| Rows.AnnotateRows | app-store-connect-analytics-conversion-sessions-unit.js:305-333 | every body row annotated, as many rows as before (see `Rows.AnnotateRowsAt`) |
| Rows.CountNeeding | app-store-connect-analytics-conversion-sessions-unit.js:301-335 | the number of rows that need cells, at most the number of rows (see `Rows.SecondPassCounts`) |
| Rows.RowSortValue | app-store-connect-analytics-conversion-sessions-unit.js:184-200 | the first derived cell under "conv", the second under any other key, read back; no such cell is unavailable (see `Rows.SortValueOfAnnotated`) |
| Sorting.CompareAntisymmetric | app-store-connect-analytics-conversion-sessions-unit.js:218-227 | swapping the two rows negates the comparator |
| Sorting.Compare | app-store-connect-analytics-conversion-sessions-unit.js:218-227 | the comparator: unavailable rows after available ones, by index among themselves; equal values by index; else the difference, negated for desc (see `Sorting.Transitive`) |
| Sorting.Irreflexive | app-store-connect-analytics-conversion-sessions-unit.js:218-227 | no row goes before itself |
| Sorting.Asymmetric | app-store-connect-analytics-conversion-sessions-unit.js:218-227 | two rows are never each before the other |
| Sorting.Total | app-store-connect-analytics-conversion-sessions-unit.js:218-227 | of two distinct rows, one goes first |
| Sorting.Transitive | app-store-connect-analytics-conversion-sessions-unit.js:218-227 | the comparator's order is transitive |
| Sorting.SortedMeans | app-store-connect-analytics-conversion-sessions-unit.js:218-227 | in a sorted order unavailable rows come after all available ones; available values follow the direction; equal values and pairs of unavailable rows keep their original order |
| Sorting.InsertionPoint | app-store-connect-analytics-conversion-sessions-unit.js:218-227 | the insertion position is after every row that goes before the new one and before every row that goes after it |
| Sorting.StableOrder | app-store-connect-analytics-conversion-sessions-unit.js:218-227 | the result lists every row position once, in the comparator's order |
| Sorting.SortedUnique | app-store-connect-analytics-conversion-sessions-unit.js:218-227 | two sorted orders of the same positions are equal, so any sorting algorithm gives the same rows |
| Sorting.ReorderPermutes | app-store-connect-analytics-conversion-sessions-unit.js:229-231 | moving the rows in a permutation's order keeps every row exactly once |
| Table.Toggled | app-store-connect-analytics-conversion-sessions-unit.js:241-247 | toggling key k stores k, with desc iff the state was (k, asc); rows and headers are untouched; a nonempty key gives an active sort |
| Table.SortOrderUnique | app-store-connect-analytics-conversion-sessions-unit.js:212-227 | the comparator fixes one order of the body rows |
| Table.SortOutcomeUnique | app-store-connect-analytics-conversion-sessions-unit.js:202-233 | `applySort` has exactly one outcome |
| Table.SortOutcome | app-store-connect-analytics-conversion-sessions-unit.js:202-233 | what `applySort` may leave: nothing without a body, only the refresh without an active sort, else the rows in a comparator order then the refresh (see `Table.SortOutcomeUnique`) |
| Table.SortKeepsRows | app-store-connect-analytics-conversion-sessions-unit.js:229-231 | the sorted body holds the old rows, each exactly once |
| Table.HeadAfterApply | app-store-connect-analytics-conversion-sessions-unit.js:347-351 | after `apply`, the header row keeps its base headers and is a fixed point of `ensureHeader`, the binding and the refresh |
| Table.ApplyIdempotent | app-store-connect-analytics-conversion-sessions-unit.js:337-352 | running `apply` again on the table it produced changes nothing |
| Table.ApplyOutcome | app-store-connect-analytics-conversion-sessions-unit.js:337-352 | what `apply` leaves: nothing without a units column; else headers, rows and binding ensured, then a sort when active and a row was added, else a refresh (see `Table.ApplyIdempotent`) |
| AppsTables.EnsureRow | app-store-connect-analytics-conversion-sessions-unit.js:308-332 | a row changes iff it has no derived cell and all three columns are mapped with cells present; the changed row carries conv and spu after the units cell |
| AppsTables.IndexHeaders | app-store-connect-analytics-conversion-sessions-unit.js:110-124 | the loop collects exactly the unmarked headers and builds the column map over them |
| AppsTables.EnsureEachRow | app-store-connect-analytics-conversion-sessions-unit.js:301-335 | every row is annotated and the count is the number of rows that needed cells |
| AppsTables.AppsTable.constructor | app-store-connect-analytics-conversion-sessions-unit.js:158-161 | a new table has its headers and rows and no sort state |
| AppsTables.AppsTable.HeaderIndexMap | app-store-connect-analytics-conversion-sessions-unit.js:110-124 | returns the base headers of the header row and the column map over them |
| AppsTables.AppsTable.SetSortState | app-store-connect-analytics-conversion-sessions-unit.js:164-167 | stores key and direction, nothing else changes |
| AppsTables.AppsTable.EnsureHeader | app-store-connect-analytics-conversion-sessions-unit.js:261-277 | the header row becomes the row with conv and spu inserted after the anchor, once |
| AppsTables.AppsTable.EnsureRows | app-store-connect-analytics-conversion-sessions-unit.js:301-335 | every body row is annotated, and the result counts the rows that were |
| AppsTables.AppsTable.WireSortHeaders | app-store-connect-analytics-conversion-sessions-unit.js:235-259 | every sort header without the bound attribute gets it and its listeners, nothing else changes |
| AppsTables.AppsTable.RefreshSortHeaderUi | app-store-connect-analytics-conversion-sessions-unit.js:169-182 | the sort headers are relabelled after the stored sort state |
| AppsTables.AppsTable.ApplySort | app-store-connect-analytics-conversion-sessions-unit.js:202-233 | no body: nothing; no active sort: only the refresh; otherwise the rows in the comparator's order, then the refresh |
| AppsTables.AppsTable.OnToggle | app-store-connect-analytics-conversion-sessions-unit.js:241-249 | a missing or empty key changes nothing; otherwise the toggled state is stored and sorted |
| AppsTables.AppsTable.Click | app-store-connect-analytics-conversion-sessions-unit.js:251 | a click on a sort header with listeners toggles its key; on any other header nothing happens |
| AppsTables.AppsTable.KeyDown | app-store-connect-analytics-conversion-sessions-unit.js:252-257 | Enter or space on a sort header with listeners toggles; any other key does nothing |
| AppsTables.AppsTable.Apply | app-store-connect-analytics-conversion-sessions-unit.js:337-352 | no units column: nothing; otherwise header, rows and binding ensured, then a re-sort when a sort is active and a row was added, else a refresh |
| Scheduling.BeginRun | app-store-connect-analytics-conversion-sessions-unit.js:359-361 | a run while running is ignored; otherwise the run flag is set, the run counted and an existing observer disconnected |
| Scheduling.EndRun | app-store-connect-analytics-conversion-sessions-unit.js:364-367 | the finally block clears the run flag and reconnects an existing observer |
| Scheduling.Schedule | app-store-connect-analytics-conversion-sessions-unit.js:370-373 | after `scheduleApply` a frame is requested, and a new request is made only when none was |
| Scheduling.Cycle | app-store-connect-analytics-conversion-sessions-unit.js:358-368 | the flags after a whole `runApplyCycle` (see `Scheduling.CycleRestores`) |
| Scheduling.Observed | app-store-connect-analytics-conversion-sessions-unit.js:382-385 | the observer callback: nothing while running, else `scheduleApply` (see `Scheduling.MutationWhileRunning`) |
| Scheduling.Consume | app-store-connect-analytics-conversion-sessions-unit.js:373-374 | the frame callback's first step: the request used up and `applyScheduled` cleared (see `Scheduling.FrameCallbackSteps`) |
| Scheduling.Step | app-store-connect-analytics-conversion-sessions-unit.js:358-385 | the effect of one mutation, frame, run start, run end or observer install (see `Scheduling.StepKeepsInv`) |
| Scheduling.InitialInv | app-store-connect-analytics-conversion-sessions-unit.js:354-356 | the start state, with nothing scheduled, running or observed, satisfies the invariant |
| Scheduling.StepKeepsInv | app-store-connect-analytics-conversion-sessions-unit.js:358-386 | every event keeps the invariant: at most one pending frame, exactly when `applyScheduled` is set, and no connected observer during a run |
| Scheduling.StepsKeepInv | app-store-connect-analytics-conversion-sessions-unit.js:370-377 | in any sequence of events there is never more than one pending frame callback |
| Scheduling.Boot | app-store-connect-analytics-conversion-sessions-unit.js:379-386 | start-up runs once, then leaves the observer connected and nothing scheduled |
| Scheduling.MutationWhileRunning | app-store-connect-analytics-conversion-sessions-unit.js:382-385 | a mutation during a run is dropped |
| Scheduling.StartWhileRunning | app-store-connect-analytics-conversion-sessions-unit.js:359 | a run started during a run does nothing |
| Scheduling.CycleRestores | app-store-connect-analytics-conversion-sessions-unit.js:358-368 | a run always ends with the run flag clear and an existing observer reconnected, nothing else changed but the run count |
| Scheduling.BurstSchedulesOnce | app-store-connect-analytics-conversion-sessions-unit.js:370-385 | any burst of mutations from an idle state requests exactly one frame |
| Scheduling.Coalesce | app-store-connect-analytics-conversion-sessions-unit.js:370-385 | a burst of mutations yields exactly one run, then the idle state again |
| Scheduling.FrameCallbackSteps | app-store-connect-analytics-conversion-sessions-unit.js:373-376 | the frame callback is the frame event followed by the end of its run |
| Scheduling.FrameWhileRunning | app-store-connect-analytics-conversion-sessions-unit.js:373-376 | a frame arriving during a run uses up its request without a second run |
| Page.FirstAppsTableMeaning | app-store-connect-analytics-conversion-sessions-unit.js:94-108 | the chosen table is an Apps table and no earlier table is one; with none chosen, no table is one |
| Page.FirstAppsTable | app-store-connect-analytics-conversion-sessions-unit.js:94-108 | the index of the table `findAppsTable` picks (see `Page.FirstAppsTableMeaning`) |
| Page.FindFirst | app-store-connect-analytics-conversion-sessions-unit.js:96-107 | the loop returns the first Apps table |
| Page.Script.constructor | app-store-connect-analytics-conversion-sessions-unit.js:354-356 | the script starts with the initial flags |
| Page.Script.FindAppsTable | app-store-connect-analytics-conversion-sessions-unit.js:94-108 | returns the first table recognised as the Apps table |
| Page.Script.Apply | app-store-connect-analytics-conversion-sessions-unit.js:337-340 | `apply` acts on the first Apps table only, and without one changes nothing |
| Page.Script.RunApplyCycle | app-store-connect-analytics-conversion-sessions-unit.js:358-368 | ignored while running, otherwise one `apply`, with the flags restored by the finally block |
| Page.Script.ScheduleApply | app-store-connect-analytics-conversion-sessions-unit.js:370-377 | the flags follow `Schedule` |
| Page.Script.ObserverCallback | app-store-connect-analytics-conversion-sessions-unit.js:382-385 | nothing while running, else a request |
| Page.Script.FrameCallback | app-store-connect-analytics-conversion-sessions-unit.js:373-376 | the request is consumed and clears the flag, then one guarded run |
| Page.Script.Boot | app-store-connect-analytics-conversion-sessions-unit.js:379-386 | one run of `apply`, then the observer created and connected |

## Left out

- The repository's other three userscripts (`x-clean-feed.js`, `youtube-clean-feed.js`, `linkedin-clean-feed.js`) are not part of this model. They inject CSS and hide elements. Their one piece of logic is the same animation-frame coalescing flag that `scheduler.dfy` models.
- Browser APIs are modelled as events the caller supplies.
  - The model supplies `MutationObserver`, `requestAnimationFrame` and the event listeners as explicit method calls and `Event`s.
  - It does not model timing or which frame runs when.
  - `pending` counts requested frame callbacks. `Page.Script.FrameCallback` requires one to be pending, as the browser only calls it then.
- DOM styling and cloning are not modelled.
  - This covers inline styles, SVG removal, `role`, `tabindex`, `cursor` and the note-style `p` of `makeValueTdLike`.
  - It also covers the exact `title` texts of the derived cells (lines 324-325).
  - A header is modelled by its text, markers, sort key, `aria-sort`, its `data-tm-sort-bound` attribute and whether its click and key listeners are attached. A cell is a page cell or a derived cell with what it shows.
- `Derived.FmtPercent`, `Derived.FmtNumber`: `toFixed` rounding is kept abstract.
  - A rendered value records the unrounded number and the decimal count.
  - So `rowSortValue` reads back the exact ratio rather than the rounded text.
- IEEE-754 arithmetic is replaced by exact reals, and NaN is "not available". The model has no infinities. A digit string so long that the script's `Number()` gives Infinity (and so "–" downstream) reads in the model as a finite number.
- `Text.Upper`, `Text.Lower`: case mapping covers ASCII letters only.
- Header rows.
  - The header is a single `thead tr`. The script's `thead th` selectors would also see the cells of further header rows.
  - `setHeaderLabel`'s label `div` is modelled as the header's whole text.
- `Page.Script`: the list of tables is fixed, because nothing in the script adds or removes tables.
  - `Page.Script.Apply` and callers require the tables to be distinct objects, as DOM nodes are.
- `Table.ApplyIdempotent` assumes the page's own headers never carry the script's sort-header marker.
- `Array.prototype.sort`'s algorithm is replaced by an insertion sort. `Sorting.SortedUnique` shows that every correct sort gives the same order.
- The `preventDefault` call of the key handler has no effect in the model.
