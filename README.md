# AtherStats ride dashboard — a Dafny model

AtherStats is a browser dashboard for Ather electric-scooter ride logs. It fetches a Google Sheet published as CSV, turns each row into a ride record, and then shows the rides in several ways:

- stat cards, filtered by month and by a "long rides" switch;
- a monthly performance chart whose bars filter the dashboard when clicked;
- a year-long activity calendar;
- mode charts;
- a summary page of daily, weekly and monthly periods with trends and drill-down charts;
- a map of each ride's route, coloured by speed.

This project models that core in Dafny and proves properties of the model:

- `normalizer.dfy` (module `Normalizer`): the loader's row transform, the empty-URL shortcut and the HTML-page guard.
- `rollup.dfy` (module `Rollup`), `dashboard.dfy` (module `Dashboard`) and `calendar.dfy` (module `Calendar`): the dashboard.
  - The monthly rollup, the day activity buckets and the year list that `processData` builds.
  - The three-way ride filter and the totals effect.
  - The month options and the mode statistics.
  - The month toggle of the chart.
  - The calendar grid with its month labels.
- `summary.dfy` (module `Summary`): the summary page.
  - The daily, weekly (ISO week) and monthly periods.
  - Their sort orders.
  - `getTrend` and the drill-down chart of a period.
- `monthly_chart.dfy` (module `MonthlyChart`): the monthly chart's header metrics, click handling, filter banner and month-over-month badges.
- `ride_map.dfy` (module `RideMap`): the ride map.
  - Route decoding with its start-to-end fallback.
  - The centre and the speed colours.
  - The speed-coloured segments and the legend.
  - What the map shows.
- Supporting modules:
  - `js_value.dfy` (module `JsValue`): JavaScript values, meaning truthiness, `Number`, `|| 0`, NaN, and string helpers.
  - `civil_date.dfy` (module `CivilDate`): Gregorian calendar arithmetic and ISO weeks.
  - `collections.dfy` (module `Collections`): sums, filters, grouping by key in order of first encounter, and a stable sort.

Numbers are exact reals. `JsNum` is `NaN | Fin(v)`, used wherever the source can produce NaN; for example, a truthy distance cell that is not numeric gives NaN. The host environment is a parameter (`JsValue.Host`). It supplies:

- `Number` of a non-blank string;
- `JSON.parse` of the speed column, taken to throw or to give an array of numbers (see "## Left out");
- `new Date(…)` as a UTC day number;
- the current year.

A `toFixed(d)` text that the source reads back as a number (`parseFloat`, `Number`, or a comparison) is `JsValue.Round0`, `Round1` or `Round2`: the nearest multiple of a tenth to the power d, a half going away from zero. So the stored ride fields, the month entries, the mode totals, the period cards and the drill-down bars hold rounded values. The long-ride filter, the calendar levels, the trends and the badges compare those rounded values.

The loops the source runs by mutation are Dafny methods. Each is proved equal to a specification function, and the properties are proved about those functions:

- `reduce`/`forEach` into an object, then `Object.values`;
- the calendar's day loop;
- the segment loop of the map;
- the totals and mode accumulators.

When a fetched body parses to no rows and is not an HTML page, `src/utils/dataFetcher.js` resolves to an empty list rather than raising an error (`Normalizer.LoadRidesOutcomes`). The dashboard then reports "No rides found".

## Model

| member | source | states |
|---|---|---|
| JsValue.Get | src/utils/dataFetcher.js:56-99 | A column read gives the row's cell, or nothing (`undefined`) exactly when the row lacks the column. |
| JsValue.ToNumber | src/utils/dataFetcher.js:59-92 | `Number(v)`: `undefined` is NaN, null and the empty string are 0, and a number cell is the number itself. |
| JsValue.OrZero | src/utils/dataFetcher.js:61-66 | `n \|\| 0` is 0 exactly for NaN and zero, and the number itself otherwise. |
| JsValue.NumberOrZeroDefaults | src/utils/dataFetcher.js:61-92 | Every `Number(x) \|\| 0` field is 0 for a missing, null, empty, non-numeric or zero cell and the number itself when the cell holds one. |
| JsValue.Add | src/App.jsx:419-421 | Adding is NaN exactly when either operand is, and otherwise the sum of the values. |
| JsValue.Div | src/utils/dataFetcher.js:60-63 | Dividing by a nonzero constant keeps NaN, and otherwise gives the value that multiplied back by the constant is the dividend. |
| JsValue.NatText | src/utils/dataFetcher.js:58 | The decimal text of a natural number is a non-empty string of digits (read back by `JsValue.ParseIntNatText`). |
| JsValue.PadStart | src/utils/dataFetcher.js:58 | `padStart` keeps the text and adds fill characters in front up to the length; the text is unchanged when it is already that long. |
| JsValue.Split | src/utils/dataFetcher.js:58 | `split` gives at least one piece, no piece holds the separator, and a text without the separator is its own single piece. |
| JsValue.SplitTwo | src/App.jsx:605-607 | Splitting a key made of two separator-free parts gives exactly those two parts. |
| JsValue.SplitJoin | src/utils/dataFetcher.js:58 | Joining the pieces of `split` with the separator gives the original text back. |
| JsValue.Trim | src/utils/dataFetcher.js:41 | `trim` never lengthens the text and leaves no white space at either end. |
| JsValue.TrimStartBlank | src/utils/dataFetcher.js:41 | White space in front of a text does not change what `trimStart` leaves. |
| JsValue.LowerAscii | src/utils/dataFetcher.js:41 | Lower-casing maps A-Z to a-z and keeps every other character, so the length is kept. |
| JsValue.LowerTrim | src/utils/dataFetcher.js:41 | `trim` and lower-casing give the same text in either order. |
| JsValue.LowerTwice | src/utils/dataFetcher.js:41 | Lower-casing twice is lower-casing once. |
| JsValue.TextLessTransitive | src/App.jsx:603 | The text order used for `localeCompare` is transitive (with `TextLessAsymmetric` and `TextLessTotal`, a strict total order). |
| JsValue.ParseIntNatText | src/App.jsx:609 | `parseInt` reads back the natural number whose text `String` wrote. |
| JsValue.Nearest | src/utils/dataFetcher.js:60 | The whole number `toFixed` writes for a scaled value is within half a unit of it, a half going away from zero, with the value's sign; it is a whole number (`JsValue.NearestWhole`). |
| JsValue.NearestWhole | src/utils/dataFetcher.js:60 | `toFixed` writes a whole number of units of its last decimal. |
| JsValue.Round2 | src/utils/dataFetcher.js:60 | `parseFloat(x.toFixed(2))` is within 0.005 of x (`Round1` within 0.05, `Round0` within 0.5). |
| JsValue.Kilo | src/App.jsx:430 | `parseFloat((x / 1000).toFixed(2))`, taken back to units, is within 5 of x. |
| JsValue.RoundTwice | src/App.jsx:428 | Rounding a value already rounded to the same number of decimals keeps it. |
| JsValue.RoundMonotone | src/App.jsx:646-649 | Rounding keeps order, so sorting rounded totals agrees with the order of the totals. |
| JsValue.RoundedZero | src/App.jsx:648-649 | A value reads back as 0 exactly when it is less than half a unit of the last decimal from 0, and as positive exactly from half a unit up. |
| JsValue.Round2AtLeast | src/App.jsx:519 | For k > 0, a value rounded to two decimals reaches k / 100 exactly when the value is at least k / 100 less half a hundredth. |
| CivilDate.DayOfYear | src/App.jsx:44-82 | The position of a valid date within its year lies between 0 and the year's length. |
| CivilDate.Weekday | src/App.jsx:48 | `getUTCDay` is between 0 (Sunday) and 6. |
| CivilDate.NextMonthStart | src/App.jsx:66-71 | Each month starts its length in days after the previous one, and no month is shorter than 28 days. |
| CivilDate.YearOfDay | src/components/SummaryPage.jsx:14 | The year found for a day number is the one whose January 1 is at or before it and whose successor's is after it. |
| CivilDate.YearOfDayUnique | src/components/SummaryPage.jsx:14 | Every day number lies in exactly one year. |
| CivilDate.YearOfDate | src/components/SummaryPage.jsx:14 | The year of a valid date's day number is the date's year. |
| CivilDate.IsoWeekday | src/components/SummaryPage.jsx:13 | `getDay() \|\| 7` numbers Monday to Sunday as 1 to 7. |
| CivilDate.IsoWeekOf | src/components/SummaryPage.jsx:10-17 | `getWeekNumber` gives a week between 1 and 53 of the year holding the week's Thursday. |
| CivilDate.WeekOneHoldsFirstThursday | src/components/SummaryPage.jsx:13-15 | Week 1 is exactly the week whose Thursday is among the first seven days of its year. |
| CivilDate.SameWeek | src/components/SummaryPage.jsx:13 | All days from a day up to the Sunday of its week have the same ISO week. |
| CivilDate.NextWeek | src/components/SummaryPage.jsx:10-17 | Seven days later is the next week number of the same year, or week 1 of the next year. |
| CivilDate.IsoWeekOfNewYear2024 | src/components/SummaryPage.jsx:10-17 | 2024-01-01, a Monday, is in week "2024-W01". |
| CivilDate.IsoWeekOfNewYearsEve2023 | src/components/SummaryPage.jsx:10-17 | 2023-12-31, a Sunday, is in week "2023-W52". |
| Collections.JsSumValue | src/App.jsx:527 | A JavaScript sum is NaN exactly when some term is, and otherwise it is the sum of the terms. |
| Collections.SumConstant | src/App.jsx:422 | Summing the same amount per element gives that amount times the count. |
| Collections.SumOverGroupsWithin | src/App.jsx:426-431 | Per-group results each within a bound of their group's sum add up to within the summed bounds of the total. |
| Collections.GroupByPartition | src/App.jsx:409-424 | Grouping by key splits the input into groups with distinct keys, each holding exactly the elements with its key, in order. |
| Collections.GroupByFirstEncounter | src/App.jsx:426 | Groups come in the order in which their keys first occur. |
| Collections.GroupInto | src/components/SummaryPage.jsx:24-46 | The keyed `forEach` that fills an object, followed by `Object.values`, gives the accumulated value of each group in first-encounter order. |
| Collections.Dedup | src/App.jsx:442 | `Array.from(new Set(xs))` holds every value once, and only the values of the input. |
| Collections.SortByPerm | src/components/SummaryPage.jsx:55 | Sorting returns a permutation of its input. |
| Collections.SortBySorted | src/components/SummaryPage.jsx:90 | Under a strict weak order the sort's result is sorted. |
| Normalizer.OrCell | src/utils/dataFetcher.js:56-98 | `v \|\| fallback` gives the cell when it is truthy and the fallback otherwise. |
| Normalizer.NormalizeMonth | src/utils/dataFetcher.js:58 | A month text that does not throw never holds a dash (the cases are in `Normalizer.NormalizeMonthCases`). |
| Normalizer.NormalizeMonthCases | src/utils/dataFetcher.js:58 | A falsy cell gives "01"; a text with a dash gives its part after the first dash; a truthy cell whose text has no dash gives that text padded to at least two digits. |
| Normalizer.NormalizeMonthOfYearMonth | src/utils/dataFetcher.js:58 | "2024-03" normalises to "03". |
| Normalizer.NormalizeMonthOfNumber | src/utils/dataFetcher.js:58 | A month number 3 normalises to "03". |
| Normalizer.SharesSumTo100 | src/utils/dataFetcher.js:53-77 | With a positive metre total, the three exact shares add up to 100, each share is its exact value to a tenth, and the three shown shares add up to between 99.85 and 100.15; otherwise all three are 0. |
| Normalizer.BuildRide | src/utils/dataFetcher.js:55-100 | The record holds the normalised month and the parsed speed series (its other fields are stated by the three `BuildRide…` lemmas). |
| Normalizer.NormalizeRow | src/utils/dataFetcher.js:50-104 | A ride the transform keeps has a month text without a dash (when it is dropped is `Normalizer.RowDropped`). |
| Normalizer.RowDropped | src/utils/dataFetcher.js:101-104 | A row is skipped exactly when its month text throws or its speed cell is truthy and not valid JSON. |
| Normalizer.NormalizeRowBuilds | src/utils/dataFetcher.js:55-100 | A kept row is the record built from its month and its speed series. |
| Normalizer.BuildRideUnits | src/utils/dataFetcher.js:60-67 | Distance (km), duration (minutes) and the state-of-charge share (times 100) are what their column, divided by the unit, reads back as to two decimals when the column is truthy, NaN exactly when it is truthy but not numeric, and 0 when it is falsy. |
| Normalizer.ScaledMeans | src/utils/dataFetcher.js:60-63 | `v ? (Number(v) / k).toFixed(2) : 0` reads back as `Number(v) / k` to two decimals, NaN for a non-numeric cell, and 0 for a falsy one. |
| Normalizer.PercentMeans | src/utils/dataFetcher.js:67 | The state-of-charge share reads back as the cell times 100 to two decimals, NaN for a non-numeric cell, and 0 for a falsy one. |
| Normalizer.DistanceReadBack | src/utils/dataFetcher.js:60 | A numeric distance cell reads back within 5 m of its metres, and reaches the 10 km of the long-ride filter exactly from 9995 m. |
| Normalizer.BuildRideFallbacks | src/utils/dataFetcher.js:56-98 | The id falls back to `ride-<index>`. Date, timestamp, year and the addresses fall back to "N/A", null, the current year and "". |
| Normalizer.BuildRideZeros | src/utils/dataFetcher.js:61-93 | Every `Number(x) \|\| 0` field (efficiencies, speeds, energy, the riding, braking and coasting metres, the six mode distances and both endpoints) holds its own column read as `Number(x) \|\| 0`. The shares are computed from the stored distances. |
| Normalizer.ColumnDefaults | src/utils/dataFetcher.js:61-93 | A missing, null, empty or zero cell reads as 0, so a ride without coordinates starts and ends at [0, 0]. |
| Normalizer.TransformRows | src/utils/dataFetcher.js:48-106 | The rides are the transforms that do not throw, taken in order, of the object rows, each row transformed with its position among the object rows. |
| Normalizer.TransformRowsInOrder | src/utils/dataFetcher.js:48-106 | The rides are the transforms of the object rows at increasing positions; every object row left out is one whose transform throws. |
| Normalizer.LoadRidesOutcomes | src/utils/dataFetcher.js:9-45 | An empty URL gives no rides. The HTML error is raised only for an empty parse of an HTML page. Any other empty parse gives no rides. |
| Normalizer.LooksLikeHtmlCaseBlind | src/utils/dataFetcher.js:41 | Two bodies that differ only in the case of their letters are both taken for an HTML page, or neither is. |
| Normalizer.LooksLikeHtmlLowered | src/utils/dataFetcher.js:41 | A body is taken for an HTML page exactly when its lower-cased text is. |
| Normalizer.LooksLikeHtmlExample | src/utils/dataFetcher.js:41 | The body " <HTML>", with a leading space and upper case, is taken for an HTML page. |
| Normalizer.LooksLikeHtmlBlankPrefix | src/utils/dataFetcher.js:41 | White space in front of a body never changes whether it is taken for an HTML page. |
| Rollup.LastTwo | src/App.jsx:412 | `slice(-2)` is the last two characters, or the whole text when it is shorter. |
| Rollup.FoldMonth | src/App.jsx:419-422 | Folding rides into a month accumulator adds their distances (JavaScript addition), efficiencies and energies, and counts them. |
| Rollup.MonthlyRollup | src/App.jsx:409-431 | The monthly data has one entry per group of rides with the same year-month key, each the finished entry of its group. |
| Rollup.RollUpMonths | src/App.jsx:409-431 | The `reduce` into the month object followed by the `map` gives the monthly rollup. |
| Rollup.RollupGroups | src/App.jsx:409-431 | The entry keys are distinct, and every ride's key has an entry. Each entry counts the rides with its key. Entries come in order of first occurrence. |
| Rollup.EntryRides | src/App.jsx:409-431 | The rides behind an entry are exactly the rides with its key. |
| Rollup.RollupDistance | src/App.jsx:419-428 | An entry's distance is NaN exactly when one of its rides' distances is, and otherwise their sum to a tenth. |
| Rollup.RollupMeans | src/App.jsx:420-430 | Each entry counts its rides; its efficiency is their mean to a tenth and its energy their sum in kWh to a hundredth. |
| Rollup.EntryOfGroup | src/App.jsx:426-431 | The entry of a group holds its key, its ride count, its distance and mean efficiency to a tenth and its energy in kWh to a hundredth. |
| Rollup.RollupCounts | src/App.jsx:422 | The entry counts add up to the number of rides. |
| Rollup.RollupDistanceTotal | src/App.jsx:419-428 | With no NaN distance, the month distances add up to the total distance within 0.05 km per month. |
| Rollup.EntryKmsWithin | src/App.jsx:428 | With no NaN distance, each month's distance is within 0.05 km of its rides' total. |
| Rollup.EntryKmOfGroup | src/App.jsx:428 | With no NaN distance, a month's distance is its rides' total to a tenth. |
| Rollup.BuildActivity | src/App.jsx:434-438 | The activity `reduce` fails on the first timestamp that is not a valid date, and otherwise fills the day buckets. |
| Rollup.FoldDistances | src/App.jsx:436 | Folding finite distances into a finite bucket adds them. |
| Rollup.ActivityFails | src/App.jsx:434-435 | Building the activity map throws exactly when some ride's timestamp is not a valid date. |
| Rollup.ActivityGroups | src/App.jsx:434-438 | The buckets are the day groups of the rides, each folded from 0. |
| Rollup.ActivityDays | src/App.jsx:434-438 | There is one bucket per distinct day with a ride, and every ride's day has one. |
| Rollup.ActivityBucket | src/App.jsx:436 | With no NaN distance, a bucket is the sum of the distances of the rides on its day. |
| Rollup.ActivityTotal | src/App.jsx:434-438 | With no NaN distance, the buckets add up to the total distance. |
| Rollup.NullTimestampOnEpoch | src/App.jsx:435 | A ride without a timestamp is counted on 1970-01-01. |
| Rollup.YearsDescending | src/App.jsx:442 | The year list holds exactly the rides' years, each once, in strictly decreasing order, and is empty only without rides. |
| Rollup.SelectYear | src/App.jsx:446 | The kept year is the previous one exactly when it is listed, or else the first year; with any years it is one of them. |
| Rollup.SelectYearNewest | src/App.jsx:443-447 | A selected year without rides gives way to the newest year with rides. |
| Calendar.FullYear | src/App.jsx:44-45 | `Date.UTC` reads the years 0 to 99 as 1900 to 1999 and other years as themselves. |
| Calendar.Level | src/App.jsx:73-77 | The colour level is 0 without distance, then 1, 2 or 3 for distances in (0, 5], (5, 15] and (15, 30] km, and 4 above 30 km. |
| Calendar.LevelMonotone | src/App.jsx:73-77 | A longer distance never gets a lighter level. |
| Calendar.Lookup | src/App.jsx:59 | `activityData[dateStr] \|\| 0`: a missing day and a NaN bucket both read as 0. |
| Calendar.LastDayOfYear | src/App.jsx:45-57 | The loop's last day is December 31. |
| Calendar.NextDayLoop | src/App.jsx:57-82 | Stepping to the next day keeps the loop's bookkeeping of day number, grid position and current month. |
| Calendar.NewMonthLabel | src/App.jsx:66-71 | A day that starts a new month always gets its label, at the column of that day. |
| Calendar.DayCellOf | src/App.jsx:58-78 | The cell pushed for a day holds its date, the distance the activity object gives it, and the level of that distance, between 0 and 4. |
| Calendar.DrawDays | src/App.jsx:53-82 | After the padding, the day loop adds one cell per day of the year, each for its own day, and labels every month from January to December. |
| Calendar.BuildCalendar | src/App.jsx:39-82 | The grid has one padding cell per weekday before January 1, then one cell per day of the year holding its distance and level. It gets the twelve month labels. |
| Calendar.CalendarLabels | src/App.jsx:53-71 | January labels column 0, and each later month's column is at least four weeks after the previous one, inside the grid. |
| Calendar.FilterLabelsSpaced | src/App.jsx:85-88 | The kept labels are labels of the list, the first always kept, and kept labels are at least two columns apart. |
| Calendar.FilterLabelsAll | src/App.jsx:85-88 | When every label is at least two columns after the previous one, none is dropped. |
| Calendar.CalendarLabelsShown | src/App.jsx:66-88 | The overlap filter never removes one of the twelve month labels of the grid. |
| Calendar.ActivityMapLookup | src/App.jsx:434-439 | The activity object has exactly one key per bucket day, holding that bucket's value. |
| Calendar.CalendarDistance | src/App.jsx:434-438 | With no NaN distance, the distance a calendar day shows is the sum of its rides' distances, and 0 when there are none. |
| Dashboard.FilteredMembers | src/App.jsx:517-522 | A ride is shown exactly when it passes the month, long-ride and chart-month tests; the shown rides are a sub-list of the data. |
| Dashboard.FilteredInOrder | src/App.jsx:517-522 | The filter keeps order: filtering two stretches of rides one after the other is filtering them together. |
| Dashboard.FilteredAnyOrder | src/App.jsx:517-522 | Applying the three tests as three successive filters, in either month order, shows the same rides. |
| Dashboard.ThreeFilters | src/App.jsx:517-522 | Three filters in a row keep what their conjunction keeps. |
| Dashboard.ChartMonthShowsMonth | src/App.jsx:520 | A chart month alone shows exactly the rides with that key. |
| Dashboard.Toggle | src/App.jsx:928-930 | The selection is cleared exactly when the clear button passes null or the selected month is clicked again; otherwise the clicked month is selected. |
| Dashboard.ToggleTwice | src/App.jsx:928-930 | Clicking the same month twice clears the selection, unless it started on that month, in which case it comes back to it. |
| Dashboard.ComputeTotals | src/App.jsx:525-561 | The totals loop computes the totals of the shown rides. |
| Dashboard.TotalsOfNothing | src/App.jsx:555-561 | No shown ride gives all-zero totals. |
| Dashboard.TotalsCountAndSpeed | src/App.jsx:529-546 | The ride count is the number of shown rides, and the top speed is the largest one. |
| Dashboard.TotalsMeans | src/App.jsx:528-548 | The efficiency is the mean over the shown rides, and the energy is their sum in kWh. |
| Dashboard.TotalsDistance | src/App.jsx:527 | The distance is the sum of the distances, NaN as soon as one of them is. |
| Dashboard.TotalsShares | src/App.jsx:533-553 | The behaviour shares, each to a tenth, add up to 100 give or take 0.15 when some metres were recorded, and are all 0 otherwise. |
| Dashboard.Recompute | src/App.jsx:525-562 | After the effect runs, the totals are those of the shown rides. |
| Dashboard.Load | src/App.jsx:562 | New data is in the effect's dependencies, so the totals follow. |
| Dashboard.SelectMonth | src/App.jsx:562 | A new month selection is in the dependencies, so the totals follow. |
| Dashboard.SwitchLongRides | src/App.jsx:562 | The long-rides switch is in the dependencies, so the totals follow. |
| Dashboard.ClickMonthAsWritten | src/App.jsx:928-930 | A chart click changes the chart month, and the totals stay as they were. |
| Dashboard.StaleTotalsAfterClick | src/App.jsx:520-562 | Two rides of different months: after a click the table shows one ride, but the cards still count two. |
| Dashboard.ClickMonth | src/App.jsx:525-562 | With the chart month among the dependencies, the totals follow the click. |
| Dashboard.ClickMonthCounts | src/App.jsx:525-562 | Clicking a month from an unfiltered view counts that month's rides. |
| Dashboard.ModeTotals | src/App.jsx:640-645 | Each of the six modes gets its km over the shown rides, and there are no entries without shown rides. |
| Dashboard.AggregateModes | src/App.jsx:640-645 | The mode `reduce` computes the mode totals. |
| Dashboard.ModeStatsSorted | src/App.jsx:647-650 | The mode chart lists exactly the modes with at least 0.05 km, each once with its total to a tenth, in non-increasing order. |
| Dashboard.RoundedTotals | src/App.jsx:648 | Every mode total is read back from its one-decimal text, and the names are kept. |
| Dashboard.ModeChart | src/App.jsx:630-638 | The mode bars are the last fifteen shown rides, oldest first, with each mode in km to two decimals, within 5 m of its metres. |
| Dashboard.OptionKeyIsMonthKey | src/App.jsx:602 | An option key equals the filter's key for a ride with a year and a month text. |
| Dashboard.AvailableMonths | src/App.jsx:602-612 | There is one option per distinct option key, each with its label. |
| Dashboard.AvailableMonthsKeys | src/App.jsx:602 | Every key some ride has is offered, and no other. |
| Dashboard.AvailableMonthsOrder | src/App.jsx:603 | The options come in strictly decreasing key order. |
| Dashboard.OptionLabelOfMonth | src/App.jsx:604-611 | A key of a year and a two-digit month is labelled with that month's name and the year. |
| Dashboard.PaddedMonthParses | src/App.jsx:609-610 | A padded month number 1 to 12 parses back and names its month. |
| Dashboard.AfterLoad | src/App.jsx:403-474 | A fetch error is shown as such, and an empty list gives the "no rides" error. A non-empty list with an invalid timestamp gives the "Invalid time value" error with no rides, the monthly data having been set already. The rides are shown exactly when the list is non-empty and every timestamp is a date. |
| Dashboard.ReadyHasData | src/App.jsx:404-448 | Rides that `processData` takes without throwing always give a monthly rollup, the activity map, a year list and a listed selected year. |
| Summary.WeekKeyIsIsoWeek | src/components/SummaryPage.jsx:60 | A ride with a valid date is filed under the ISO week of its timestamp, or of its date without one. |
| Summary.SameWeekSameKey | src/components/SummaryPage.jsx:10-17 | Two rides on days of the same Monday-to-Sunday week share a weekly group. |
| Summary.FoldPeriod | src/components/SummaryPage.jsx:39-43 | Folding rides into a fresh period collects exactly them, with the summed totals and the running maximum. |
| Summary.Grouped | src/components/SummaryPage.jsx:24-129 | The periods, in first-encounter order, are the summaries of the groups of rides with the same key. |
| Summary.GroupPeriods | src/components/SummaryPage.jsx:24-129 | The `forEach` and the `map` of a view give the grouped summaries. |
| Summary.Summarize | src/components/SummaryPage.jsx:20-132 | A view's summaries are none without rides, and otherwise the grouped periods sorted by the view's comparator. |
| Summary.SummariesAreGroups | src/components/SummaryPage.jsx:20-132 | Every summary of a view is the summary of one group, and every group has its summary. |
| Summary.SummariesMembers | src/components/SummaryPage.jsx:24-115 | Each summary holds exactly the rides with its key. |
| Summary.SummariesKeysDistinct | src/components/SummaryPage.jsx:24-115 | No two summaries of a view share a key. |
| Summary.SummariesCoverRides | src/components/SummaryPage.jsx:24-115 | Every ride has the summary of its key in the view. |
| Summary.SummaryCounts | src/components/SummaryPage.jsx:24-122 | The ride counts of a view add up to the number of rides. |
| Summary.SummaryTotals | src/components/SummaryPage.jsx:40-53 | A period's distance is the sum over its rides to a hundredth, its duration the sum to the minute, its energy the sum in kWh to a hundredth and its efficiency their mean to a tenth. |
| Summary.SummaryMaxSpeed | src/components/SummaryPage.jsx:43-54 | A period's top speed is at least 0 and at least each ride's top speed to a tenth, and is 0 or one of those. |
| Summary.SummaryDaysActive | src/components/SummaryPage.jsx:77-84 | A week or month is active on as many days as its rides have distinct dates, between one and the ride count. |
| Summary.KeysLatestFirst | src/components/SummaryPage.jsx:90-129 | Weeks and months are listed with strictly decreasing keys. |
| Summary.DailyDates | src/components/SummaryPage.jsx:29 | Every daily summary is dated by one of its rides. |
| Summary.DaysNewestFirst | src/components/SummaryPage.jsx:55 | With valid dates, days are listed newest first. |
| Summary.GetTrend | src/components/SummaryPage.jsx:138-145 | There is no trend exactly when there is no previous period or its value is 0. |
| Summary.TrendMeaning | src/components/SummaryPage.jsx:140-143 | The trend's size is the change relative to the previous value's size, and its direction is the sign of the change. |
| Summary.LastCardNoTrend | src/components/SummaryPage.jsx:148 | The oldest card has no trend. |
| Summary.CardTrendAgainstEarlierKey | src/components/SummaryPage.jsx:148-150 | A week or month card is compared with the next earlier key. |
| Summary.CardTrendAgainstEarlierDay | src/components/SummaryPage.jsx:148-150 | With valid dates, a day card is compared with a day that is not later. |
| Summary.RideBars | src/components/SummaryPage.jsx:236-240 | A day's chart has exactly one bar per ride. |
| Summary.FoldDay | src/components/SummaryPage.jsx:247-249 | Folding rides into a date's object sums their distances and efficiencies and counts them. |
| Summary.DayBars | src/components/SummaryPage.jsx:251-254 | The map over the dates' objects gives one bar per date, or throws. |
| Summary.DayBarsEach | src/components/SummaryPage.jsx:251-254 | The bars of all dates are the bars of each date, in order. |
| Summary.DateBars | src/components/SummaryPage.jsx:242-254 | The bucketing `forEach` and the map compute the bars of the date groups. |
| Summary.DrillDown | src/components/SummaryPage.jsx:232-272 | The drill-down loop computes the chart data. |
| Summary.RideBarsTotal | src/components/SummaryPage.jsx:236-240 | Bar i of a day shows ride i's distance, and the bars add up to the day's distance. |
| Summary.ChartOfDates | src/components/SummaryPage.jsx:241-270 | A week's or month's chart is its date bars, sorted. |
| Summary.DrillDownBars | src/components/SummaryPage.jsx:242-254 | Every bar of a week or month is the bar of the rides of one date. |
| Summary.DrillDownTotal | src/components/SummaryPage.jsx:247-269 | With no NaN distance, the bars of a week or month add up to its rides' distance within 0.005 km per bar. |
| Summary.BarsWithin | src/components/SummaryPage.jsx:253 | With no NaN distance, each date's bar is within 0.005 km of its rides' distance. |
| Summary.BarsTotal | src/components/SummaryPage.jsx:247-269 | Bars each within 0.005 km of their date's distance add up to within 0.005 km per bar of the total. |
| Summary.DrillDownThrows | src/components/SummaryPage.jsx:252-267 | The chart exists when every date is a string, and throws when the first ride's date is not one. |
| Summary.WeekChartByName | src/components/SummaryPage.jsx:255 | A week's bars are in name order. |
| Summary.MonthChartByDay | src/components/SummaryPage.jsx:270 | When every name is a day of the month, a month's bars are in day order. |
| MonthlyChart.HeaderOf | src/components/EnhancedMonthlyChart.jsx:41-60 | The header appears only for a non-empty list, with the month count and the summed energy. |
| MonthlyChart.RollupEmpty | src/components/EnhancedMonthlyChart.jsx:41 | The rollup is empty exactly when there are no rides. |
| MonthlyChart.HeaderShown | src/components/EnhancedMonthlyChart.jsx:41-45 | The header appears exactly when there are rides, and counts their distinct month keys. |
| MonthlyChart.RollupKeys | src/components/EnhancedMonthlyChart.jsx:45 | The rollup has one entry per distinct month key. |
| MonthlyChart.HeaderEnergy | src/components/EnhancedMonthlyChart.jsx:56 | The total energy, in Wh, is within 5 Wh per month of the rides' energy. |
| MonthlyChart.EntryWhsWithin | src/App.jsx:430 | Each month's energy is within 5 Wh of its rides' energy. |
| MonthlyChart.GroupsWh | src/components/EnhancedMonthlyChart.jsx:56 | Months each within 5 Wh of their rides' energy add up to within 5 Wh per month of all the rides' energy. |
| MonthlyChart.TotalNaN | src/components/EnhancedMonthlyChart.jsx:50 | The months' summed distance is NaN exactly when some ride's distance is. |
| MonthlyChart.TotalFinite | src/components/EnhancedMonthlyChart.jsx:50 | With no NaN distance, the months' summed distance is a number within 0.05 km per month of the rides' total. |
| MonthlyChart.HeaderDistance | src/components/EnhancedMonthlyChart.jsx:50 | The mean distance per month is NaN exactly when a ride's distance is, and otherwise, taken once per month, gives the rides' total distance within 0.05 km per month. |
| MonthlyChart.HeaderMean | src/components/EnhancedMonthlyChart.jsx:50 | The mean is NaN exactly when the sum is, and otherwise gives the sum when taken once per month. |
| MonthlyChart.ClickedKey | src/components/EnhancedMonthlyChart.jsx:10-15 | A click passes on the key of the first entry under the pointer, and nothing when it hits nothing. |
| MonthlyChart.AfterClear | src/components/EnhancedMonthlyChart.jsx:24-26 | The clear button leaves no month selected. |
| MonthlyChart.ChartClickToggles | src/components/EnhancedMonthlyChart.jsx:10-15 | A click that hits nothing changes nothing. A bar click selects its month, or clears the month when it was already selected. |
| MonthlyChart.Banner | src/components/EnhancedMonthlyChart.jsx:19-23 | The banner appears exactly when a non-empty month is selected, and names the first entry with that key, if any. |
| MonthlyChart.BannerOfEntry | src/components/EnhancedMonthlyChart.jsx:22 | With distinct keys, the banner for entry i's key names entry i. |
| MonthlyChart.ClickFiltersMonth | src/components/EnhancedMonthlyChart.jsx:10-22 | Clicking an unselected bar shows exactly that month's rides, as many as the bar counts, under a banner naming the bar. |
| MonthlyChart.ChangeOf | src/components/EnhancedMonthlyChart.jsx:264-266 | The change is a percentage exactly when both values are numbers and the previous one is nonzero; otherwise it is ±Infinity or NaN. |
| MonthlyChart.Tenths | src/components/EnhancedMonthlyChart.jsx:264-266 | `parseFloat(toFixed(1))`, in tenths, is not negative for a value that is not negative and not positive for a value that is not positive. |
| MonthlyChart.TenthsClose | src/components/EnhancedMonthlyChart.jsx:264-266 | The rounding is off by at most half a tenth. |
| MonthlyChart.MonthTrends | src/components/EnhancedMonthlyChart.jsx:256-277 | The badges appear for two or more months and compare the last with the one before. |
| MonthlyChart.AtLeastZeroMeaning | src/components/EnhancedMonthlyChart.jsx:270-277 | A finite change passes `>= 0` exactly above -0.05 % and `<= 0` exactly below 0.05 %. |
| MonthlyChart.DistanceBadge | src/components/EnhancedMonthlyChart.jsx:270-271 | With a positive previous distance, the badge is positive and up whenever the distance did not fall, and only if it fell by less than 0.05 %. |
| MonthlyChart.LessIsBetterBadges | src/components/EnhancedMonthlyChart.jsx:273-277 | With positive previous values, the efficiency and energy badges are positive whenever the value did not rise, and only if it rose by less than 0.05 %. |
| MonthlyChart.BadgeSize | src/components/EnhancedMonthlyChart.jsx:271-277 | The shown number is the change's size to the nearest tenth. |
| MonthlyChart.ZeroPreviousShown | src/components/EnhancedMonthlyChart.jsx:264-271 | A previous distance of 0 gives "↑ Infinity%", and two zero months give a negative "↓ NaN%". |
| MonthlyChart.GuardedChange | src/components/SummaryPage.jsx:139-140 | With the guard, the change exists exactly when the previous value is a nonzero number, and then it is a percentage. |
| MonthlyChart.GuardedTrends | src/components/EnhancedMonthlyChart.jsx:256-277 | Each guarded badge appears exactly when its previous value is a nonzero number, and shows a finite size. |
| MonthlyChart.GuardedTrendsFinite | src/components/EnhancedMonthlyChart.jsx:264-277 | Each guarded badge agrees with the unguarded one wherever it appears. |
| RideMap.SpeedBand | src/components/RideMapView.jsx:41-48 | A speed's band is the 10 km/h step it falls in; the last band is open-ended. |
| RideMap.SpeedColorBand | src/components/RideMapView.jsx:41-48 | The colour is the palette entry of the speed's band. Faster never gets an earlier colour, and two speeds share a colour exactly when they share a band. |
| RideMap.SpeedColorMatchesLegend | src/components/RideMapView.jsx:41-48 | Every speed that is not negative falls under exactly one legend row, which shows the segment's colour. |
| RideMap.DecodedRoute | src/components/RideMapView.jsx:67-84 | The route is empty for a falsy or blank cell or a decoder error, and the decoded points otherwise; `trim` throws on a truthy non-string cell. |
| RideMap.Route | src/components/RideMapView.jsx:86-93 | The drawn route is the decoded one, or the start-to-end line when that is empty and both ends are valid. |
| RideMap.Center | src/components/RideMapView.jsx:95-99 | The centre is a route point, else a valid start, else the default centre. |
| RideMap.CenterIsMiddle | src/components/RideMapView.jsx:97-98 | As many route points come before the centre as after it, give or take one. |
| RideMap.PointsPerSpeed | src/components/RideMapView.jsx:108 | The corrected step is at least 1, and equals the source's value whenever there are no more samples than points. |
| RideMap.SpeedIndex | src/components/RideMapView.jsx:111 | The sample index is always a valid sample, and there is no index at all (0 / 0 is NaN) exactly for segment 0 with a step of 0. |
| RideMap.Segments | src/components/RideMapView.jsx:110-120 | There is one segment per consecutive pair of route points, and none without a route; segment i joins points i and i + 1 and is coloured by its speed. |
| RideMap.SpeedSegments | src/components/RideMapView.jsx:104-121 | The loop builds, with the step `floor(points / samples)` as written, exactly the segments `SegmentsAsWritten` describes, and only when there is a route and speed data and the colours are on. |
| RideMap.SegmentsFollowRoute | src/components/RideMapView.jsx:115-118 | The segments form the route: each starts where the previous one ends, from the route's start to its end. |
| RideMap.SegmentsUseSamples | src/components/RideMapView.jsx:108-112 | With at least one point per sample, every segment shows a recorded sample, the samples go in order, and the first segment shows the first. |
| RideMap.GuardedSegments | src/components/RideMapView.jsx:108-112 | The corrected segments always show a recorded sample, and equal the source's segments when there are no more samples than points. |
| RideMap.SparseRouteAsWritten | src/components/RideMapView.jsx:108-112 | With more samples than points, the first segment shows 0 km/h in green and the rest show the last sample. |
| RideMap.FallbackRouteShowsZero | src/components/RideMapView.jsx:108-112 | The start-to-end fallback with samples 30, 35 and 40 shows one segment reading 0 km/h. |
| RideMap.MapFallback | src/components/RideMapView.jsx:86-99 | A ride with no usable polyline but valid ends is drawn as the straight line, centred on the end and fitted to both. |
| RideMap.MapWithoutRoute | src/components/RideMapView.jsx:125-133 | Without a route, the notice shows and nothing is fitted or drawn; the map sits on a valid start or on the default centre. |
| RideMap.MapOf | src/components/RideMapView.jsx:63-177 | Rendering fails exactly when the polyline cell throws. Otherwise the notice shows exactly without a route. The line is coloured (the as-written segments) exactly with a route, speed data and colours on; otherwise it is plain for two or more points and absent below that. |
| RideMap.MapWithRoute | src/components/RideMapView.jsx:133-177 | With a route, the map is fitted to exactly the route. The coloured line appears exactly when there are speed data and the colours are on. |
| RideMap.AvgSpeed | src/components/RideMapView.jsx:221 | The overlay speed is km/h from km and minutes, with none where the quotient is not finite. |

## Left out

- Fetching, the 15-second timeout, the abort controller, the CSV parser itself (Papa Parse) and `localStorage` are left out. The parsed rows and the fetched text are inputs.
- The splash delay, the setup page, disconnecting, the view tabs, the back button and the theme colours are left out.
- `toFixed` is modelled wherever its text is read back as a number: the ride's distance, duration and charge share and its behaviour shares, the month entries, the mode totals and bars, the period totals and the drill-down bars, and the badges' sign. A text that is only displayed is left out: the stat-card totals (see `Dashboard.TotalsOf` below), the chart header, the trend sizes and the map's speeds.
- Dashboard.TotalsOf: the stat cards' distance, efficiency, top speed, duration and energy are kept exact; their `toFixed` texts are only displayed. The behaviour shares are rounded, as the pie chart reads them back.
- MonthlyChart.HeaderOf: the mean distance and total energy are kept exact; `toFixed(1)` only formats them.
- Summary.GetTrend: the trend's size is kept exact; `toFixed(1)` only formats it.
- `toFixed` is modelled on exact reals with ties going away from zero. The binary floating-point value it really rounds (so 1.005 prints "1.00") is not modelled.
- Time zones are left out. `new Date(…)` is the host's UTC day number, and dates have day precision. `setHours` in the local zone is read as the same day.
- Object key order for integer-like keys (`Object.values` lists those first) is left out. Groups come in first-encounter order.
- `localeCompare` is modelled as code-point order. This agrees for the digit-and-dash keys the dashboard compares.
- The daily sort's comparator with invalid dates (NaN) is not modelled. `Summary.DaysNewestFirst` assumes valid dates.
- Summary.ChartOfDates: the monthly drill-down compares `parseInt(a.name) - parseInt(b.name)`, which is NaN for a date without a day part (the loader's "N/A", say), and `sort` then reads the pair as equal. That comparator is not consistent, so the browser's order is implementation-defined. The model gives the insertion sort's order.
- Summary.MonthChartByDay: stated only when every bar's name is a day number.
- Normalizer.BuildRide: the speed column's `JSON.parse` is taken either to throw (the row is dropped) or to give an array of numbers. Any other JSON value is not modelled: "5" or "{}" (no `length`, so no coloured line on the map), "[30,null,40]" (a null sample shows 0 km/h) and '["30"]' (a text sample throws in `toFixed`). `RideMap.GuardedSegments` relies on the samples being numbers.
- Summary.PeriodOf: `parseInt` without a radix reads a "0x" prefix as hexadecimal, so a month text "0xA" is October in the source. The model reads decimal digits only, so that month is "Unknown". The drill-down's day numbers are read the same way.
- MonthlyChart.ChangeOf: the reals have no -0. A month that reads back as -0 (`parseFloat("-0.0")` of a slightly negative sum) is 0 here, so a later positive value gives +Infinity where the source gives -Infinity.
- React state, rendering and effects are modelled as explicit state transitions (`Dashboard.View`). The map's show-colours switch is a parameter of the map.
- The polyline decoder is a parameter (`RideMap.Decoder`). Leaflet, its tiles and the FitBounds padding are left out.
- Pie-chart data and chart styling are left out.
- Negative speeds are coloured green, as the source does. No legend row covers them, so `RideMap.SpeedColorMatchesLegend` is stated for speeds that are not negative.
- RideMap.AvgSpeed: Infinity and NaN are not told apart; both are "no number".
- MonthlyChart.BadgeSize: the text `Math.abs` prints for a change is stated as its size in tenths, not as characters.
- Summary.DaysNewestFirst: stated only when every ride's date is valid.
- The 3D scooter view and the test script are not part of this model.

## Findings

| source | as written | input that shows it | evidently intended | confidence | as-written member | corrected member |
|---|---|---|---|---|---|---|
| src/App.jsx:562 | The totals effect depends on data, filterMonth and filterLongRides, but not on selectedMonthFilter, which the filter reads at line 520 | Two rides of different months, then a click on the first month's bar: the table shows one ride, the stat cards still count two | The stat cards follow the chart-month filter like the other two filters | high, not executed | Dashboard.StaleTotalsAfterClick | Dashboard.ClickMonthCounts |
| src/components/EnhancedMonthlyChart.jsx:264-266 | The month-over-month change divides by the previous month's value with no zero check | Previous month distance 0, latest 5: "↑ Infinity% Distance"; both 0: a negative "↓ NaN%" badge | No badge when the previous value is 0, as `getTrend` in src/components/SummaryPage.jsx:139 does | high, not executed | MonthlyChart.ZeroPreviousShown | MonthlyChart.GuardedTrendsFinite |
| src/components/RideMapView.jsx:108-112 | `pointsPerSpeed = floor(points / samples)` is 0 when there are more speed samples than route points | The start-to-end fallback route with speeds [30, 35, 40]: its one segment reads 0 km/h (index 0 / 0 is NaN) | At least one route point per sample, so every segment shows a recorded speed | high, not executed | RideMap.FallbackRouteShowsZero | RideMap.GuardedSegments |
