# A verified model of the covid.reports chart pipeline

The dashboard plots COVID-19 case counts per country. The state holds five
things:

- a report, mapping each country to its daily records;
- the country currently picked in the drop-down (`currentCountry`);
- the list of selected countries;
- the metric to plot (`reportType`);
- an alignment strategy `[kind, from]`.

`toChartData` turns a state into the `{labels, datasets}` that the chart widget
draws, in two steps.

First, it picks one series per selected country that the report has.

Then it aligns the series in one of three ways:

- by calendar date from the first day on which some country has a case
  (`fromFirstDateStrategy`);
- by calendar date from a given date (`fromGivenDateStrategy`);
- by days since each country's own first case, with numbered day labels and
  optionally starting at a given day (`fromPatientZeroStrategy`).

A click on a chart point sends that point's label back as the strategy's new
`from`. The country-selection actions keep the selected countries as an
ordered list without duplicates:

- adding from the drop-down or from the map;
- removing from the list or from the map;
- picking in the drop-down;
- storing a fetched report.

An older, simpler `toChartData` plots the confirmed cases by the first
country's dates.

Everything modelled is pure: each JavaScript function becomes a Dafny function
over datatypes, sequences and maps, and its promises become `ensures` clauses
and lemmas. The project has six modules:

- `Wrappers` (`wrappers.dfy`): `Option`.
- `Sequences` (`sequences.dfy`): the lodash and JavaScript array operations
  the code relies on, with their exact semantics: `dropWhile`, and the
  one-argument `Array.prototype.slice`, including `slice(-0)`.
- `Model` (`model.dfy`): records, report, datasets, chart data, strategy and
  state.
- `Strategies` (`strategies.dfy`): selection and the three alignment
  strategies of `chart.js`.
- `Chart` (`chart.dfy`): the `toChartData` dispatcher of `chart.js` and the
  click feedback (`onClick`, `SetFromSelector`).
- `App` (`app.dfy`): the actions of `index.js`, `unique`, `isActive` and the
  older `toChartData`.

Several JavaScript details are modelled explicitly:

- JavaScript truthiness: an empty `from` string counts as absent, and the
  older `toChartData` shows no labels when the first selected name is empty.
- The `slice(-0)` edge case: a `from` date the first country lacks gives no
  labels, yet every dataset comes back whole.
- `fromFirstDateStrategy` is specified for series of equal length, which is
  what lodash `zip` needs to act as a transpose.
- The by-day `from` is kept as a day number of at least 1. A clicked label
  is turned into that number the way `Number(from)` reads a decimal numeral.
- `RemoveCountryFromMap` (`index.js:83-89`) has the same body as
  `RemoveCountry` (`index.js:101-107`), so `App.RemoveCountry` models both.
- `index.js` builds its initial state from only three fields. The model uses
  the shared five-field state, and every action leaves the fields it does
  not name as they were.

## Model

| member | source | states |
|---|---|---|
| Sequences.DropWhile | chart.js:101-104 | The result is a suffix of the input; every dropped element satisfies the predicate and the first kept one does not. |
| Sequences.Slice | chart.js:129 | `slice(start)`: a suffix; a non-negative start drops that many elements (or all), a negative start keeps that many from the end (or all). |
| Sequences.SliceFromEnd | chart.js:121 | `slice(-n)` keeps the last `n` elements for `n > 0`, and the whole sequence for `n = 0` because `-0` is `0`. |
| Sequences.SliceFrom | chart.js:158 | `slice(k)` for `k >= 0` drops the first `k` elements, or all of them. |
| Sequences.FirstIndex | chart.js:124-127 | The position of the first occurrence: it holds the element and no earlier position does. |
| Model.Value | chart.js:86 | `prop(reportType)` on one record: the field the metric names. It has no contract of its own; `Model.Series` states what it contributes. |
| Model.Series | chart.js:86 | One value per record, in order: the chosen metric of that record. |
| Model.Dates | chart.js:116 | One label per record, in order: that record's date. |
| Strategies.ToChartDataItem | chart.js:81-92 | A dataset exactly when the report has the country (both directions), labelled with it and holding one value per recorded day, value `j` being the metric of record `j`; otherwise the `null` that the filter drops. |
| Strategies.Present | chart.js:178-181 | Exactly the selected names that the report has (both directions). |
| Strategies.Select | chart.js:179-181 | One dataset per present name, in order; dataset `i` is labelled with the `i`-th present name and holds its metric values. |
| Strategies.SelectConsistent | chart.js:81-92 | Every selected dataset names a country of the report and has one value per recorded day of that country. |
| Strategies.PresentAppend | chart.js:181 | The filter keeps order: the present names of `a + b` are those of `a` followed by those of `b`. |
| Strategies.PresentAll | chart.js:178-181 | When every selected name is in the report, nothing is filtered out. |
| Strategies.IsZero | chart.js:94 | `x === 0`. No contract of its own; `Strategies.TrimZerosStrips` states what stripping by it leaves. |
| Strategies.IsZerosArray | chart.js:95 | Every entry of a row is zero. No contract of its own; `Strategies.DroppedDaysZero` and `Strategies.FirstKeptDayNonZero` state what dropping by it removes and keeps. |
| Strategies.SliceAll | chart.js:97-98 | `mapDatasets` with `slice`: same countries, each series sliced. |
| Strategies.Zip | chart.js:102 | `zip` of equal-length series: row `j`, column `i` is day `j` of series `i`. |
| Strategies.Unzip | chart.js:106 | `unzip` of equal-width rows: column `i`, entry `j` is entry `i` of row `j`; no rows give no columns. |
| Strategies.TrimLeadingData | chart.js:100-111 | With `L` the kept length: every cleaned series is the last `L` values of its series; every dropped day is zero in every series; the first kept day is non-zero in some series. |
| Strategies.WithColumns | chart.js:108 | Dataset `i` keeps its country and takes column `i`, or the empty series when there is none. |
| Strategies.KeptColumns | chart.js:106-108 | The columns of the last `k` rows of the zip are the last `k` values of each series. |
| Strategies.DroppedDaysZero | chart.js:101-104 | The rows that `dropWhile` removed hold only zeros. |
| Strategies.FirstKeptDayNonZero | chart.js:101-104 | The first row that `dropWhile` kept holds a non-zero value. |
| Strategies.ListLabels | chart.js:113-118 | The dates of the first dataset's country, or none when there is no dataset or its series is empty. No contract of its own; `Strategies.ListLabelsDates` states it. |
| Strategies.ListLabelsDates | chart.js:113-118 | No labels without a first dataset or when its series is empty; otherwise one label per record of its country, label `j` being the date of record `j`. |
| Strategies.TrimLeadingLabels | chart.js:120-121 | `slice(-length)` of those labels. No contract of its own; `Strategies.TrimLeadingLabelsSuffix` states it. |
| Strategies.TrimLeadingLabelsSuffix | chart.js:120-121 | The trimmed labels are a suffix of the labels: all of them for length 0 (`slice(-0)`) or a length past the end, exactly `length` of them otherwise. |
| Strategies.NoLabels | chart.js:113-121 | With no datasets there are no labels. |
| Strategies.TrimmedLabels | chart.js:120-121 | When the first dataset has `n` values of its country, the labels are the last `n` dates of that country. |
| Strategies.FromFirstDate | chart.js:134-139 | Every dataset is the last `L` values of its series, keeping its country. The labels are the last `L` dates of the first country, one per kept day, and there are none without datasets. |
| Strategies.FromFirstDateLabels | chart.js:134-136 | No labels without datasets; when the first dataset has one value per record of its country, the labels are the last `L` dates of that country. |
| Strategies.FromFirstDateAllZero | chart.js:134-139 | All-zero input gives no labels and every dataset empty. |
| Strategies.DropUntil | chart.js:124-127 | The labels from the first occurrence of `from` on, or none when `from` does not occur. |
| Strategies.FromGivenDate | chart.js:123-132 | Every dataset keeps its country and its last values, as many as there are labels. With no labels it keeps all its values, because of `slice(-0)`. Labels, when there are any, are the last dates of the first country. |
| Strategies.FromGivenDateFoundLabels | chart.js:123-131 | When `from` is a date of the first country, the labels are its dates from the first occurrence of `from` on, so they start with `from`. |
| Strategies.FromGivenDateMissing | chart.js:128-129 | When `from` is not a date of the first country, the labels are empty but every dataset is returned unchanged. |
| Strategies.SliceAllFromEnd | chart.js:129 | `slice(-n)` on every series: the last `n` values (or all), and the whole series for `n = 0`. |
| Strategies.DayLabel | chart.js:152 | `(i + 1).toString()`: the decimal numeral of a day. No contract of its own; `Strategies.ParseDigitsOfLabel` states that it is a digit string reading back as the day. |
| Strategies.ParseDay | chart.js:156 | `Number(from)` on a day label: a day number of at least 1 for a numeral, none otherwise. No contract of its own; `Strategies.DayLabelRoundTrip` states that it inverts `DayLabel`. |
| Strategies.ParseDigitsOfLabel | chart.js:152 | The numeral of `n` is a non-empty string of digits that reads back as `n`. |
| Strategies.DayLabelRoundTrip | chart.js:156 | `Number` of a day label is the day it names. |
| Strategies.HumanDays | chart.js:151-152 | `n` labels; label `j` is the numeral of `j + 1`. |
| Strategies.Longest | chart.js:147-149 | The fold is the length of some series and at least every series' length; 0 for no series. |
| Strategies.TrimZeros | chart.js:142-145 | Every dataset keeps its country and loses its leading zeros (`dropWhile(data, isZero)`). |
| Strategies.TrimZerosStrips | chart.js:142-145 | Every trimmed series is a suffix of its series, everything dropped is zero, and it does not start with a zero. |
| Strategies.SliceAllFrom | chart.js:159-162 | `slice(k)` on every series: all but the first `k` values. |
| Strategies.SkipDays | chart.js:158 | Skipping `k - 1` of the labels "1".."n" leaves "k", "k+1", ... |
| Strategies.FromPatientZero | chart.js:141-170 | Countries are kept. Without `from`: the trimmed series, labelled "1".."N" with N the longest trimmed length. With `from = k`: labels and each trimmed series drop their first `k - 1` entries. |
| Strategies.FromPatientZeroAligned | chart.js:166-169 | Without `from`: each series drops its own leading zeros. The labels number the days, no series is longer than them, and some series is as long when there is any. |
| Strategies.FromPatientZeroFromDay | chart.js:155-164 | With `from = k`: the labels and every trimmed series of the unshifted chart drop their first `k - 1` entries, and the labels read "k", "k+1", ... |
| Chart.SelectSameLength | chart.js:179-181 | When the selected countries have equally many records, the selected series have equal lengths. |
| Chart.ToChartData | chart.js:172-190 | The dispatcher. No contract of its own; the next four rows state the strategy it picks in each case, and `Chart.ToChartDataSelects` and `Chart.EmptySelection` what holds under all. |
| Chart.ToChartDataFirstDate | chart.js:187-188 | By date without `from` (or with the empty string), the chart is `fromFirstDateStrategy` of the selection. |
| Chart.ToChartDataGivenDate | chart.js:185-186 | By date with a non-empty `from`, the chart is `fromGivenDateStrategy` of the selection. |
| Chart.ToChartDataByDay | chart.js:183-184 | By day, the chart is `fromPatientZeroStrategy` of the selection. |
| Chart.ToChartDataFromDay | chart.js:183-184 | Replacing the by-day `from` re-aligns the same selection. |
| Chart.FirstDateCountries | chart.js:179-188 | By date without `from`, the chart has one dataset per selected dataset, for the same country. |
| Chart.GivenDateCountries | chart.js:179-186 | By date from a date, the chart has one dataset per selected dataset, for the same country. |
| Chart.ByDayCountries | chart.js:179-184 | By day, the chart has one dataset per selected dataset, for the same country. |
| Chart.ToChartDataSelects | chart.js:172-190 | Under every strategy, one dataset per selected country the report has, in selection order. |
| Chart.EmptySelection | chart.js:172-190 | An empty selection gives no labels and no datasets under every strategy. |
| Chart.LabelAt | chart.js:45-46 | The label at a position if there is one, absent past the end (both directions). |
| Chart.WithFrom | chart.js:64 | The kind is kept. By date, `from` becomes the label when it is non-empty and absent otherwise. By day, an absent label gives an absent `from`. |
| Chart.SetFromSelector | chart.js:61-67 | Only the strategy changes, to the same kind with the new `from`. |
| Chart.OnClick | chart.js:43-49 | A click on no point changes nothing. Otherwise only the strategy changes, and it becomes the old strategy with `from` set from the label at the first point hit (absent past the last label). |
| Chart.FromFirstDateLastDates | chart.js:134-139 | From the first date, the labels are the last dates of the first country. |
| Chart.ByDateLabelsAreDates | chart.js:185-188 | Under both by-date strategies the labels shown are the last dates of the first selected country. |
| Chart.OnClickByDate | chart.js:43-49 | A click by date whose first point has a non-empty label sets `from` to that label, whatever the other points hit. |
| Chart.OnClickByDay | chart.js:43-49 | A click by day sets `from` to the day that the first point's label spells. |
| Chart.OnClickPastLabels | chart.js:44-47 | A click whose first point lies past the last label clears `from` and keeps the kind. |
| Chart.FromGivenDateClicked | chart.js:123-131 | Re-aligning from one of the last dates of the first country gives labels that start with that date. |
| Chart.FromPatientZeroDays | chart.js:151-164 | By day, label `j` is the numeral of the first shown day plus `j`, and the label count is the longest trimmed length less the skipped days. |
| Chart.FromPatientZeroClicked | chart.js:155-164 | Re-aligning by day from a shown day label gives labels that start with that label. |
| Chart.ByDateClickRoundTrip | chart.js:43-49 | By date, clicking point `i` makes its label `from`, and the new chart's labels start with the clicked label. |
| Chart.ByDayClickRoundTrip | chart.js:61-67 | By day, clicking point `i` makes its day `from`, and the new chart's labels start with the clicked label. |
| App.Unique | index.js:90 | Exactly the elements of the list (both directions), none twice. |
| App.UniqueInOrder | index.js:90 | The elements come in the order of their first occurrences in the list. |
| App.UniqueOfNoDup | index.js:90 | A list without duplicates is left as it is. |
| App.AppendUnique | index.js:94-97 | Appending to a duplicate-free list: unchanged when already there, otherwise the element comes last. |
| App.Without | index.js:104 | Every other element stays and the removed one is gone (both directions); every other element keeps its multiplicity. |
| App.WithoutOrder | index.js:86 | Removing from a duplicate-free list keeps the other elements in their order, without duplicates. |
| App.WithoutAbsent | index.js:104 | Removing an absent element changes nothing. |
| App.AddCountryFromMap | index.js:73-82 | Only the selection changes. It is duplicate-free, contains the country, and holds exactly the old countries plus this one. On a duplicate-free list the order is kept, with the country appended only when absent. |
| App.AddCountry | index.js:91-100 | For the country picked in the drop-down: only the selection changes. It is duplicate-free, contains that country, and holds exactly the old countries plus it. On a duplicate-free list it is unchanged when the country is already selected, and otherwise gains it at the end. |
| App.RemoveCountry | index.js:83-107 | `RemoveCountry` and `RemoveCountryFromMap`: only the selection changes. Every occurrence of the country goes, and every other country keeps its occurrences. |
| App.SelectCountry | index.js:69-72 | Only the current country changes. |
| App.GotReport | index.js:60-63 | Only the report changes. |
| App.IsActive | index.js:120 | `includes`: holds exactly when some position of the selection holds the country. How it moves under the actions is stated by `App.ActiveAfterAdd` and `App.ActiveAfterRemove`. |
| App.AddIdempotent | index.js:76-79 | Adding a country from the map twice is adding it once. |
| App.AddCountryIdempotent | index.js:94-97 | Pressing "Select" twice is pressing it once. |
| App.AddThenRemove | index.js:90-107 | Adding an absent country to a duplicate-free selection and removing it again restores the state. |
| App.ActiveAfterAdd | index.js:120 | After adding, a country is active exactly when it was active before or is the added one. |
| App.ActiveAfterRemove | index.js:120 | After removing, a country is active exactly when it was active before and is not the removed one. |
| App.RemoveKeepsOrder | index.js:101-107 | Removing from a duplicate-free selection keeps the rest in order and without duplicates. |
| App.SimpleChartData | index.js:40-56 | No labels for an empty selection or when the first selected name is the empty string, else the first country's dates. One dataset per selected country, in order, holding its confirmed cases day by day. |
| App.SimpleChartDataSelects | index.js:40-56 | When every selected country is in the report, the older builder's datasets are the confirmed-case selection of the pipeline. |

## Left out

- The Chart.js widget is not modelled: its construction and options (`chart.js:16-51`, `index.js:13-31`), the module-level `chart` handle, `update()`, and the `requestAnimationFrame` retry in `createOrUpdateChart`. These are DOM and library side effects.
- The hyperapp subscription and dispatch wiring, the action/effect tuples, the `updateChart` effects and the `app(...)` bootstrap are not modelled; the model keeps only the state values the actions return. A click is modelled by `Chart.OnClick`, taking the chart's current labels and the indices of the points hit as parameters.
- The network fetch `fetchReport` is I/O; its result is the `report` parameter of `App.GotReport`.
- Colour strings (`stringToRGB`, `stringToHex`): their source is not part of this model, and no property depends on them. The chart's `label` field is `Dataset.country`.
- Views are UI and not modelled: the HTML/SVG views, `selectedOption`, `countrySvg`, `personify`, `countryNames` and the map path data.
- Strategies.FromFirstDate: specified only for series of equal length. lodash `zip` pads shorter series with `undefined`, and padding is not modelled, so `Chart.ToChartData` requires equally many records for the selected countries under this strategy.
- Chart.WithFrom: a clicked by-day label is read as a day only when it is a numeral of at least 1. Every other string gives no `from`. For labels the chart shows this matches `Number(from)`, but `Number` would also read signs, spaces or "0".
- An unknown strategy `kind`, for which `toChartData` returns `undefined`, cannot be expressed: the strategy is a datatype with two kinds.
- Strategies.ToChartDataItem: `Model.Metric` limits `reportType` to the three record fields `confirmed`, `deaths` and `recovered`. `prop(reportType)` would accept any property name and yield `undefined` for a field records lack.
- App.SimpleChartData: requires every selected country to be in the report. A selected name the report lacks makes `state.report[name].map` throw a `TypeError` (`index.js:44`, `index.js:50`). That path is reachable, because `AddCountryFromMap` (`index.js:133`) adds names taken from the map's country list, not from the report. The exception is not modelled.
- Strategies.Select: the datasets carry only the label and the data, not the colour fields.
