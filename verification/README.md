# COVID-DE-19 time-series plot: label thinning and series extraction

The plotting script `csv_to_time_series.py` loads a table of cumulative COVID-19
case and death counts, cuts out one region's series, and draws cases and deaths
against the day index. This project models the two functions of the script that
carry logic, and proves what they promise:

- `get_time_series` (module `TimeSeries`). The table is a `seq<Record>` of
  `(date, state, cases, deaths)` rows. The selector `"us"` keeps every row. The
  selectors `de`, `nj`, `ny` and `md` are looked up in the fixed state table and
  keep only the rows of that state, in table order. Any other selector raises the
  lookup's `KeyError`, modelled as `Err(UnknownSelector(selector))`. The result is
  three index-aligned columns (`Series`).
- `format_labels` (module `AxisLabels`). Its loop walks the dates and splits each
  on `'-'` into year, month and day. Index 0 gets a major tick labelled
  `day + "-" + month abbreviation`. A later index whose day field is exactly `"01"`
  gets a major tick labelled with the month abbreviation and a right arrow
  (U+2192). Every other index gets a minor tick and no label. It is modelled as
  the method `FormatLabels`, a `for` loop that appends to three sequences. The
  loop's invariant is the predicate `Describes(dates, i, ticks)`, which states the
  labelling of the first `i` dates declaratively.
  - A date that does not unpack into three fields raises `ValueError`, modelled as
    `MalformedDate(at, fields)`.
  - A month code missing from the table raises `KeyError`, modelled as
    `UnknownMonth(at, month)`. The month is looked up only on major ticks, so a
    minor entry with a bad month does not fail.
  - The loop stops at the first failing date.
- Python's `str.split` with a one-character separator (module `Text`) is modelled
  with its inverse `Join`, because the malformed-date check depends on it.

`FormatLabels` is proved against `Describes`. The lemmas then show what
`Describes` implies:
- the tick lists partition `[0, n)`;
- both tick lists are increasing;
- the description fixes the result uniquely;
- the first label has the "DD-Mon" form and later labels have the arrow form.

The examples of the script's behaviour are proved about `Describes` and
`ErrorAt`. They name each date by its month and day fields. `SplitDate` shows that
a date written out as text, such as `"2020-03-15"`, has those fields. The `*Text`
examples restate them with the dates written out.

Behaviour of the script that the model keeps as written:
- The only malformed-date check is the three-way unpacking of the split. A date
  like `"2020-3-5"` passes that check (as the first entry it still fails on the
  month lookup of `"3"`, see `ExampleShortFieldsFirst`).
- An unknown month fails only at a major index. Month `"13"` on a minor entry is
  never looked up (`ExampleMinorSkipsLookup`).
- The selector `"us"` is tested before the state table, so it never fails.

## Model

| member | source | states |
|---|---|---|
| `Text.Split` | csv_to_time_series.py:57 | splitting on `'-'` yields one more field than the date has separators, no field contains `'-'`, and joining the fields with `'-'` gives the date back |
| `Text.SplitJoin` | csv_to_time_series.py:57 | splitting the join of separator-free fields gives exactly those fields back (the other half of the round trip) |
| `AxisLabels.MonthAbbrev` | csv_to_time_series.py:43-55 | the month table knows a code exactly when it is two decimal digits spelling 1 to 12; every abbreviation has 3 or 4 letters ("June", "July") and no arrow |
| `AxisLabels.FormatLabels` | csv_to_time_series.py:25-69 | succeeds exactly when no date raises an error, and then returns the labelling `Describes` fixes; otherwise returns the error of the first failing date, with all earlier dates clean |
| `AxisLabels.IsMajor` | csv_to_time_series.py:60-63 | the per-index rule, a definition without a contract: the first entry is major whatever its day, a later entry is major exactly when its day field is the text `"01"` |
| `AxisLabels.ErrorAt` | csv_to_time_series.py:57-65 | a date raises nothing exactly when it unpacks into three fields and, if it is a major tick, its month is a month code; a malformed date reports a field count other than three, an unknown month a text that is not a month code, both at the date's own index |
| `AxisLabels.LabelAt` | csv_to_time_series.py:61-65 | the first entry's label starts with its day field and `'-'`, is 4 or 5 characters longer than the day and does not end in the arrow; every later label is 4 or 5 characters ending in the arrow with no other arrow |
| `AxisLabels.DescribesMajorStep` | csv_to_time_series.py:60-66 | a major index appends its index to the major ticks and its label to the labels, keeping the description of the prefix |
| `AxisLabels.DescribesMinorStep` | csv_to_time_series.py:67-68 | a minor index appends its index to the minor ticks only, keeping the description of the prefix |
| `AxisLabels.TickCount` | csv_to_time_series.py:56-68 | the major and minor tick lists together hold exactly n indices, so with the per-index rule they partition `[0, n)` |
| `AxisLabels.TicksUnique` | csv_to_time_series.py:56-69 | two labellings that both satisfy the description are equal: labels, major and minor ticks are determined by the dates |
| `AxisLabels.LabelShapes` | csv_to_time_series.py:60-66 | for non-empty input 0 is the first major tick and its label is `day-Mon`; every later major tick is a first-of-month index whose label is the month and the arrow |
| `AxisLabels.SplitDate` | csv_to_time_series.py:57 | a date written as year-month-day with separator-free fields splits into exactly those three fields |
| `AxisLabels.ExampleMarchApril` | csv_to_time_series.py:56-68 | for 15, 16 March and 1, 2 April the labels are `["15-Mar", "Apr→"]`, the major ticks `[0, 2]` and the minor ticks `[1, 3]` |
| `AxisLabels.ExampleFirstEntryWins` | csv_to_time_series.py:60-65 | a single first-of-month entry gets the first-entry label `"01-Jan"`, not the arrow label |
| `AxisLabels.ExampleUnknownMonth` | csv_to_time_series.py:61 | month `"13"` at index 0 raises the unknown-month error |
| `AxisLabels.ExampleMinorSkipsLookup` | csv_to_time_series.py:63-68 | month `"13"` on a minor entry raises nothing and leaves that index minor |
| `AxisLabels.ExampleMalformed` | csv_to_time_series.py:57 | a date with two fields raises the malformed-date error at its index, reporting two fields |
| `AxisLabels.ExampleMarchAprilText` | csv_to_time_series.py:56-68 | for `"2020-03-15"`, `"2020-03-16"`, `"2020-04-01"`, `"2020-04-02"` no date raises, and `["15-Mar", "Apr→"]`, `[0, 2]`, `[1, 3]` is the only labelling, so it is what `FormatLabels` returns |
| `AxisLabels.ExampleFirstEntryWinsText` | csv_to_time_series.py:60-65 | `["2020-01-01"]` is labelled `"01-Jan"` with one major tick and no minor tick |
| `AxisLabels.ExampleUnknownMonthText` | csv_to_time_series.py:61 | `"2020-13-01"` as the first entry raises the unknown-month error for `"13"`, so the dates are not clean |
| `AxisLabels.ExampleShortFieldsLater` | csv_to_time_series.py:57-68 | `"2020-3-5"` after `"2020-03-15"` passes the three-field check and is a clean minor tick |
| `AxisLabels.ExampleShortFieldsFirst` | csv_to_time_series.py:57-61 | `"2020-3-5"` as the first entry is a major tick whose month `"3"` is not in the table |
| `TimeSeries.StateName` | csv_to_time_series.py:95-99 | the state table knows exactly the selectors `de`, `nj`, `ny` and `md` |
| `TimeSeries.RowsOf` | csv_to_time_series.py:100 | the rows whose state is the looked-up name, in table order; its own contract gives only that it keeps at most the table's rows, and `RowsOfMembers`, `RowsOfAppend` and `Positions` characterise it |
| `TimeSeries.RowsOfMembers` | csv_to_time_series.py:100 | a row is kept exactly when it is in the table and its state equals the looked-up name |
| `TimeSeries.RowsOfAppend` | csv_to_time_series.py:100 | filtering a concatenation is the concatenation of the filtered parts, so the filter keeps table order |
| `TimeSeries.Positions` | csv_to_time_series.py:100 | the positions of the matching rows are increasing, cover exactly the matching rows, and the k-th kept row is the row at the k-th position |
| `TimeSeries.Columns` | csv_to_time_series.py:101 | the three columns have the length of the rows and their i-th entries are the i-th row's cases, deaths and date |
| `TimeSeries.GetTimeSeries` | csv_to_time_series.py:73-101 | fails exactly for a selector that is neither `us` nor in the state table, with that selector; otherwise the three series have equal length, no longer than the table, and for `us` exactly the table's length |
| `TimeSeries.UsSeriesIsWholeTable` | csv_to_time_series.py:92-93 | for `us` the series are the cases, deaths and dates of every row, in table order |
| `TimeSeries.StateSeriesRows` | csv_to_time_series.py:95-101 | for a state selector there is an increasing list of exactly the matching row positions, and the k-th entry of each series is read from the row at the k-th position |
| `TimeSeries.StateSeriesDates` | csv_to_time_series.py:95-101 | a date appears in a state's series exactly when some row of that state carries it |

## Left out

- The `__main__` block (csv_to_time_series.py:104-147) is not part of this model. It covers argument parsing, the default CSV paths, `pd.read_csv` and all matplotlib calls.
- The scaling to thousands (csv_to_time_series.py:123-124) is not modelled. It goes through floating-point division.
- The conversions to numpy arrays (csv_to_time_series.py:69, 101) are not modelled. Results are plain sequences.
- The location check of the command line (csv_to_time_series.py:115-116) is not modelled. It is argument validation outside the two functions.
- The table is always a sequence of four-field records. A table without a `state` column, such as the national file, combined with a state selector would raise a pandas `KeyError`. That case is not modelled.
- The exceptions' messages and types are reduced to the error datatypes `LabelError` and `SelectorError`. Each carries the index or key that failed.
