# Stock price dashboard: checklist reconciliation and series projection

This project models the logic of a small Dash dashboard that charts the daily
price history of a stock (`tesla_dash_app.py`). The dashboard has three pieces
of logic worth modelling:

- **Checklist options** (`Universe`). The year and month checklists offer the
  distinct years and months of the TSLA history loaded at start-up, computed
  with pandas' `unique()`. That gives each value once, in order of first
  appearance. The options are computed once and never again.
- **"Select all" reconciliation** (`Checklist`). Each dimension has a
  multi-select checklist and a one-option "All" checklist. A callback keeps
  the two consistent. If the multi-select fired, the picks stand and "All" is
  ticked exactly when the picks, as a set, equal the options. Otherwise the
  "All" value stands and the picks become every option (ticked) or none
  (unticked). The year and month callbacks are the same rule with different
  options and sentinels ("All Years", "All Months"). One reducer `Sync` models
  both. Its `Trigger` argument stands for the callback-context lookup.
- **Series projection** (`Projection`). The chart shows the rows of the
  freshly fetched series whose Year and Month are both picked, in series
  order. Each "At a Glance" indicator (Open, High, Low, Close, Volume) shows
  that column of the last row of the unfiltered fetched series. The same
  last-row rule gives the initial values of the indicator displays
  (lines 84-108).

A row is `Bars.Bar(year, month, open, high, low, close, volume)`. The numeric
fields are abstract integers. A series is a `seq<Bar>`.

Modelling choices:

- The "All" checklist's value is a list, empty or holding the sentinel. The
  code tests it by truthiness, and `Sync` tests `|allFlag| > 0`.
- The code does not check that the picks are among the options. Neither does
  the model: `Sync` and `Filter` accept any picks.
- The options stay those of the start-up series after the ticker changes.
  `FrozenOptionsMissNewRows` states what this means for the chart.

## Model

| member | source | states |
|---|---|---|
| Universe.Unique | tesla_dash_app.py:36-37 | `unique()` gives a duplicate-free list with exactly the values of the column |
| Universe.UniqueFirstAppearanceOrder | tesla_dash_app.py:36-37 | the values of `unique()` come in the order in which they first occur in the column |
| Universe.UniqueIsDetermined | tesla_dash_app.py:36-37 | any duplicate-free list of exactly the column's values, in first-appearance order, equals `Unique` (an independent reference definition) |
| Universe.YearOptions | tesla_dash_app.py:37 | `year_options` has no duplicates, and its set of values is exactly the set of years in the start-up series |
| Universe.MonthOptions | tesla_dash_app.py:36 | `month_options` has no duplicates, and its set of values is exactly the set of months in the start-up series |
| Universe.YearOptionsOrder | tesla_dash_app.py:37 | the year options are listed in order of first appearance in the series |
| Universe.MonthOptionsOrder | tesla_dash_app.py:36 | the month options are listed in order of first appearance in the series |
| Checklist.Sync | tesla_dash_app.py:121-128 | multi-select trigger: picks pass through unchanged, and the result is reconciled ("All" is `[sentinel]` exactly when the picks' set is the options' set, `[]` otherwise); All trigger: the "All" value passes through, and the picks become the full options list if it is non-empty and `[]` if it is empty |
| Checklist.SyncYears | tesla_dash_app.py:121-128 | the year callback's "All" value is always `[]` or `["All Years"]`; a multi-select edit returns the picks unchanged and leaves the year controls reconciled; an "All" edit returns the "All" value unchanged and picks all year options (ticked) or none (unticked) |
| Checklist.SyncMonths | tesla_dash_app.py:139-146 | the same for the month callback with `"All Months"` and the month options: picks unchanged and reconciled on a multi-select edit, "All" value unchanged and all or no month options picked on an "All" edit |
| Checklist.FlagIgnoresOrderAndRepeats | tesla_dash_app.py:125 | two pick lists with the same set give the same "All" value, whatever their order or repeats |
| Checklist.ManualSelectAllIsToggleAll | tesla_dash_app.py:124-127 | ticking every option by hand gives the same "All" value and the same set of picks as ticking "All" |
| Checklist.SyncIdempotent | tesla_dash_app.py:121-128 | running the reducer again on its own output with the same trigger returns that output, for both triggers |
| Checklist.MultiSelectFixedPoints | tesla_dash_app.py:124-125 | a state is left unchanged by multi-select reconciliation if and only if it is reconciled |
| Checklist.AllToggleReconciles | tesla_dash_app.py:126-127 | after an "All" edit the controls are reconciled if and only if "All" is ticked or the options are non-empty |
| Checklist.ToggleThenMultiSelectIsStable | tesla_dash_app.py:121-128 | multi-select reconciliation of an "All" edit's output leaves it unchanged, so a ticked "All" stays ticked (given "All" is ticked or the options are non-empty) |
| Checklist.InitialState | tesla_dash_app.py:47-51 | both checklists start empty, and a call that is not a multi-select edit keeps the picks empty |
| Checklist.SelectAllThenDeselectScenario | tesla_dash_app.py:124-125 | with options 2020-2022, ticking all three by hand ticks "All Years", and then unticking 2021 unticks it and leaves [2020, 2022] |
| Projection.Filter | tesla_dash_app.py:166 | the chart has at most as many rows as the series, and every charted row is in the series and passes the Year/Month mask |
| Projection.KeptIndices | tesla_dash_app.py:166 | the kept index list is strictly increasing and holds exactly the indices of rows that pass the mask |
| Projection.FilterIsKeptRows | tesla_dash_app.py:166 | the chart is the series read at the kept indices: the order-preserving subsequence of exactly the rows that pass the mask |
| Projection.FilterMembership | tesla_dash_app.py:166 | a row is charted if and only if it is in the series and its Year and Month are both picked |
| Projection.FilterCount | tesla_dash_app.py:166 | each row is charted as many times as it occurs in the series if it passes the mask, otherwise not at all |
| Projection.FilterConcat | tesla_dash_app.py:166 | filtering a concatenation is the concatenation of the filtered parts |
| Projection.FilterEmptySelection | tesla_dash_app.py:166 | no year picked or no month picked gives an empty chart |
| Projection.FilterNoMatch | tesla_dash_app.py:166 | picks that no row matches give an empty chart |
| Projection.FilterAllMatch | tesla_dash_app.py:166 | picks that cover every row's Year and Month chart the whole series unchanged |
| Projection.FilterWithOwnOptions | tesla_dash_app.py:166 | picking every year and month option built from a series charts that whole series |
| Projection.FrozenOptionsMissNewRows | tesla_dash_app.py:160-166 | when a fetched series has a row whose year or month is not among the start-up options, picking every option still does not chart that series whole |
| Projection.FilterDependsOnSetsOnly | tesla_dash_app.py:166 | the chart depends only on the sets of picked years and months |
| Projection.FilterIdempotent | tesla_dash_app.py:166 | filtering the chart again with the same picks changes nothing |
| Projection.Indicator | tesla_dash_app.py:179-240 | an indicator is the named column of the last row of the unfiltered series, and "no data" exactly when the series is empty |
| Projection.IndicatorIsNewestRow | tesla_dash_app.py:179-240 | appending a newest row makes the indicators show that row's fields |
| Projection.IndicatorIgnoresHistory | tesla_dash_app.py:179-240 | rows before a non-empty recent part of the series never affect an indicator |
| Projection.TwoRowScenario | tesla_dash_app.py:166 | for a January row (close 100) and a February row (close 110) of 2020, picking 2020 and January charts only the January row, while the Close indicator shows 110 from the unfiltered series, not the filtered one's value |

## Left out

- Fetching the history from Yahoo Finance (`yf.Ticker(...).history`, lines 22-23, 160-161 and each indicator callback) is network I/O from an external library. A fetched series is a parameter.
- Deriving Year and Month from the Date column with `pd.DatetimeIndex` (lines 25-26, 163-164) is library date handling. `year` and `month` are given fields of `Bar`, and the Date column is not modelled.
- The Dash and Flask application, layout, styling, callback registration and the `callback_context` lookup (lines 14-17, 30-110, 122-123) are UI plumbing. The trigger is an explicit `Trigger` argument. Dash's rule that a callback's own output does not fire it again is not modelled.
- The plotly figure (lines 167-170), including its behaviour when no plot column is chosen, is a foreign charting library. The model stops at the filtered rows.
- Projection.Indicator: on an empty series the code's `values[-1]` raises an IndexError (lines 183, 197, 211, 225, 239); the model returns `None` there instead, so the failure of the callback is represented as a "no data" value rather than an exception.
- Prices are floats and indicators are shown as `str(value)` (lines 184-240). Float numerics and formatting are left out, and the fields are abstract integers.
- `year_options` and `month_options` are numpy arrays, and the all-toggle branch returns that array. The model uses lists of integers.
- The plot-column dropdown built from `df.columns` (line 59) and `app.run_server` (line 244) are presentation and start-up wiring.
