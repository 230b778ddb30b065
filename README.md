# Vehicle maintenance logbook: alert evaluation

This project models the logic of a single-user vehicle maintenance logbook
(a Streamlit page, `app.py`). Every service event is a row in a table with
the columns part/service, location, service date, odometer (km), reason,
next-change odometer and next-change date. On each render the page:

- shows the largest recorded odometer and the number of rows;
- scans the rows in stored order against two rules:
  - the distance rule: the threshold is positive and the largest odometer
    is at least the threshold minus 500 km;
  - the date rule: the next-change cell holds a date that is not after today;
- shows "nothing pending" when no row met either rule;
- lists the full history, newest service date first.

A form submission appends one row, rewrites the CSV file and reruns the page.

Modules:

- `Records` (records.dfy): the row datatype (dates as (year, month, day)
  triples in chronological order), the append and the last-odometer metric.
- `AlertEvaluator` (alerts.dfy): the two rules, the notices as a
  specification function, and the alert loop as a method proved against it.
- `History` (history.dfy): the date-descending history as a sorting function.
- `Store` (store.dfy): what the page sees after reading the CSV file back.
  It covers both the code as written and the corrected load (see Findings).
- `Dashboard` (dashboard.dfy): one render of the page over the loaded table.

`date.today()` is the parameter `today`. The CSV file is `Option<seq<Record>>`,
where `None` means the file does not exist.

Notes on the code's behaviour:

- `sort_values` (app.py:81) uses pandas' default sort, which is not stable.
  The history contract therefore promises only the order of dates and the
  permutation, and says nothing about the order of rows that share a date.
- The next-change date picker defaults to today (app.py:37), so every row
  the form makes carries a next-change date.
- Appending a row and reloading the file does not give back the row that
  was appended (see Findings).

## Model

| member | source | states |
|---|---|---|
| Records.Append | app.py:42-44 | the table grows by one row; the new row is last and every earlier row is unchanged and in the same order |
| Records.MaxKm | app.py:53 | the last-odometer metric of a non-empty table is at least every row's km and equals some row's km |
| Records.MaxKmAppend | app.py:42-53 | after an append the metric is the larger of the old metric and the new row's km |
| AlertEvaluator.DistanceDue | app.py:67 | the distance rule: threshold > 0 and largest km >= threshold - 500; a threshold of 0 is never due, a due threshold is at most largest km + 500, and a threshold in (0, 500] is always due when km is non-negative |
| AlertEvaluator.DateDue | app.py:72 | the date rule: the cell holds a date value not after today; a non-date cell or a date strictly after today is never due, a date equal to today is |
| AlertEvaluator.RowNotices | app.py:66-74 | one row's notices: at most two, the distance notice before the date notice when both are raised, never "nothing pending" |
| AlertEvaluator.AlertNotices | app.py:63-74 | the notices raised over the table in stored row order: at most two per row (that no row raises "nothing pending" is stated by QuietIff) |
| AlertEvaluator.Alerts | app.py:63-77 | the alerts panel is never blank; when "nothing pending" appears it is the only notice |
| AlertEvaluator.EvaluateAlerts | app.py:63-77 | the loop emits exactly the specified notices in row order, adding "nothing pending" only when nothing was raised; the `alertas` flag is set iff some row meets a rule |
| AlertEvaluator.AlertNoticesConcat | app.py:66-74 | the notices of two tables laid end to end are the first table's notices followed by the second's |
| AlertEvaluator.AlertsInRowOrder | app.py:66-74 | row i's notices sit after those of all earlier rows and before those of all later rows |
| AlertEvaluator.DueSoonIff | app.py:67-68 | a distance notice (part, N) is shown iff some row with that part and threshold N has N > 0 and largest km >= N - 500 |
| AlertEvaluator.OverdueIff | app.py:72-73 | a date notice (part, d) is shown iff some row with that part holds the date value d and d <= today; text cells and strictly future dates raise none |
| AlertEvaluator.QuietIff | app.py:63-77 | no notice is raised iff no row meets either rule; the rows never raise "nothing pending" themselves |
| AlertEvaluator.NothingPendingIff | app.py:76-77 | "nothing pending" appears iff no row meets either rule, and then it is the only notice |
| AlertEvaluator.ZeroThresholdNeverDueSoon | app.py:67 | a row with threshold 0 never raises a distance notice, whatever the largest km is |
| AlertEvaluator.SmallThresholdAlwaysDueSoon | app.py:67 | since odometers are never negative (app.py:31), a row with 0 < threshold <= 500 always raises its distance notice |
| AlertEvaluator.OilFilterScenario | app.py:63-77 | one row at 9600 km, due at 10000 km and on 2099-01-01, seen before that date: exactly one distance notice and no date notice |
| History.SortByDateDesc | app.py:81 | the history holds every row (a permutation, nothing filtered) with service dates non-increasing |
| Store.ReadBackAsWritten | app.py:14-15 | a reloaded row keeps every column except the next-change date, which is no longer a date value |
| Store.LoadAsWritten | app.py:12-18 | a missing file loads as the empty table; otherwise as many rows as stored, each read back without its next-change date |
| Store.AsWrittenNeverOverdue | app.py:72 | as written, no reloaded table ever raises a date notice, for any today |
| Store.AsWrittenRoundTripFails | app.py:14-15 | as written, a submitted row with the default dates is due by date before saving, but after reload it differs from the submitted row and raises no date notice |
| Store.Load | app.py:12-18 | corrected load: a missing file gives the empty table; otherwise the stored rows come back exactly as written, every column included, next-change dates still date values |
| Store.SubmitRoundTrip | app.py:42-45 | with the corrected load, saving after a submission and loading back gives the old table followed by the new row (by definition of the corrected load; the as-written failure is the substance) |
| Store.LoadedDueDateRaisesOverdue | app.py:72-73 | with the corrected load, a stored row whose next-change date is not after today raises its date notice |
| Dashboard.Render | app.py:50-83 | an empty table shows only "no records"; otherwise the metrics are the max km and the row count, the notices are as specified, "nothing pending" appears iff no row meets a rule, and the history is a newest-first permutation |

## Left out

- Streamlit rendering is not modelled: page setup, sidebar form widgets, metric/warning/error/info formatting and `st.rerun`. It is presentation only. Notices are values of kind, part and threshold, not formatted text.
- The static "Status Geral" metric and the `gasto_estimado` placeholder are not modelled. They carry no logic.
- CSV text encoding and parsing (`read_csv`, `to_csv`, `pd.to_datetime`) are not modelled beyond whether the next-change date comes back as a date value. This is library code. For example, pandas' inference of other column types (an empty part name reading back as NaN) is not modelled.
- A malformed CSV file, and a failed write in `to_csv`, raise exceptions in the source. The model does not include these error paths.
- `date.today()` is the parameter `today`, not a clock.
- Dates are any (year, month, day) triple in lexicographic order. Calendar validity (month and day ranges) is not checked, because the comparison does not depend on it.
- History.SortByDateDesc: fixes one order for rows with equal service dates, and its contract promises none, because pandas' default sort is not stable.

## Findings

| source | as written | input that shows it | evidently intended | confidence | as-written member | corrected member |
|---|---|---|---|---|---|---|
| app.py:15 | `load_data` converts only the `data` column back to dates. `proxima_troca_data` reloads as text, which fails the `isinstance(..., date)` test at app.py:72. Every submission reruns the page and reloads the file (app.py:45-47), so every rendered row is a reloaded one. | submit any row; the form always gives a next-change date, today by default. On that day and every later render, no "Vencido por Data" notice appears | convert both date columns on load, so that a due next-change date raises its notice | high; not executed | Store.AsWrittenRoundTripFails | Store.LoadedDueDateRaisesOverdue |
