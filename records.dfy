/** The maintenance table of the logbook: one row per logged service event,
    with the columns of app.py:18, and the two expressions the dashboard
    computes over it (the table append of the form submission and the
    last-odometer metric). */
module Records {

  datatype Option<+T> = None | Some(value: T)

  /** A calendar date, as Python's `datetime.date`. Dates are ordered
      chronologically, which on (year, month, day) is lexicographic order. */
  datatype Date = Date(year: int, month: int, day: int)

  predicate DateLe(a: Date, b: Date) {
    a.year < b.year
    || (a.year == b.year && (a.month < b.month || (a.month == b.month && a.day <= b.day)))
  }

  /** The four choices of the "Motivo" select box (app.py:32). */
  datatype Reason = Preventive | Corrective | Cosmetic | Upgrade

  /** One row of the table. The columns, in order, are peça_serviço, local,
      data, km, motivo, proxima_troca_km and proxima_troca_data. Both
      odometer fields come from inputs with a minimum of 0 (app.py:31, 36).
      The next-change date is `None` when the cell does not hold a date
      value (for instance the text a CSV reload leaves there). */
  datatype Record = Record(
    part: string,
    location: string,
    serviceDate: Date,
    km: nat,
    reason: Reason,
    nextChangeKm: nat,
    nextChangeDate: Option<Date>)

  /** The submission appends the new row at the end of the table
      (`pd.concat` with `ignore_index=True`, app.py:42-44). */
  function Append(rows: seq<Record>, entry: Record): (table: seq<Record>)
    ensures |table| == |rows| + 1
    ensures table[|rows|] == entry
    ensures table[..|rows|] == rows
  {
    rows + [entry]
  }

  /** `df['km'].max()` (app.py:53): only taken when the table is not empty
      (app.py:52). It bounds every row's odometer and is one of them. */
  function MaxKm(rows: seq<Record>): (m: nat)
    requires rows != []
    ensures forall i :: 0 <= i < |rows| ==> rows[i].km <= m
    ensures exists i :: 0 <= i < |rows| && rows[i].km == m
  {
    if |rows| == 1 then rows[0].km
    else
      var rest := MaxKm(rows[1..]);
      if rows[0].km > rest then rows[0].km else rest
  }

  /** Appending a row moves the last-odometer metric to the larger of the
      old metric and the new row's odometer. */
  lemma MaxKmAppend(rows: seq<Record>, entry: Record)
    requires rows != []
    ensures MaxKm(Append(rows, entry)) == if entry.km > MaxKm(rows) then entry.km else MaxKm(rows)
  {
  }
}
