/** The CSV file behind the logbook (app.py:9-18, 45) and what the dashboard
    sees after reading it back. The file is `None` while it does not exist
    and otherwise holds the rows `to_csv` wrote. Parsing of text cells is
    not modelled, except for the one thing that matters to the alerts:
    whether a date column comes back as a date value.

    As written, `load_data` turns only the `data` column back into dates
    (app.py:15); the next-change date comes back as text, which the date
    rule refuses (app.py:72). Because every submission ends with a rerun
    that reloads the file (app.py:45-47, 23), every rendered row is a
    reloaded one, and the date rule can never fire. `LoadAsWritten` is that
    behaviour; `Load` converts both date columns, as evidently intended. */
module Store {
  import opened Records
  import opened AlertEvaluator

  /** What reading one stored row gives as written: the next-change date is
      no longer a date value; every other column is as stored. */
  function ReadBackAsWritten(stored: Record): (r: Record)
    ensures r.nextChangeDate.None?
    ensures r.(nextChangeDate := stored.nextChangeDate) == stored
  {
    stored.(nextChangeDate := None)
  }

  /** `load_data` as written (app.py:12-18): a missing file gives the empty
      table; otherwise every row comes back with its next-change date as text. */
  function LoadAsWritten(file: Option<seq<Record>>): (rows: seq<Record>)
    ensures file.None? ==> rows == []
    ensures file.Some? ==> |rows| == |file.value|
    ensures file.Some? ==> forall i :: 0 <= i < |rows| ==> rows[i] == ReadBackAsWritten(file.value[i])
  {
    match file
    case None => []
    case Some(stored) => seq(|stored|, i requires 0 <= i < |stored| => ReadBackAsWritten(stored[i]))
  }

  /** `load_data` with both date columns converted: a missing file gives the
      empty table, otherwise the rows as they were written. */
  function Load(file: Option<seq<Record>>): (rows: seq<Record>)
    ensures file.None? ==> rows == []
    ensures file.Some? ==> |rows| == |file.value|
    ensures file.Some? ==> forall i :: 0 <= i < |rows| ==> rows[i].nextChangeDate == file.value[i].nextChangeDate
    ensures file.Some? ==> rows == file.value
  {
    match file
    case None => []
    case Some(stored) => stored
  }

  /** As written, no reloaded row ever raises a date notice, whatever today is. */
  lemma {:induction false} AsWrittenNeverOverdue(file: Option<seq<Record>>, maxKm: int, today: Date, p: string, d: Date)
    ensures Overdue(p, d) !in Alerts(LoadAsWritten(file), maxKm, today)
  {
    OverdueIff(LoadAsWritten(file), maxKm, today, p, d);
  }

  /** A witness: an oil change submitted with the form's default dates (both
      today) is due by date before it is saved, but after the save-and-reload
      it is no longer the row that was submitted and raises no date notice. */
  lemma AsWrittenRoundTripFails(today: Date)
    ensures var entry := Record("Oil", "Garage", today, 0, Preventive, 0, Some(today));
            && LoadAsWritten(Some(Append([], entry))) != [entry]
            && Alerts([entry], 0, today) == [Overdue("Oil", today)]
            && Alerts(LoadAsWritten(Some(Append([], entry))), 0, today) == [NothingPending]
  {
  }

  /** With both date columns converted, saving the table after a submission
      and loading it back gives the table before it followed by the new row.
      This holds by definition, since the corrected load returns the stored
      rows unchanged; what the round trip is worth lies in its failure as
      written (AsWrittenRoundTripFails, AsWrittenNeverOverdue). */
  lemma {:induction false} SubmitRoundTrip(file: Option<seq<Record>>, entry: Record)
    ensures Load(Some(Append(Load(file), entry))) == Load(file) + [entry]
    ensures Load(Some(Append(Load(file), entry)))[|Load(file)|] == entry
  {
  }

  /** With both date columns converted, a stored row whose next-change date
      is not after today raises its date notice. */
  lemma {:induction false} LoadedDueDateRaisesOverdue(rows: seq<Record>, maxKm: int, today: Date, i: int)
    requires 0 <= i < |rows|
    requires DateDue(rows[i], today)
    ensures Overdue(rows[i].part, rows[i].nextChangeDate.value) in Alerts(Load(Some(rows)), maxKm, today)
  {
    OverdueIff(rows, maxKm, today, rows[i].part, rows[i].nextChangeDate.value);
  }
}
