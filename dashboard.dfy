/** The dashboard of app.py:49-83, drawn from the loaded table on every
    render: with no rows, only the "no records" message; otherwise the last
    odometer and record-count metrics, the alerts panel and the history. */
module Dashboard {
  import opened Records
  import opened AlertEvaluator
  import opened History

  datatype View =
    | NoRecords  // the message of app.py:83
    | Panel(lastKm: nat, total: nat, notices: seq<Notice>, history: seq<Record>)

  /** One render of the dashboard over the loaded table; `today` stands for
      `date.today()`. */
  method Render(rows: seq<Record>, today: Date) returns (view: View)
    ensures view.NoRecords? <==> rows == []
    ensures view.Panel? ==>
              && (forall i :: 0 <= i < |rows| ==> rows[i].km <= view.lastKm)
              && (exists i :: 0 <= i < |rows| && rows[i].km == view.lastKm)
              && view.total == |rows|
    ensures view.Panel? ==> view.notices == Alerts(rows, view.lastKm, today)
    ensures view.Panel? ==> (NothingPending in view.notices <==> Quiet(rows, view.lastKm, today))
    ensures view.Panel? ==> NewestFirst(view.history) && multiset(view.history) == multiset(rows)
  {
    if rows == [] {
      view := NoRecords;
    } else {
      var lastKm := MaxKm(rows);
      var total := |rows|;
      var notices, alerts := EvaluateAlerts(rows, lastKm, today);
      NothingPendingIff(rows, lastKm, today);
      view := Panel(lastKm, total, notices, SortByDateDesc(rows));
    }
  }
}
