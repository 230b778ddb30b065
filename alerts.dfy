/** The maintenance-alert evaluation of app.py:61-77: every row is checked,
    in stored order, against a distance rule and a date rule, and a single
    "nothing pending" notice is shown when no row raised anything. */
module AlertEvaluator {
  import opened Records

  /** What the alerts panel shows, without its formatting. */
  datatype Notice =
    | DueSoon(part: string, thresholdKm: nat)  // the warning of app.py:68
    | Overdue(part: string, dueDate: Date)     // the error of app.py:73
    | NothingPending                           // the info line of app.py:77

  /** The fixed early-warning margin of the distance rule, in km. */
  const Margin: int := 500

  /** Distance rule (app.py:67): a threshold of 0 means "no distance alert";
      odometers are never negative, so a threshold up to the margin is always due. */
  function DistanceDue(r: Record, maxKm: int): (due: bool)
    ensures r.nextChangeKm == 0 ==> !due
    ensures due ==> 0 < r.nextChangeKm <= maxKm + Margin
    ensures 0 < r.nextChangeKm <= Margin && maxKm >= 0 ==> due
  {
    r.nextChangeKm > 0 && maxKm >= r.nextChangeKm - Margin
  }

  /** Date rule (app.py:72): the cell must hold a date, and that date must
      not lie after today. A cell that is not a date, or a date strictly
      after today, is never due. */
  function DateDue(r: Record, today: Date): (due: bool)
    ensures r.nextChangeDate.None? ==> !due
    ensures (r.nextChangeDate.Some? && r.nextChangeDate.value != today
             && DateLe(today, r.nextChangeDate.value)) ==> !due
    ensures r.nextChangeDate == Some(today) ==> due
  {
    r.nextChangeDate.Some? && DateLe(r.nextChangeDate.value, today)
  }

  /** The notices one row contributes: at most one of each kind, the
      distance one first, then the date one. */
  function RowNotices(r: Record, maxKm: int, today: Date): (ns: seq<Notice>)
    ensures |ns| <= 2
    ensures NothingPending !in ns
    ensures |ns| == 2 ==> ns[0].DueSoon? && ns[1].Overdue?
  {
    (if DistanceDue(r, maxKm) then [DueSoon(r.part, r.nextChangeKm)] else [])
    + (if DateDue(r, today) then [Overdue(r.part, r.nextChangeDate.value)] else [])
  }

  /** The notices the rows raise, row after row in stored order; each row
      adds at most two. */
  function AlertNotices(rows: seq<Record>, maxKm: int, today: Date): (ns: seq<Notice>)
    ensures |ns| <= 2 * |rows|
  {
    if rows == [] then []
    else AlertNotices(rows[..|rows| - 1], maxKm, today) + RowNotices(rows[|rows| - 1], maxKm, today)
  }

  /** The whole panel: the raised notices, or the single "nothing pending"
      line when there are none. The panel is never blank. */
  function Alerts(rows: seq<Record>, maxKm: int, today: Date): (ns: seq<Notice>)
    ensures ns != []
    ensures NothingPending in ns ==> ns == [NothingPending]
  {
    var raised := AlertNotices(rows, maxKm, today);
    QuietIff(rows, maxKm, today);
    if raised == [] then [NothingPending] else raised
  }

  /** No row meets either rule. */
  predicate Quiet(rows: seq<Record>, maxKm: int, today: Date) {
    forall i :: 0 <= i < |rows| ==> !DistanceDue(rows[i], maxKm) && !DateDue(rows[i], today)
  }

  /** The loop of app.py:63-77 over `df.iterrows()`, with its `alertas` flag. */
  method EvaluateAlerts(rows: seq<Record>, maxKm: int, today: Date) returns (notices: seq<Notice>, alerts: bool)
    ensures alerts <==> !Quiet(rows, maxKm, today)
    ensures notices == Alerts(rows, maxKm, today)
  {
    notices, alerts := [], false;
    for i := 0 to |rows|
      invariant notices == AlertNotices(rows[..i], maxKm, today)
      invariant alerts <==> notices != []
    {
      var row := rows[i];
      ghost var before := notices;
      if row.nextChangeKm > 0 && maxKm >= row.nextChangeKm - Margin {
        notices := notices + [DueSoon(row.part, row.nextChangeKm)];
        alerts := true;
      }
      if row.nextChangeDate.Some? && DateLe(row.nextChangeDate.value, today) {
        notices := notices + [Overdue(row.part, row.nextChangeDate.value)];
        alerts := true;
      }
      assert notices == before + RowNotices(row, maxKm, today);
      AlertNoticesStep(rows, i, maxKm, today);
    }
    assert rows[..|rows|] == rows;
    QuietIff(rows, maxKm, today);
    if !alerts {
      notices := notices + [NothingPending];
    }
  }

  /** Scanning one more row adds that row's notices at the end. */
  lemma AlertNoticesStep(rows: seq<Record>, i: int, maxKm: int, today: Date)
    requires 0 <= i < |rows|
    ensures AlertNotices(rows[..i + 1], maxKm, today) == AlertNotices(rows[..i], maxKm, today) + RowNotices(rows[i], maxKm, today)
  {
    assert rows[..i + 1][..i] == rows[..i];
  }

  /** The notices of two tables laid end to end are those of the first
      followed by those of the second. */
  lemma {:induction false} AlertNoticesConcat(a: seq<Record>, b: seq<Record>, maxKm: int, today: Date)
    ensures AlertNotices(a + b, maxKm, today) == AlertNotices(a, maxKm, today) + AlertNotices(b, maxKm, today)
  {
    if b == [] {
      assert a + b == a;
    } else {
      var front, last := b[..|b| - 1], b[|b| - 1];
      assert (a + b)[..|a + b| - 1] == a + front;
      assert (a + b)[|a + b| - 1] == last;
      calc {
        AlertNotices(a + b, maxKm, today);
        AlertNotices(a + front, maxKm, today) + RowNotices(last, maxKm, today);
        { AlertNoticesConcat(a, front, maxKm, today); }
        AlertNotices(a, maxKm, today) + AlertNotices(front, maxKm, today) + RowNotices(last, maxKm, today);
        AlertNotices(a, maxKm, today) + AlertNotices(b, maxKm, today);
      }
    }
  }

  /** Notices follow stored row order: row i's notices come after those of
      every earlier row and before those of every later row. */
  lemma {:induction false} AlertsInRowOrder(rows: seq<Record>, maxKm: int, today: Date, i: int)
    requires 0 <= i < |rows|
    ensures AlertNotices(rows, maxKm, today)
         == AlertNotices(rows[..i], maxKm, today) + RowNotices(rows[i], maxKm, today)
            + AlertNotices(rows[i + 1..], maxKm, today)
  {
    assert rows == rows[..i] + [rows[i]] + rows[i + 1..];
    AlertNoticesConcat(rows[..i] + [rows[i]], rows[i + 1..], maxKm, today);
    AlertNoticesConcat(rows[..i], [rows[i]], maxKm, today);
    assert [rows[i]][..0] == [];
  }

  /** A distance notice for part p with threshold n is shown exactly when
      some row with that part and threshold meets the distance rule. */
  lemma {:induction false} DueSoonIff(rows: seq<Record>, maxKm: int, today: Date, p: string, n: nat)
    ensures DueSoon(p, n) in AlertNotices(rows, maxKm, today)
        <==> exists i :: 0 <= i < |rows| && rows[i].part == p && rows[i].nextChangeKm == n
                         && DistanceDue(rows[i], maxKm)
  {
    if rows != [] {
      var front := rows[..|rows| - 1];
      DueSoonIff(front, maxKm, today, p, n);
      if exists i :: 0 <= i < |front| && front[i].part == p && front[i].nextChangeKm == n
                     && DistanceDue(front[i], maxKm) {
        var i :| 0 <= i < |front| && front[i].part == p && front[i].nextChangeKm == n
                 && DistanceDue(front[i], maxKm);
        assert rows[i] == front[i];
      }
      forall i | 0 <= i < |rows| - 1 ensures rows[i] == front[i] {}
    }
  }

  /** A date notice for part p due on d is shown exactly when some row with
      that part holds the date d and d is not after today. */
  lemma {:induction false} OverdueIff(rows: seq<Record>, maxKm: int, today: Date, p: string, d: Date)
    ensures Overdue(p, d) in AlertNotices(rows, maxKm, today)
        <==> exists i :: 0 <= i < |rows| && rows[i].part == p && rows[i].nextChangeDate == Some(d)
                         && DateLe(d, today)
  {
    if rows != [] {
      var front := rows[..|rows| - 1];
      OverdueIff(front, maxKm, today, p, d);
      if exists i :: 0 <= i < |front| && front[i].part == p && front[i].nextChangeDate == Some(d)
                     && DateLe(d, today) {
        var i :| 0 <= i < |front| && front[i].part == p && front[i].nextChangeDate == Some(d)
                 && DateLe(d, today);
        assert rows[i] == front[i];
      }
      forall i | 0 <= i < |rows| - 1 ensures rows[i] == front[i] {}
    }
  }

  /** No notice is raised exactly when no row meets either rule; the rows
      themselves never raise "nothing pending". */
  lemma {:induction false} QuietIff(rows: seq<Record>, maxKm: int, today: Date)
    ensures AlertNotices(rows, maxKm, today) == [] <==> Quiet(rows, maxKm, today)
    ensures NothingPending !in AlertNotices(rows, maxKm, today)
  {
    if rows != [] {
      var front := rows[..|rows| - 1];
      QuietIff(front, maxKm, today);
      forall i | 0 <= i < |rows| - 1 ensures rows[i] == front[i] {}
    }
  }

  /** "Nothing pending" appears exactly when no row meets either rule, and
      then it is the only notice. */
  lemma {:induction false} NothingPendingIff(rows: seq<Record>, maxKm: int, today: Date)
    ensures NothingPending in Alerts(rows, maxKm, today) <==> Quiet(rows, maxKm, today)
    ensures NothingPending in Alerts(rows, maxKm, today) ==> Alerts(rows, maxKm, today) == [NothingPending]
  {
    QuietIff(rows, maxKm, today);
  }

  /** A row whose distance threshold is 0 never raises a distance notice,
      whatever the largest odometer reading is. */
  lemma {:induction false} ZeroThresholdNeverDueSoon(rows: seq<Record>, maxKm: int, today: Date, p: string)
    ensures DueSoon(p, 0) !in Alerts(rows, maxKm, today)
  {
    DueSoonIff(rows, maxKm, today, p, 0);
  }

  /** Odometers are never negative, so a threshold in (0, 500] raises a
      distance notice on every render. */
  lemma {:induction false} SmallThresholdAlwaysDueSoon(rows: seq<Record>, today: Date, i: int)
    requires 0 <= i < |rows|
    requires 0 < rows[i].nextChangeKm <= Margin
    ensures DueSoon(rows[i].part, rows[i].nextChangeKm) in Alerts(rows, MaxKm(rows), today)
  {
    DueSoonIff(rows, MaxKm(rows), today, rows[i].part, rows[i].nextChangeKm);
  }

  /** One oil-filter row at 9600 km, due at 10000 km and on 2099-01-01,
      seen on any earlier day, raises exactly one distance notice and no
      date notice. */
  lemma OilFilterScenario(today: Date)
    requires !DateLe(Date(2099, 1, 1), today)
    ensures var row := Record("Oil Filter", "", today, 9600, Preventive, 10000, Some(Date(2099, 1, 1)));
            Alerts([row], MaxKm([row]), today) == [DueSoon("Oil Filter", 10000)]
  {
  }
}
