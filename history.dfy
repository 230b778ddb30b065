/** The history table of app.py:81: every row, most recent service date
    first (`df.sort_values(by='data', ascending=False)`). The order of rows
    that share a service date is not promised, because the default pandas
    sort is not stable; this model fixes one order for them and its
    contracts say nothing about it. */
module History {
  import opened Records

  /** Service dates never increase along the sequence. */
  predicate NewestFirst(s: seq<Record>) {
    forall i, j :: 0 <= i < j < |s| ==> DateLe(s[j].serviceDate, s[i].serviceDate)
  }

  /** Each row's service date is not after the one before it. */
  predicate StepwiseNewestFirst(s: seq<Record>) {
    forall i :: 0 < i < |s| ==> DateLe(s[i].serviceDate, s[i - 1].serviceDate)
  }

  lemma {:induction false} StepwiseIsNewestFirst(s: seq<Record>)
    requires StepwiseNewestFirst(s)
    ensures NewestFirst(s)
  {
    if |s| > 1 {
      StepwiseIsNewestFirst(s[1..]);
      forall j | 0 < j < |s| ensures DateLe(s[j].serviceDate, s[0].serviceDate) {
        if j > 1 {
          assert DateLe(s[j].serviceDate, s[1].serviceDate) by {
            assert s[j] == s[1..][j - 1] && s[1] == s[1..][0];
          }
        }
      }
      forall i, j | 0 < i < j < |s| ensures DateLe(s[j].serviceDate, s[i].serviceDate) {
        assert s[j] == s[1..][j - 1] && s[i] == s[1..][i - 1];
      }
    }
  }

  /** Places one row into a newest-first sequence. */
  function Insert(r: Record, s: seq<Record>): (t: seq<Record>)
    requires StepwiseNewestFirst(s)
    ensures StepwiseNewestFirst(t)
    ensures multiset(t) == multiset(s) + multiset{r}
    ensures t[0] == r || (s != [] && t[0] == s[0])
  {
    if s == [] then [r]
    else if DateLe(s[0].serviceDate, r.serviceDate) then [r] + s
    else
      var rest := Insert(r, s[1..]);
      assert s == [s[0]] + s[1..];
      [s[0]] + rest
  }

  /** The history view: all rows, none filtered out, newest service first. */
  function SortByDateDesc(rows: seq<Record>): (h: seq<Record>)
    ensures NewestFirst(h)
    ensures multiset(h) == multiset(rows)
    ensures |h| == |rows|
  {
    var h := InsertAll(rows);
    StepwiseIsNewestFirst(h);
    assert |h| == |multiset(h)| == |multiset(rows)| == |rows|;
    h
  }

  /** Insertion sort, one row at a time from the back of the table. */
  function InsertAll(rows: seq<Record>): (h: seq<Record>)
    ensures StepwiseNewestFirst(h)
    ensures multiset(h) == multiset(rows)
  {
    if rows == [] then []
    else
      assert rows == [rows[0]] + rows[1..];
      Insert(rows[0], InsertAll(rows[1..]))
  }
}
