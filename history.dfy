/**
 * The "Historical Data Analysis" tab of tabs/history_tab.py: the metric list offered for selection,
 * the per-metric view, the default 24-hour zoom window clamped to the data's span, the inclusive
 * time-range view and the minimum and maximum of the visible values.
 */
module History {
  import opened Base

  /** One row of the monitoring history log: its time in whole seconds, its metric and its value, None for NaN. */
  datatype Row = Row(time: int, metric: string, value: Option<real>)

  /** `timedelta(hours=24)`, in seconds. */
  const Day: int := 24 * 60 * 60

  // ---------------------------------------------------------------------------------------------
  // The metric list (history_tab.py:31)

  /** Python's ordering of strings: by code point, a proper prefix first. */
  predicate Below(a: string, b: string)
  {
    if a == [] then b != []
    else if b == [] then false
    else if a[0] != b[0] then a[0] < b[0]
    else Below(a[1..], b[1..])
  }

  lemma {:induction false} BelowIrreflexive(a: string)
    ensures !Below(a, a)
  {
    if a != [] {
      BelowIrreflexive(a[1..]);
    }
  }

  lemma {:induction false} BelowTransitive(a: string, b: string, c: string)
    requires Below(a, b) && Below(b, c)
    ensures Below(a, c)
  {
    if a != [] && a[0] == b[0] && b[0] == c[0] {
      BelowTransitive(a[1..], b[1..], c[1..]);
    }
  }

  lemma {:induction false} BelowTotal(a: string, b: string)
    requires a != b
    ensures Below(a, b) || Below(b, a)
  {
    if a != [] && b != [] && a[0] == b[0] {
      assert a == [a[0]] + a[1..] && b == [b[0]] + b[1..];
      BelowTotal(a[1..], b[1..]);
    }
  }

  /** Strictly increasing, hence without duplicates. */
  predicate Sorted(s: seq<string>)
  {
    forall i, j :: 0 <= i < j < |s| ==> Below(s[i], s[j])
  }

  /** A strictly increasing list holds each string once. */
  lemma SortedNoDup(s: seq<string>)
    requires Sorted(s)
    ensures NoDup(s)
  {
    forall i, j | 0 <= i < j < |s|
      ensures s[i] != s[j]
    {
      if s[i] == s[j] {
        BelowIrreflexive(s[i]);
      }
    }
  }

  /** `x` put in its place in a sorted list, unless it is already there. */
  function Insert(s: seq<string>, x: string): seq<string>
  {
    if s == [] then [x]
    else if x == s[0] then s
    else if Below(x, s[0]) then [x] + s
    else [s[0]] + Insert(s[1..], x)
  }

  lemma {:induction false} InsertSpec(s: seq<string>, x: string)
    requires Sorted(s)
    ensures Sorted(Insert(s, x))
    ensures forall m :: m in Insert(s, x) <==> m in s || m == x
  {
    if s != [] && x != s[0] && !Below(x, s[0]) {
      InsertSpec(s[1..], x);
      BelowTotal(x, s[0]);
      var r := Insert(s[1..], x);
      forall j | 0 <= j < |r|
        ensures Below(s[0], r[j])
      {
        assert r[j] in r;
        if r[j] != x {
          assert r[j] in s[1..];
          var k :| 0 <= k < |s| - 1 && s[1..][k] == r[j];
          assert s[k + 1] == r[j];
        }
      }
    } else if s != [] && x != s[0] {
      forall j | 1 <= j < |s|
        ensures Below(x, s[j])
      {
        BelowTransitive(x, s[0], s[j]);
      }
    }
  }

  /** The distinct strings of `ms`, in ascending order (`sorted(....unique())`). */
  function SortedUnique(ms: seq<string>): seq<string>
  {
    if ms == [] then [] else Insert(SortedUnique(ms[..|ms| - 1]), ms[|ms| - 1])
  }

  /** The list is sorted, holds no duplicates, and holds exactly the strings of `ms`. */
  lemma {:induction false} SortedUniqueSpec(ms: seq<string>)
    ensures Sorted(SortedUnique(ms))
    ensures NoDup(SortedUnique(ms))
    ensures forall m :: m in SortedUnique(ms) <==> m in ms
  {
    if ms != [] {
      var n := |ms| - 1;
      SortedUniqueSpec(ms[..n]);
      InsertSpec(SortedUnique(ms[..n]), ms[n]);
      assert ms == ms[..n] + [ms[n]];
    }
    SortedNoDup(SortedUnique(ms));
  }

  /** Two strictly increasing lists with the same strings are the same list: the sorted metric list is unique. */
  lemma {:induction false} SortedDetermined(a: seq<string>, b: seq<string>)
    requires Sorted(a) && Sorted(b)
    requires forall m :: m in a <==> m in b
    ensures a == b
  {
    if a != [] {
      assert a[0] in b;
    }
    if b != [] {
      assert b[0] in a;
    }
    if a != [] && b != [] {
      assert a[0] in a && b[0] in b;
      if a[0] != b[0] {
        var i :| 0 <= i < |a| && a[i] == b[0];
        var j :| 0 <= j < |b| && b[j] == a[0];
        BelowTransitive(a[0], b[0], a[0]);
        BelowIrreflexive(a[0]);
      }
      forall m
        ensures m in a[1..] <==> m in b[1..]
      {
        if m in a[1..] {
          var i :| 0 <= i < |a| - 1 && a[1..][i] == m;
          assert a[i + 1] == m && m in a && m in b;
          BelowIrreflexive(a[0]);
          var j :| 0 <= j < |b| && b[j] == m;
          assert j != 0;
          assert b[1..][j - 1] == m;
        }
        if m in b[1..] {
          var j :| 0 <= j < |b| - 1 && b[1..][j] == m;
          assert b[j + 1] == m && m in b && m in a;
          BelowIrreflexive(b[0]);
          var i :| 0 <= i < |a| && a[i] == m;
          assert i != 0;
          assert a[1..][i - 1] == m;
        }
      }
      SortedDetermined(a[1..], b[1..]);
    }
  }

  function Metrics(rows: seq<Row>): (ms: seq<string>)
    ensures |ms| == |rows| && forall i :: 0 <= i < |rows| ==> ms[i] == rows[i].metric
  {
    seq(|rows|, i requires 0 <= i < |rows| => rows[i].metric)
  }

  /** The metrics offered for selection: those of the log, each once, in ascending order. */
  function AvailableMetrics(rows: seq<Row>): seq<string>
  {
    SortedUnique(Metrics(rows))
  }

  /**
   * The offered metrics are sorted ascending without duplicates, are exactly the metrics the log
   * holds, and are offered whenever the log has a row.
   */
  lemma AvailableMetricsSpec(rows: seq<Row>)
    ensures Sorted(AvailableMetrics(rows)) && NoDup(AvailableMetrics(rows))
    ensures forall m :: m in AvailableMetrics(rows) <==> exists i :: 0 <= i < |rows| && rows[i].metric == m
    ensures rows != [] ==> AvailableMetrics(rows) != []
  {
    SortedUniqueSpec(Metrics(rows));
    if rows != [] {
      assert Metrics(rows)[0] in AvailableMetrics(rows);
    }
  }

  // ---------------------------------------------------------------------------------------------
  // The per-metric view, the window and the range (history_tab.py:40-74)

  /** `hist_df[hist_df["metric"] == selected]`. */
  function MetricRows(rows: seq<Row>, selected: string): (r: seq<Row>)
    ensures forall x :: x in r <==> x in rows && x.metric == selected
  {
    Filter(rows, (x: Row) => x.metric == selected)
  }

  /** A metric offered for selection always has rows. */
  lemma SelectedHasRows(rows: seq<Row>, selected: string)
    requires selected in AvailableMetrics(rows)
    ensures MetricRows(rows, selected) != []
  {
    AvailableMetricsSpec(rows);
    var i :| 0 <= i < |rows| && rows[i].metric == selected;
    assert rows[i] in MetricRows(rows, selected);
  }

  function MinTime(rows: seq<Row>): (t: int)
    requires rows != []
    ensures forall x :: x in rows ==> t <= x.time
    ensures exists x :: x in rows && x.time == t
  {
    if |rows| == 1 then rows[0].time
    else
      var m := MinTime(rows[1..]);
      assert rows[1..][0] == rows[1];
      if rows[0].time <= m then rows[0].time else m
  }

  function MaxTime(rows: seq<Row>): (t: int)
    requires rows != []
    ensures forall x :: x in rows ==> x.time <= t
    ensures exists x :: x in rows && x.time == t
  {
    if |rows| == 1 then rows[0].time
    else
      var m := MaxTime(rows[1..]);
      assert rows[1..][0] == rows[1];
      if rows[0].time >= m then rows[0].time else m
  }

  /** Too few points to zoom: one row or none, or every row at the same time. */
  predicate Degenerate(rows: seq<Row>)
  {
    |rows| <= 1 || MinTime(rows) == MaxTime(rows)
  }

  /** The default zoom: the last 24 hours of the data, or all of it when it spans less. */
  function DefaultWindow(rows: seq<Row>): (w: (int, int))
    requires rows != []
  {
    var start := MaxTime(rows) - Day;
    (if start < MinTime(rows) then MinTime(rows) else start, MaxTime(rows))
  }

  /**
   * The default window ends at the newest time and starts 24 hours earlier, or at the oldest time
   * when that is later, so it lies within the data's span and spans at most 24 hours.
   */
  lemma DefaultWindowSpec(rows: seq<Row>)
    requires rows != []
    ensures var (start, end) := DefaultWindow(rows);
            && end == MaxTime(rows)
            && start == (if MaxTime(rows) - Day >= MinTime(rows) then MaxTime(rows) - Day else MinTime(rows))
            && MinTime(rows) <= start <= end
            && end - start <= Day
  {
  }

  /** The rows with `start <= time <= end`, both bounds included, in log order. */
  function InRange(rows: seq<Row>, start: int, end: int): (r: seq<Row>)
    ensures forall x :: x in r <==> x in rows && start <= x.time <= end
  {
    Filter(rows, (x: Row) => start <= x.time && x.time <= end)
  }

  /**
   * The range filter keeps rows in their log order: filtering a log that is cut in two filters
   * each part; and a range that covers every row keeps the whole log.
   */
  lemma InRangeOrder(a: seq<Row>, b: seq<Row>, start: int, end: int)
    ensures InRange(a + b, start, end) == InRange(a, start, end) + InRange(b, start, end)
    ensures (forall x :: x in a ==> start <= x.time <= end) ==> InRange(a, start, end) == a
  {
    var p := (x: Row) => start <= x.time && x.time <= end;
    FilterAppend(a, b, p);
    if forall x :: x in a ==> start <= x.time <= end {
      FilterAll(a, p);
    }
  }

  /** The default window always shows the newest point. */
  lemma DefaultWindowShowsNewest(rows: seq<Row>)
    requires rows != []
    ensures var (start, end) := DefaultWindow(rows);
            exists x :: x in InRange(rows, start, end) && x.time == MaxTime(rows)
  {
    var newest := MaxTime(rows);
    var x :| x in rows && x.time == newest;
    DefaultWindowSpec(rows);
    assert x in InRange(rows, DefaultWindow(rows).0, DefaultWindow(rows).1);
  }

  // ---------------------------------------------------------------------------------------------
  // Statistics (history_tab.py:82-88)

  /** `view_df["value"].dropna()`. */
  function Values(rows: seq<Row>): (vs: seq<real>)
    ensures forall v :: v in vs <==> exists x :: x in rows && x.value == Some(v)
  {
    if rows == [] then []
    else
      var rest := Values(rows[1..]);
      assert forall x :: x in rows <==> x == rows[0] || x in rows[1..];
      (if rows[0].value.Some? then [rows[0].value.value] else []) + rest
  }

  function MinValue(vs: seq<real>): (m: real)
    requires vs != []
    ensures m in vs && forall v :: v in vs ==> m <= v
  {
    if |vs| == 1 then vs[0]
    else
      var rest := MinValue(vs[1..]);
      assert vs == [vs[0]] + vs[1..];
      if vs[0] <= rest then vs[0] else rest
  }

  function MaxValue(vs: seq<real>): (m: real)
    requires vs != []
    ensures m in vs && forall v :: v in vs ==> v <= m
  {
    if |vs| == 1 then vs[0]
    else
      var rest := MaxValue(vs[1..]);
      assert vs == [vs[0]] + vs[1..];
      if vs[0] >= rest then vs[0] else rest
  }

  datatype Stats = Stats(min: real, max: real)

  /** The statistics of the visible rows: none when no value is a number. */
  function StatsOf(rows: seq<Row>): (s: Option<Stats>)
    ensures s.None? <==> forall x :: x in rows ==> x.value.None?
    ensures s.Some? ==> s.value.min <= s.value.max
    ensures s.Some? ==> exists x :: x in rows && x.value == Some(s.value.min)
    ensures s.Some? ==> exists x :: x in rows && x.value == Some(s.value.max)
    ensures s.Some? ==> forall x :: x in rows && x.value.Some? ==> s.value.min <= x.value.value <= s.value.max
  {
    var vs := Values(rows);
    if vs == [] then None
    else
      var lo, hi := MinValue(vs), MaxValue(vs);
      assert lo <= hi by {
        assert hi in vs;
      }
      Some(Stats(lo, hi))
  }

  // ---------------------------------------------------------------------------------------------
  // The whole tab

  /** What the tab shows. */
  datatype View =
    | NoHistory
    | LoadFailed
    | EmptyHistory
    | NoDataFor(metric: string)
      /** Too few points for a range: every row of the metric. */
    | AllPoints(points: seq<Row>)
      /** The rows in the zoom window, and their statistics when the window is not empty. */
    | Zoomed(start: int, end: int, points: seq<Row>, stats: Option<Stats>)

  /**
   * The tab (history_tab.py:13-92) on the log as read (None when reading failed), the selected
   * metric, and the slider's window when the user moved it (None leaves the default).
   */
  function HistoryView(fileExists: bool, log: Option<seq<Row>>, selected: string, zoom: Option<(int, int)>): (v: View)
    ensures v == NoHistory <==> !fileExists
    ensures v == LoadFailed <==> fileExists && log.None?
    ensures v == EmptyHistory <==> fileExists && log == Some([])
    ensures fileExists && log.Some? && log.value != [] ==>
              (v.NoDataFor? <==> MetricRows(log.value, selected) == [])
              && (v.AllPoints? <==> MetricRows(log.value, selected) != [] && Degenerate(MetricRows(log.value, selected)))
              && (v.Zoomed? <==> MetricRows(log.value, selected) != [] && !Degenerate(MetricRows(log.value, selected)))
    ensures v.NoDataFor? ==> v.metric == selected
    ensures v.NoDataFor? ==> v.metric !in AvailableMetrics(log.value)
    ensures v.AllPoints? ==> v.points == MetricRows(log.value, selected) && Degenerate(v.points)
    ensures v.Zoomed? ==> var rows := MetricRows(log.value, selected);
                          && rows != [] && !Degenerate(rows)
                          && (zoom.None? ==> (v.start, v.end) == DefaultWindow(rows))
                          && (zoom.Some? ==> (v.start, v.end) == zoom.value)
                          && v.points == InRange(rows, v.start, v.end)
                          && (v.points == [] ==> v.stats.None?)
                          && (v.points != [] ==> v.stats == StatsOf(v.points))
  {
    if !fileExists then NoHistory
    else if log.None? then LoadFailed
    else if log.value == [] then EmptyHistory
    else
      var rows := MetricRows(log.value, selected);
      if rows == [] then
        assert selected !in AvailableMetrics(log.value) by {
          if selected in AvailableMetrics(log.value) {
            SelectedHasRows(log.value, selected);
          }
        }
        NoDataFor(selected)
      else if Degenerate(rows) then AllPoints(rows)
      else
        var (start, end) := if zoom.None? then DefaultWindow(rows) else zoom.value;
        var points := InRange(rows, start, end);
        Zoomed(start, end, points, if points == [] then None else StatsOf(points))
  }

  /**
   * With an offered metric selected and the zoom left alone, the tab shows either every row of the
   * metric or a non-empty window that ends at its newest row and starts at most 24 hours earlier.
   */
  lemma DefaultView(log: seq<Row>, selected: string)
    requires selected in AvailableMetrics(log)
    ensures var v := HistoryView(true, Some(log), selected, None);
            && (v.AllPoints? || v.Zoomed?)
            && (v.Zoomed? ==> v.points != [] && v.end == MaxTime(MetricRows(log, selected))
                              && v.end - v.start <= Day && v.stats == StatsOf(v.points))
  {
    SelectedHasRows(log, selected);
    var rows := MetricRows(log, selected);
    DefaultWindowSpec(rows);
    DefaultWindowShowsNewest(rows);
  }
}
