/**
 * Live monitoring (tabs/monitor_tab.py): the metric definitions prepared from the configuration,
 * the selection of metrics, the running/paused/cleared controls and one tick of the polling loop,
 * which parses each metric's command output, checks it against its thresholds, keeps the table of
 * active alerts, pushes the sample into a buffer of at most 1000 entries and appends one row to
 * the CSV history log.
 */
module Monitor {
  import opened Base
  import opened Text
  import opened Config
  import opened Shell
  import OrderedDict

  /** The largest number of samples kept in memory per metric. */
  const BufferCap: nat := 1000
  const DynamicKind := "dynamic_single"

  /** A monitored metric, as prepared at monitor_tab.py:26-42. */
  datatype MetricDef = MetricDef(name: string, command: string, minThreshold: Option<real>, maxThreshold: Option<real>, unit: string)

  /** What running a metric's command gave: its combined output, or an exception of any kind. */
  datatype Outcome = Output(text: string) | Raised

  /** One in-memory sample; `None` is NaN. */
  datatype Sample = Sample(time: int, value: Option<real>)

  /** An active alert: the value and the time at which the breach began. */
  datatype Alert = Alert(value: real, since: int)

  /** A line of the CSV history file; a `None` value is written as an empty field. */
  datatype LogLine = Header | Row(timestamp: int, metric: string, value: Option<real>, unit: string)

  /** `dynamic_df.get("Unit", "")` yields a plain string when there is no Unit column, and `fillna` on it raises. */
  datatype PrepareError = UnitColumnAbsent

  /** `pd.to_numeric(..., errors="coerce")` of an optional threshold cell: absent, empty or unparsable is unset. */
  function Threshold(cell: Option<Cell>, parse: string -> Option<real>): Option<real>
  {
    match cell
    case None => None
    case Some(Missing) => None
    case Some(Value(t)) => parse(t)
  }

  predicate IsDynamic(row: ConfigRow)
  {
    row.kind == DynamicKind
  }

  /**
   * The metric definitions (monitor_tab.py:26-42): one per `dynamic_single` row, in row order, named
   * by its subtitle, with `{iface}` substituted in its command, its thresholds coerced to numbers and
   * its unit defaulted to "". Without dynamic rows the tab stops before preparing anything
   * (monitor_tab.py:27-29), which gives no definitions; with some but without a Unit column the
   * preparation raises.
   */
  function PrepareMetrics(table: Table, iface: string, parse: string -> Option<real>): (r: Result<seq<MetricDef>, PrepareError>)
    ensures r.Err? <==> "Unit" !in table.columns && Filter(table.rows, IsDynamic) != []
    ensures Filter(table.rows, IsDynamic) == [] ==> r == Ok([])
    ensures r.Ok? ==>
              var dyn, cols := Filter(table.rows, IsDynamic), table.columns;
              && |r.value| == |dyn|
              && forall i :: 0 <= i < |dyn| ==>
                   && r.value[i].name == dyn[i].subsection
                   && r.value[i].command == Join(Split(dyn[i].command, IfacePlaceholder), iface)
                   && r.value[i].minThreshold == Threshold(Lookup(cols, dyn[i].cells, "Threshold_Min"), parse)
                   && r.value[i].maxThreshold == Threshold(Lookup(cols, dyn[i].cells, "Threshold_Max"), parse)
                   && Lookup(cols, dyn[i].cells, "Unit").Some?
                   && r.value[i].unit == AsStr(FillNa(Lookup(cols, dyn[i].cells, "Unit").value, ""))
  {
    var dyn := Filter(table.rows, IsDynamic);
    if dyn == [] then Ok([])
    else if "Unit" !in table.columns then Err(UnitColumnAbsent)
    else
      SubstituteRows(dyn, iface);
      Ok(seq(|dyn|, i requires 0 <= i < |dyn| =>
        var cells := dyn[i].cells;
        MetricDef(dyn[i].subsection, Substitute(dyn[i].command, iface),
                  Threshold(Lookup(table.columns, cells, "Threshold_Min"), parse),
                  Threshold(Lookup(table.columns, cells, "Threshold_Max"), parse),
                  AsStr(FillNa(Lookup(table.columns, cells, "Unit").value, "")))))
  }

  lemma SubstituteRows(rows: seq<ConfigRow>, iface: string)
    ensures forall i :: 0 <= i < |rows| ==> Substitute(rows[i].command, iface) == Join(Split(rows[i].command, IfacePlaceholder), iface)
  {
    forall i | 0 <= i < |rows| ensures Substitute(rows[i].command, iface) == Join(Split(rows[i].command, IfacePlaceholder), iface) {
      SubstituteSpec(rows[i].command, iface);
    }
  }

  /** Definition `i` is the first one called `name`. */
  predicate FirstNamed(defs: seq<MetricDef>, name: string, i: int)
  {
    0 <= i < |defs| && defs[i].name == name && forall j :: 0 <= j < i ==> defs[j].name != name
  }

  /** `d` is the first definition called `name`. */
  ghost predicate FirstDef(defs: seq<MetricDef>, name: string, d: MetricDef)
  {
    exists i :: FirstNamed(defs, name, i) && d == defs[i]
  }

  /** `dynamic_df[dynamic_df["Subsection_Title"] == name].iloc[0]`: the first definition with that name. */
  function FindDef(defs: seq<MetricDef>, name: string): (r: Option<MetricDef>)
    ensures r.Some? <==> exists i :: 0 <= i < |defs| && defs[i].name == name
    ensures r.Some? ==> FirstDef(defs, name, r.value)
  {
    if defs == [] then None
    else if defs[0].name == name then
      assert FirstNamed(defs, name, 0);
      Some(defs[0])
    else
      var r := FindDef(defs[1..], name);
      FirstNamedShift(defs, name, r);
      r
  }

  /** The lookup yields the first definition with the name, whichever later ones share it. */
  lemma FindDefFirst(defs: seq<MetricDef>, name: string, i: nat)
    requires FirstNamed(defs, name, i)
    ensures FindDef(defs, name) == Some(defs[i])
  {
  }

  /** Past a first definition with another name, the first one called `name` is one further on. */
  lemma FirstNamedShift(defs: seq<MetricDef>, name: string, r: Option<MetricDef>)
    requires defs != [] && defs[0].name != name
    requires r.Some? ==> FirstDef(defs[1..], name, r.value)
    ensures r.Some? ==> FirstDef(defs, name, r.value)
  {
    if r.Some? {
      var i :| FirstNamed(defs[1..], name, i) && r.value == defs[1..][i];
      assert FirstNamed(defs, name, i + 1);
    }
  }

  /**
   * The names whose checkbox is ticked (monitor_tab.py:93 and :130): the checkboxes are collected
   * into a dict, so a name appears once and its last checkbox decides.
   */
  function CheckedNames(boxes: seq<(string, bool)>): (names: seq<string>)
    ensures NoDup(names)
    ensures forall k :: k in names <==> LastTicked(boxes, k)
    ensures names == Filter(OrderedDict.FirstAppearance(OrderedDict.Keys(boxes)), (k: string) => LastTicked(boxes, k))
  {
    var d := OrderedDict.FromPairs(boxes);
    var kept := Filter(d, (e: (string, bool)) => e.1);
    OrderedDict.FromPairsContents(boxes);
    OrderedDict.FilterValid(d, (e: (string, bool)) => e.1);
    OrderedDict.FilterKeys(d, (e: (string, bool)) => e.1);
    OrderedDict.FilterKeysOrder(d, (e: (string, bool)) => e.1, (k: string) => LastTicked(boxes, k));
    OrderedDict.Keys(kept)
  }

  /** The last checkbox shown for `k` is ticked. */
  predicate LastTicked(boxes: seq<(string, bool)>, k: string)
  {
    OrderedDict.LastValue(boxes, k) == Some(true)
  }

  /**
   * The value of one sample (monitor_tab.py:167-171): NaN when the command raised or printed only
   * whitespace, otherwise whatever parsing the trimmed output gives.
   */
  function SampleValue(o: Outcome, parse: string -> Option<real>): (v: Option<real>)
    ensures o.Raised? ==> v.None?
    ensures o.Output? && IsBlank(o.text) ==> v.None?
    ensures o.Output? && !IsBlank(o.text) ==> v == parse(Trim(o.text))
  {
    match o
    case Raised => None
    case Output(text) => var out := Trim(text); if out == [] then None else parse(out)
  }

  /**
   * The breach check (monitor_tab.py:176-181), with either threshold optional: a number breaches
   * when it is below a set minimum or above a set maximum; NaN never breaches.
   */
  function IsBreach(v: Option<real>, lo: Option<real>, hi: Option<real>): (b: bool)
    ensures b <==> v.Some? && ((lo.Some? && v.value < lo.value) || (hi.Some? && v.value > hi.value))
    ensures v.Some? && lo.Some? && hi.Some? ==> (b <==> !(lo.value <= v.value <= hi.value))
  {
    match v
    case None => false
    case Some(x) =>
      var belowMin := if lo.None? then false else x < lo.value;
      var aboveMax := if hi.None? then false else x > hi.value;
      belowMin || aboveMax
  }

  /**
   * The alert table after one sample of `name` (monitor_tab.py:183-187): a breach opens an alert only
   * for a metric without one, so an open alert keeps its onset; a sample within bounds closes the
   * metric's alert. No other metric's alert changes.
   */
  function UpdateAlerts(alerts: map<string, Alert>, name: string, v: Option<real>, breached: bool, now: int): (r: map<string, Alert>)
    requires breached ==> v.Some?
    ensures breached && name in alerts ==> r == alerts
    ensures breached && name !in alerts ==> name in r && r[name] == Alert(v.value, now)
    ensures !breached ==> name !in r
    ensures forall m :: m != name ==> (m in r <==> m in alerts) && (m in alerts ==> r[m] == alerts[m])
  {
    if breached then
      if name in alerts then alerts else alerts[name := Alert(v.value, now)]
    else
      alerts - {name}
  }

  /** The buffer after appending a sample and keeping only the newest `BufferCap` entries (monitor_tab.py:190-194). */
  function PushCapped(buf: seq<Sample>, s: Sample): (r: seq<Sample>)
    ensures |r| == if |buf| + 1 > BufferCap then BufferCap else |buf| + 1
    ensures r != [] && r[|r| - 1] == s
  {
    var b := buf + [s];
    if |b| > BufferCap then b[|b| - BufferCap..] else b
  }

  /** The buffer of a metric, empty when it has none yet. */
  function BufferOf(history: map<string, seq<Sample>>, name: string): seq<Sample>
  {
    if name in history then history[name] else []
  }

  /** What one tick changes: the buffers, the alerts and the CSV file (its lines and whether it exists). */
  datatype TickState = TickState(history: map<string, seq<Sample>>, alerts: map<string, Alert>, log: seq<LogLine>, logExists: bool)

  /** Every buffer holds at most `BufferCap` samples. */
  predicate Capped(history: map<string, seq<Sample>>)
  {
    forall m :: m in history ==> |history[m]| <= BufferCap
  }

  /** The header line, when the file is about to be created. */
  function HeaderIfNew(logExists: bool): seq<LogLine>
  {
    if logExists then [] else [Header]
  }

  /** The bookkeeping of one sample `v` of metric `d` (monitor_tab.py:175-209): alert table, buffer and CSV row. */
  function StepSample(st: TickState, d: MetricDef, v: Option<real>, now: int): TickState
  {
    var breached := IsBreach(v, d.minThreshold, d.maxThreshold);
    TickState(
      st.history[d.name := PushCapped(BufferOf(st.history, d.name), Sample(now, v))],
      UpdateAlerts(st.alerts, d.name, v, breached, now),
      st.log + HeaderIfNew(st.logExists) + [Row(now, d.name, v, d.unit)],
      true)
  }

  predicate AllDefined(defs: seq<MetricDef>, names: seq<string>)
  {
    forall i :: 0 <= i < |names| ==> FindDef(defs, names[i]).Some?
  }

  /** The definition looked up for each monitored name (monitor_tab.py:164). */
  function Resolve(defs: seq<MetricDef>, names: seq<string>): (ds: seq<MetricDef>)
    requires AllDefined(defs, names)
    ensures |ds| == |names|
    ensures forall i :: 0 <= i < |names| ==> ds[i].name == names[i]
    ensures forall i :: 0 <= i < |names| ==> FirstDef(defs, names[i], ds[i])
  {
    var ds := seq(|names|, i requires 0 <= i < |names| => FindDef(defs, names[i]).value);
    ds
  }

  /** The values sampled from the command outcomes (monitor_tab.py:167-171). */
  function Values(outcomes: seq<Outcome>, parse: string -> Option<real>): (vs: seq<Option<real>>)
    ensures |vs| == |outcomes|
    ensures forall i :: 0 <= i < |outcomes| ==> vs[i] == SampleValue(outcomes[i], parse)
  {
    seq(|outcomes|, i requires 0 <= i < |outcomes| => SampleValue(outcomes[i], parse))
  }

  /** One tick: the samples `vs` of the metrics `ds` processed in turn. */
  function RunTick(st: TickState, ds: seq<MetricDef>, vs: seq<Option<real>>, now: int): TickState
    requires |vs| == |ds|
  {
    if ds == [] then st
    else
      var n := |ds| - 1;
      StepSample(RunTick(st, ds[..n], vs[..n], now), ds[n], vs[n], now)
  }

  /** The CSV rows of a tick, one per metric, in order. */
  function TickRows(ds: seq<MetricDef>, vs: seq<Option<real>>, now: int): seq<LogLine>
    requires |vs| == |ds|
  {
    seq(|ds|, i requires 0 <= i < |ds| => Row(now, ds[i].name, vs[i], ds[i].unit))
  }

  /** Pushing samples one after another (one per tick). */
  function PushAll(buf: seq<Sample>, ss: seq<Sample>): seq<Sample>
  {
    if ss == [] then buf else PushCapped(PushAll(buf, ss[..|ss| - 1]), ss[|ss| - 1])
  }

  /** The newest `BufferCap` entries of a sequence. */
  function Newest(s: seq<Sample>): seq<Sample>
  {
    if |s| > BufferCap then s[|s| - BufferCap..] else s
  }

  /**
   * The buffer is a FIFO of capacity 1000: after any number of pushes it holds exactly the newest
   * min(1000, n) samples of everything pushed, oldest first.
   */
  lemma {:induction false} PushAllKeepsNewest(buf: seq<Sample>, ss: seq<Sample>)
    requires |buf| <= BufferCap
    ensures PushAll(buf, ss) == Newest(buf + ss)
  {
    if ss != [] {
      var init, last := ss[..|ss| - 1], ss[|ss| - 1];
      PushAllKeepsNewest(buf, init);
      PushAllSnoc(buf, ss);
      AppendSnoc(buf, ss);
      NewestSnoc(buf + init, last);
    }
  }

  lemma PushAllSnoc(buf: seq<Sample>, ss: seq<Sample>)
    requires ss != []
    ensures PushAll(buf, ss) == PushCapped(PushAll(buf, ss[..|ss| - 1]), ss[|ss| - 1])
  {
  }

  lemma AppendSnoc<T>(a: seq<T>, s: seq<T>)
    requires s != []
    ensures a + s == (a + s[..|s| - 1]) + [s[|s| - 1]]
  {
    assert s == s[..|s| - 1] + [s[|s| - 1]];
  }

  lemma NewestSnoc(x: seq<Sample>, last: Sample)
    ensures PushCapped(Newest(x), last) == Newest(x + [last])
  {
    var y := x + [last];
    if |x| >= BufferCap {
      var b := Newest(x) + [last];
      assert b == y[|x| - BufferCap..];
      assert b[1..] == y[|y| - BufferCap..];
    }
  }

  /** Unfolds the last step of a tick. */
  lemma RunTickSnoc(st: TickState, ds: seq<MetricDef>, vs: seq<Option<real>>, now: int) returns (pre: TickState)
    requires |vs| == |ds| && ds != []
    ensures pre == RunTick(st, ds[..|ds| - 1], vs[..|ds| - 1], now)
    ensures RunTick(st, ds, vs, now) == StepSample(pre, ds[|ds| - 1], vs[|ds| - 1], now)
  {
    pre := RunTick(st, ds[..|ds| - 1], vs[..|ds| - 1], now);
  }

  /** A tick over the first i + 1 metrics is the tick over the first i, then the sample of metric i. */
  lemma RunTickStep(st: TickState, ds: seq<MetricDef>, vs: seq<Option<real>>, now: int, i: nat)
    requires |vs| == |ds| && i < |ds|
    ensures RunTick(st, ds[..i + 1], vs[..i + 1], now) == StepSample(RunTick(st, ds[..i], vs[..i], now), ds[i], vs[i], now)
  {
    var _ := RunTickSnoc(st, ds[..i + 1], vs[..i + 1], now);
    assert ds[..i + 1][..i] == ds[..i] && vs[..i + 1][..i] == vs[..i];
  }

  /**
   * Exactly one CSV row per monitored metric, in order, each with the sample's value (empty when
   * NaN) — a failed command included; the header precedes them only when the file did not exist.
   */
  lemma {:induction false} TickLog(st: TickState, ds: seq<MetricDef>, vs: seq<Option<real>>, now: int)
    requires |vs| == |ds|
    ensures RunTick(st, ds, vs, now).log
            == st.log + (if ds == [] then [] else HeaderIfNew(st.logExists)) + TickRows(ds, vs, now)
    ensures RunTick(st, ds, vs, now).logExists == (st.logExists || ds != [])
  {
    if ds == [] {
      assert TickRows(ds, vs, now) == [];
    } else {
      var n := |ds| - 1;
      var pre := RunTickSnoc(st, ds, vs, now);
      TickLog(st, ds[..n], vs[..n], now);
      var prev := TickRows(ds[..n], vs[..n], now);
      var row := Row(now, ds[n].name, vs[n], ds[n].unit);
      TickRowsSnoc(ds, vs, now);
      assert RunTick(st, ds, vs, now).log == pre.log + HeaderIfNew(pre.logExists) + [row];
      LogStep(st.log, st.logExists, pre, prev, row, n == 0);
    }
  }

  lemma TickRowsSnoc(ds: seq<MetricDef>, vs: seq<Option<real>>, now: int)
    requires |vs| == |ds| && ds != []
    ensures var n := |ds| - 1;
            TickRows(ds, vs, now) == TickRows(ds[..n], vs[..n], now) + [Row(now, ds[n].name, vs[n], ds[n].unit)]
  {
    var n := |ds| - 1;
    var all, prev := TickRows(ds, vs, now), TickRows(ds[..n], vs[..n], now);
    var row := Row(now, ds[n].name, vs[n], ds[n].unit);
    forall i | 0 <= i < |all| ensures all[i] == (prev + [row])[i] {
      if i < n {
        assert ds[..n][i] == ds[i] && vs[..n][i] == vs[i];
      }
    }
  }

  /** The sequence bookkeeping of one step of `TickLog`. */
  lemma LogStep(stLog: seq<LogLine>, stExists: bool, pre: TickState, prev: seq<LogLine>, row: LogLine, first: bool)
    requires pre.log == stLog + (if first then [] else HeaderIfNew(stExists)) + prev
    requires pre.logExists == (stExists || !first)
    requires first ==> prev == []
    ensures pre.log + HeaderIfNew(pre.logExists) + [row] == stLog + HeaderIfNew(stExists) + (prev + [row])
  {
    if !first {
      ConcatAssoc(stLog + HeaderIfNew(stExists), prev, [row]);
    }
  }

  lemma StepKeepsCapped(st: TickState, d: MetricDef, v: Option<real>, now: int)
    requires Capped(st.history)
    ensures Capped(StepSample(st, d, v, now).history)
  {
  }

  /** Every buffer stays within its capacity across a tick. */
  lemma {:induction false} TickKeepsCapped(st: TickState, ds: seq<MetricDef>, vs: seq<Option<real>>, now: int)
    requires |vs| == |ds|
    requires Capped(st.history)
    ensures Capped(RunTick(st, ds, vs, now).history)
  {
    if ds != [] {
      var n := |ds| - 1;
      var pre := RunTickSnoc(st, ds, vs, now);
      TickKeepsCapped(st, ds[..n], vs[..n], now);
      StepKeepsCapped(pre, ds[n], vs[n], now);
    }
  }

  /** Processing one metric leaves every other metric's buffer and alert as they were. */
  lemma StepLeavesOthers(st: TickState, d: MetricDef, v: Option<real>, now: int, m: string)
    requires d.name != m
    ensures var r := StepSample(st, d, v, now);
            && (m in r.history <==> m in st.history) && (m in st.history ==> r.history[m] == st.history[m])
            && (m in r.alerts <==> m in st.alerts) && (m in st.alerts ==> r.alerts[m] == st.alerts[m])
  {
  }

  /** A metric that is not monitored keeps its buffer and its alert through a tick. */
  lemma {:induction false} TickLeavesOthers(st: TickState, ds: seq<MetricDef>, vs: seq<Option<real>>, now: int, m: string)
    requires |vs| == |ds|
    requires forall i :: 0 <= i < |ds| ==> ds[i].name != m
    ensures var r := RunTick(st, ds, vs, now);
            && (m in r.history <==> m in st.history) && (m in st.history ==> r.history[m] == st.history[m])
            && (m in r.alerts <==> m in st.alerts) && (m in st.alerts ==> r.alerts[m] == st.alerts[m])
  {
    if ds != [] {
      var n := |ds| - 1;
      var pre := RunTickSnoc(st, ds, vs, now);
      assert forall i :: 0 <= i < n ==> ds[..n][i].name != m;
      TickLeavesOthers(st, ds[..n], vs[..n], now, m);
      StepLeavesOthers(pre, ds[n], vs[n], now, m);
    }
  }

  /** No two metrics of a tick share a name, as the selection makes them. */
  predicate DistinctNames(ds: seq<MetricDef>)
  {
    forall a, b :: 0 <= a < b < |ds| ==> ds[a].name != ds[b].name
  }

  /** The effect of one sample on the metric it belongs to. */
  lemma StepOwnEffect(st: TickState, d: MetricDef, v: Option<real>, now: int)
    ensures var r, m := StepSample(st, d, v, now), d.name;
            && m in r.history && r.history[m] == PushCapped(BufferOf(st.history, m), Sample(now, v))
            && (IsBreach(v, d.minThreshold, d.maxThreshold) ==>
                  m in r.alerts && r.alerts[m] == (if m in st.alerts then st.alerts[m] else Alert(v.value, now)))
            && (!IsBreach(v, d.minThreshold, d.maxThreshold) ==> m !in r.alerts)
  {
  }

  /**
   * The effect of a tick on one monitored metric (names are unique): its buffer gains the new
   * sample; a breach keeps an open alert's onset value and time or opens one at this sample; a
   * sample within bounds, or NaN, closes it.
   */
  lemma {:induction false} TickMetricEffect(st: TickState, ds: seq<MetricDef>, vs: seq<Option<real>>, now: int, i: nat)
    requires |vs| == |ds| && DistinctNames(ds) && i < |ds|
    ensures var r, m, d := RunTick(st, ds, vs, now), ds[i].name, ds[i];
            && m in r.history && r.history[m] == PushCapped(BufferOf(st.history, m), Sample(now, vs[i]))
            && (IsBreach(vs[i], d.minThreshold, d.maxThreshold) ==>
                  m in r.alerts && r.alerts[m] == (if m in st.alerts then st.alerts[m] else Alert(vs[i].value, now)))
            && (!IsBreach(vs[i], d.minThreshold, d.maxThreshold) ==> m !in r.alerts)
  {
    var n := |ds| - 1;
    var pre := RunTickSnoc(st, ds, vs, now);
    if i == n {
      assert forall j :: 0 <= j < n ==> ds[..n][j].name != ds[i].name;
      TickLeavesOthers(st, ds[..n], vs[..n], now, ds[i].name);
      StepOwnEffect(pre, ds[n], vs[n], now);
    } else {
      assert DistinctNames(ds[..n]);
      assert ds[..n][i] == ds[i] && vs[..n][i] == vs[i];
      TickMetricEffect(st, ds[..n], vs[..n], now, i);
      StepLeavesOthers(pre, ds[n], vs[n], now, ds[i].name);
    }
  }

  /** A metric with samples keeps them through a step, and the processed metric gains one. */
  lemma StepKeepsFilled(st: TickState, d: MetricDef, v: Option<real>, now: int, m: string)
    requires m == d.name || Filled(st.history, m)
    ensures Filled(StepSample(st, d, v, now).history, m)
  {
  }

  /** Metric `m` has a buffer holding at least one sample. */
  predicate Filled(history: map<string, seq<Sample>>, m: string)
  {
    m in history && history[m] != []
  }

  /** After a tick every monitored metric has a non-empty buffer. */
  lemma {:induction false} TickFillsBuffers(st: TickState, ds: seq<MetricDef>, vs: seq<Option<real>>, now: int, i: nat)
    requires |vs| == |ds| && i < |ds|
    ensures Filled(RunTick(st, ds, vs, now).history, ds[i].name)
  {
    var n := |ds| - 1;
    var pre := RunTickSnoc(st, ds, vs, now);
    if i == n {
      StepKeepsFilled(pre, ds[n], vs[n], now, ds[i].name);
    } else {
      assert ds[..n][i] == ds[i];
      TickFillsBuffers(st, ds[..n], vs[..n], now, i);
      StepKeepsFilled(pre, ds[n], vs[n], now, ds[i].name);
    }
  }

  /** The names of the metric definitions, in order (the initial selections, monitor_tab.py:51-54). */
  function Names(defs: seq<MetricDef>): (names: seq<string>)
    ensures |names| == |defs| && forall i :: 0 <= i < |defs| ==> names[i] == defs[i].name
  {
    seq(|defs|, i requires 0 <= i < |defs| => defs[i].name)
  }

  /**
   * The metrics that get a live chart (monitor_tab.py:238-247): the displayed ones, in display order,
   * that are still monitored and have at least one sample.
   */
  function LiveCharts(displayed: seq<string>, monitored: seq<string>, history: map<string, seq<Sample>>): (charts: seq<string>)
    ensures |charts| <= |displayed|
    ensures forall m :: m in charts <==> m in displayed && m in monitored && BufferOf(history, m) != []
  {
    Filter(displayed, m => m in monitored && BufferOf(history, m) != [])
  }

  /** The charts keep the display order: those of `a + b` are those of `a` followed by those of `b`. */
  lemma LiveChartsAppend(a: seq<string>, b: seq<string>, monitored: seq<string>, history: map<string, seq<Sample>>)
    ensures LiveCharts(a + b, monitored, history) == LiveCharts(a, monitored, history) + LiveCharts(b, monitored, history)
  {
    FilterAppend(a, b, m => m in monitored && BufferOf(history, m) != []);
  }

  /** Right after a tick, every displayed metric that is monitored has its chart. */
  lemma TickChartsEveryDisplayed(st: TickState, ds: seq<MetricDef>, vs: seq<Option<real>>, now: int, displayed: seq<string>)
    requires |vs| == |ds|
    ensures var r := RunTick(st, ds, vs, now);
            forall m :: m in LiveCharts(displayed, Names(ds), r.history) <==> m in displayed && m in Names(ds)
  {
    var r := RunTick(st, ds, vs, now);
    forall i | 0 <= i < |ds| ensures BufferOf(r.history, Names(ds)[i]) != [] {
      TickFillsBuffers(st, ds, vs, now, i);
    }
  }

  /**
   * The status column of the current-values table (monitor_tab.py:217): a metric is flagged
   * exactly when it has an open alert.
   */
  function InBreach(alerts: map<string, Alert>, m: string): (flagged: bool)
    ensures flagged <==> m in alerts
  {
    m in alerts
  }

  /** Right after a tick, the status column flags a monitored metric exactly when its newest sample breached. */
  lemma TickStatusFlags(st: TickState, ds: seq<MetricDef>, vs: seq<Option<real>>, now: int, i: nat)
    requires |vs| == |ds| && DistinctNames(ds) && i < |ds|
    ensures InBreach(RunTick(st, ds, vs, now).alerts, ds[i].name) <==> IsBreach(vs[i], ds[i].minThreshold, ds[i].maxThreshold)
  {
    TickMetricEffect(st, ds, vs, now, i);
  }

  /** Ticking every box selects every metric once, in the order the boxes were first shown. */
  lemma CheckAllSelectsAll(boxes: seq<(string, bool)>)
    requires forall i :: 0 <= i < |boxes| ==> boxes[i].1
    ensures CheckedNames(boxes) == OrderedDict.FirstAppearance(OrderedDict.Keys(boxes))
  {
    var d := OrderedDict.FromPairs(boxes);
    OrderedDict.FromPairsContents(boxes);
    OrderedDict.FromPairsEntries(boxes);
    FilterAll(d, (e: (string, bool)) => e.1);
  }

  /** Clearing every box selects nothing. */
  lemma ClearAllSelectsNone(boxes: seq<(string, bool)>)
    requires forall i :: 0 <= i < |boxes| ==> !boxes[i].1
    ensures CheckedNames(boxes) == []
  {
    var d := OrderedDict.FromPairs(boxes);
    OrderedDict.FromPairsEntries(boxes);
    var kept := Filter(d, (e: (string, bool)) => e.1);
    if kept != [] {
      assert kept[0] in kept;
    }
  }

  /**
   * The monitoring session (the `st.session_state` entries of monitor_tab.py): whether polling runs,
   * the selections, the in-memory buffers and alerts, and the CSV history file with whether it exists.
   */
  class MonitorSession {
    var running: bool
    var monitored: seq<string>
    var displayed: seq<string>
    var history: map<string, seq<Sample>>
    var alerts: map<string, Alert>
    var log: seq<LogLine>
    var logExists: bool

    /** Every buffer holds at most 1000 samples. */
    ghost predicate Valid()
      reads this
    {
      Capped(history)
    }

    /** The part of the session that a tick changes. */
    function View(): TickState
      reads this
    {
      TickState(history, alerts, log, logExists)
    }

    /**
     * A new session (monitor_tab.py:45-54): paused, with no samples and no alerts, every metric
     * monitored and displayed; the CSV file is whatever is on disk.
     */
    constructor (defs: seq<MetricDef>, log: seq<LogLine>, logExists: bool)
      ensures Valid()
      ensures !running && history == map[] && alerts == map[]
      ensures monitored == Names(defs) && displayed == Names(defs)
      ensures this.log == log && this.logExists == logExists
    {
      running := false;
      monitored := Names(defs);
      displayed := Names(defs);
      history := map[];
      alerts := map[];
      this.log := log;
      this.logExists := logExists;
    }

    /** The monitor checkboxes are read back (monitor_tab.py:93): the ticked metrics, each once. */
    method SetMonitored(boxes: seq<(string, bool)>)
      modifies this
      ensures monitored == CheckedNames(boxes)
      ensures running == old(running) && displayed == old(displayed) && View() == old(View())
    {
      monitored := CheckedNames(boxes);
    }

    /** "Show All Monitored" (monitor_tab.py:111-112): every monitored metric is displayed. */
    method ShowAll()
      modifies this
      ensures displayed == monitored
      ensures running == old(running) && monitored == old(monitored) && View() == old(View())
    {
      displayed := monitored;
    }

    /** "Hide All Graphs" (monitor_tab.py:116-117). */
    method HideAll()
      modifies this
      ensures displayed == []
      ensures running == old(running) && monitored == old(monitored) && View() == old(View())
    {
      displayed := [];
    }

    /** The graph checkboxes, one per monitored metric, are read back (monitor_tab.py:121-130). */
    method SetDisplayed(boxes: seq<(string, bool)>)
      modifies this
      ensures displayed == CheckedNames(boxes)
      ensures running == old(running) && monitored == old(monitored) && View() == old(View())
    {
      displayed := CheckedNames(boxes);
    }

    /** The Start/Pause button (monitor_tab.py:139-141). */
    method StartPause()
      modifies this
      ensures running == !old(running)
      ensures monitored == old(monitored) && displayed == old(displayed) && View() == old(View())
    {
      running := !running;
    }

    /**
     * "Stop & Clear Live Graphs" (monitor_tab.py:143-146): polling stops and the buffers and alerts
     * are emptied; the CSV history is kept.
     */
    method StopAndClear()
      modifies this
      ensures Valid()
      ensures !running && history == map[] && alerts == map[]
      ensures log == old(log) && logExists == old(logExists)
      ensures monitored == old(monitored) && displayed == old(displayed)
    {
      running := false;
      history := map[];
      alerts := map[];
    }

    /**
     * One pass of the polling loop (monitor_tab.py:158-209), with `outcomes[i]` what the command of
     * the i-th monitored metric gave and `now` the tick's time. A paused session changes nothing.
     */
    method Tick(defs: seq<MetricDef>, outcomes: seq<Outcome>, parse: string -> Option<real>, now: int)
      requires Valid()
      requires |outcomes| == |monitored| && AllDefined(defs, monitored)
      modifies this
      ensures running == old(running) && monitored == old(monitored) && displayed == old(displayed)
      ensures Valid()
      ensures old(running) ==> View() == RunTick(old(View()), Resolve(defs, monitored), Values(outcomes, parse), now)
      ensures !old(running) ==> View() == old(View())
    {
      if !running {
        return;
      }
      ghost var ds := Resolve(defs, monitored);
      ghost var vs := Values(outcomes, parse);
      var i := 0;
      while i < |monitored|
        invariant 0 <= i <= |monitored|
        invariant running == old(running) && monitored == old(monitored) && displayed == old(displayed)
        invariant Valid()
        invariant View() == RunTick(old(View()), ds[..i], vs[..i], now)
      {
        var d := FindDef(defs, monitored[i]).value;
        var value := SampleValue(outcomes[i], parse);
        ProcessSample(d, value, now);
        RunTickStep(old(View()), ds, vs, now, i);
        i := i + 1;
      }
      assert ds[..i] == ds && vs[..i] == vs;
    }

    /**
     * The bookkeeping of one sample of metric `d` within a tick (monitor_tab.py:175-209): the
     * breach check and alert table, the buffer with its cap, and the CSV row.
     */
    method ProcessSample(d: MetricDef, value: Option<real>, now: int)
      requires Valid()
      modifies this
      ensures running == old(running) && monitored == old(monitored) && displayed == old(displayed)
      ensures Valid()
      ensures View() == StepSample(old(View()), d, value, now)
    {
      CheckBreach(d, value, now);
      Record(d.name, Sample(now, value));
      AppendRow(Row(now, d.name, value, d.unit));
    }

    /** The breach check and the alert table (monitor_tab.py:175-187). */
    method CheckBreach(d: MetricDef, value: Option<real>, now: int)
      modifies this
      ensures alerts == UpdateAlerts(old(alerts), d.name, value, IsBreach(value, d.minThreshold, d.maxThreshold), now)
      ensures running == old(running) && monitored == old(monitored) && displayed == old(displayed)
      ensures history == old(history) && log == old(log) && logExists == old(logExists)
    {
      var name := d.name;
      var breached := false;
      if value.Some? {
        if d.minThreshold.Some? && value.value < d.minThreshold.value {
          breached := true;
        }
        if d.maxThreshold.Some? && value.value > d.maxThreshold.value {
          breached := true;
        }
      }
      if breached {
        if name !in alerts {
          alerts := alerts[name := Alert(value.value, now)];
        }
      } else {
        alerts := alerts - {name};
      }
    }

    /** The pruned in-memory buffer (monitor_tab.py:190-194): append, then keep the newest 1000. */
    method Record(name: string, sample: Sample)
      requires Valid()
      modifies this
      ensures Valid()
      ensures history == old(history)[name := PushCapped(BufferOf(old(history), name), sample)]
      ensures running == old(running) && monitored == old(monitored) && displayed == old(displayed)
      ensures alerts == old(alerts) && log == old(log) && logExists == old(logExists)
    {
      if name !in history {
        history := history[name := []];
      }
      history := history[name := history[name] + [sample]];
      if |history[name]| > BufferCap {
        history := history[name := history[name][|history[name]| - BufferCap..]];
      }
    }

    /** The CSV append (monitor_tab.py:197-209): a header first when the file does not exist yet. */
    method AppendRow(row: LogLine)
      modifies this
      ensures log == old(log) + HeaderIfNew(old(logExists)) + [row] && logExists
      ensures running == old(running) && monitored == old(monitored) && displayed == old(displayed)
      ensures history == old(history) && alerts == old(alerts)
    {
      var fileExists := logExists;
      if !fileExists {
        log := log + [Header];
      }
      log := log + [row];
      logExists := true;
    }
  }
}
