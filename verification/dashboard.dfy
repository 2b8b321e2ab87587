/** The dashboard's data feed (`load_metrics` in home-soc/home_soc_web.py):
    it reads the snapshot log line by line, reduces each snapshot to one
    chart row and keeps the last `limit` rows. JSON decoding is the
    parameter `parse`; `None` from it is a line `json.loads` rejects. */
module Dashboard {
  import opened Wrappers
  import opened Seqs
  import opened Text
  import opened Observations
  import Collectors
  import Monitor
  import Alerts

  /** The fields of one decoded entry the dashboard reads; `None` is a
      missing key. */
  datatype RecordEntry = RecordEntry(metric: Option<string>, value: Option<real>)

  /** The fields of one decoded snapshot the dashboard reads. */
  datatype Record = Record(timestamp: Option<string>, securityScore: Option<int>, entries: Option<seq<RecordEntry>>)

  /** One chart row. */
  datatype Row = Row(timestamp: Option<string>, securityScore: int, cpuLoad: real, memUsed: real, connections: real)

  const CPU_LOAD: string := "cpu_load"
  const MEMORY_USED_PCT: string := "memory_used_pct"
  const ESTABLISHED_CONNECTIONS: string := "established_connections"

  /** The three charted metrics, as the loop's running values `cpu`,
      `mem` and `conns`. */
  datatype Readings = Readings(cpu: real, mem: real, conns: real)

  const NoReadings: Readings := Readings(0.0, 0.0, 0.0)

  /** The running value the loop keeps for a charted metric. */
  function Reading(r: Readings, name: string): real
  {
    if name == CPU_LOAD then r.cpu
    else if name == MEMORY_USED_PCT then r.mem
    else r.conns
  }

  predicate Charted(name: string)
  {
    name == CPU_LOAD || name == MEMORY_USED_PCT || name == ESTABLISHED_CONNECTIONS
  }

  /** One iteration of the loop over a snapshot's entries. */
  function Absorb(acc: Readings, e: RecordEntry): (r: Readings)
    ensures forall name | Charted(name) ::
              Reading(r, name) == if e.metric == Some(name) then e.value.GetOr(0.0) else Reading(acc, name)
  {
    var acc1 := if e.metric == Some(CPU_LOAD) then acc.(cpu := e.value.GetOr(0.0)) else acc;
    var acc2 := if e.metric == Some(MEMORY_USED_PCT) then acc1.(mem := e.value.GetOr(0.0)) else acc1;
    if e.metric == Some(ESTABLISHED_CONNECTIONS) then acc2.(conns := e.value.GetOr(0.0)) else acc2
  }

  /** The loop over a snapshot's entries, front to back. */
  function Scan(acc: Readings, es: seq<RecordEntry>): Readings
    decreases |es|
  {
    if |es| == 0 then acc else Scan(Absorb(acc, es[0]), es[1..])
  }

  lemma {:induction false} ScanAppend(acc: Readings, es: seq<RecordEntry>, e: RecordEntry)
    ensures Scan(acc, es + [e]) == Absorb(Scan(acc, es), e)
    decreases |es|
  {
    if |es| > 0 {
      assert (es + [e])[1..] == es[1..] + [e];
      ScanAppend(Absorb(acc, es[0]), es[1..], e);
    }
  }

  /** The value of the last entry carrying metric `name` (0 when it has
      none), or `dflt` when no entry carries it. */
  function LastValue(es: seq<RecordEntry>, name: string, dflt: real): real
  {
    match LastWhere(es, (e: RecordEntry) => e.metric == Some(name))
    case None => dflt
    case Some(k) => es[k].value.GetOr(0.0)
  }

  /** The loop leaves each charted metric at its last entry's value. */
  lemma {:induction false} ScanKeepsLast(acc: Readings, es: seq<RecordEntry>, name: string)
    requires Charted(name)
    ensures Reading(Scan(acc, es), name) == LastValue(es, name, Reading(acc, name))
    decreases |es|
  {
    if |es| > 0 {
      var init := es[..|es| - 1];
      var last := es[|es| - 1];
      assert es == init + [last];
      ScanAppend(acc, init, last);
      if last.metric != Some(name) {
        ScanKeepsLast(acc, init, name);
        var w := LastWhere(init, (e: RecordEntry) => e.metric == Some(name));
        if w.Some? {
          assert init[w.value] == es[w.value];
        }
      }
    }
  }

  /** One snapshot's chart row: the score (0 when missing) and the last
      reported value of each charted metric (0 when there is none). */
  function ExtractRow(rec: Record): (row: Row)
    ensures row.timestamp == rec.timestamp
    ensures row.securityScore == rec.securityScore.GetOr(0)
    ensures var es := rec.entries.GetOr([]);
      && row.cpuLoad == LastValue(es, CPU_LOAD, 0.0)
      && row.memUsed == LastValue(es, MEMORY_USED_PCT, 0.0)
      && row.connections == LastValue(es, ESTABLISHED_CONNECTIONS, 0.0)
  {
    var es := rec.entries.GetOr([]);
    var r := Scan(NoReadings, es);
    ScanKeepsLast(NoReadings, es, CPU_LOAD);
    ScanKeepsLast(NoReadings, es, MEMORY_USED_PCT);
    ScanKeepsLast(NoReadings, es, ESTABLISHED_CONNECTIONS);
    Row(rec.timestamp, rec.securityScore.GetOr(0), r.cpu, r.mem, r.conns)
  }

  /** The row one log line decodes to. */
  function LineRow(parse: string -> Option<Record>, line: string): Option<Row>
  {
    match parse(Strip(line))
    case None => None
    case Some(rec) => Some(ExtractRow(rec))
  }

  predicate NonBlank(line: string)
  {
    !IsBlank(line)
  }

  /** The lines the loop decodes: the non-blank ones, in file order. */
  function Kept(lines: seq<string>): seq<string>
  {
    Filter(lines, NonBlank)
  }

  /** The loop over the log's lines: blank lines are skipped, every other
      line is decoded and becomes a row; one undecodable line fails the
      whole read. */
  function ReadRows(lines: seq<string>, parse: string -> Option<Record>): (r: Option<seq<Row>>)
    ensures r.Some? <==> forall i :: 0 <= i < |lines| && NonBlank(lines[i]) ==> parse(Strip(lines[i])).Some?
    decreases |lines|
  {
    if |lines| == 0 then Some([])
    else
      var tail := lines[1..];
      assert forall i :: 0 <= i < |tail| ==> tail[i] == lines[i + 1];
      var line := Strip(lines[0]);
      var rest := ReadRows(tail, parse);
      if line == [] then rest
      else match parse(line)
        case None => None
        case Some(rec) =>
          match rest
          case None => None
          case Some(rows) => Some([ExtractRow(rec)] + rows)
  }

  /** A successful read gives one row per non-blank line, in file order,
      each the row that line decodes to. */
  lemma {:induction false} ReadRowsKept(lines: seq<string>, parse: string -> Option<Record>)
    requires ReadRows(lines, parse).Some?
    ensures |ReadRows(lines, parse).value| == |Kept(lines)|
    ensures forall i :: 0 <= i < |Kept(lines)| ==>
              LineRow(parse, Kept(lines)[i]) == Some(ReadRows(lines, parse).value[i])
  {
    if |lines| > 0 {
      var tail := lines[1..];
      ReadRowsKept(tail, parse);
      assert Kept(lines) == if NonBlank(lines[0]) then [lines[0]] + Kept(tail) else Kept(tail);
    }
  }

  /** Python's `xs[-limit:]` for any integer `limit`. */
  function NegativeSlice<T>(xs: seq<T>, limit: int): (r: seq<T>)
    ensures limit > 0 ==> r == xs[|xs| - Min(limit, |xs|)..]
    ensures limit == 0 ==> r == xs
    ensures limit < 0 ==> r == xs[Min(-limit, |xs|)..]
    ensures |r| <= |xs| && r == xs[|xs| - |r|..]
  {
    var start := -limit;
    var from := if start < 0 then (if |xs| + start < 0 then 0 else |xs| + start)
                else (if start > |xs| then |xs| else start);
    xs[from..]
  }

  /** `load_metrics(limit)`: a missing log gives no rows; otherwise the
      last `limit` rows in file order (all of them for a `limit` of 0).
      `None` is the decoding error the function lets escape. */
  function LoadMetrics(file: Option<seq<string>>, parse: string -> Option<Record>, limit: int): (r: Option<seq<Row>>)
    ensures file.None? ==> r == Some([])
    ensures file.Some? ==> (r.Some? <==> ReadRows(file.value, parse).Some?)
    ensures file.Some? && r.Some? ==>
      var all := ReadRows(file.value, parse).value;
      && |r.value| <= |all|
      && r.value == all[|all| - |r.value|..]
      && (limit > 0 ==> |r.value| == Min(limit, |all|))
      && (limit == 0 ==> r.value == all)
  {
    match file
    case None => Some([])
    case Some(lines) =>
      match ReadRows(lines, parse)
      case None => None
      case Some(data) =>
        var r := NegativeSlice(data, limit);
        assert limit > 0 ==> |r| == Min(limit, |data|);
        Some(r)
  }

  // ---------------------------------------------------------------------
  // From the monitor's snapshot to the dashboard's row
  // ---------------------------------------------------------------------

  function EncodeEntry(e: Entry): RecordEntry
  {
    RecordEntry(if e.metric.Some? then Some(e.metric.value.Key()) else None, e.value)
  }

  /** What `json.loads` gives back for a snapshot the monitor wrote. */
  function EncodeSnapshot(s: Monitor.Snapshot): Record
  {
    Record(Some(s.timestamp), Some(s.securityScore), Some(Map(s.entries, EncodeEntry)))
  }

  /** The row the dashboard draws for a cycle's snapshot shows that
      cycle's score, 1-minute load, memory percentage and established
      connection count (0 when `ss -tun` printed nothing). */
  lemma SnapshotRow(st: Monitor.MonitorState, p: Monitor.Probes, now: string, alertTime: string,
                    render: Fact -> string, channels: Alerts.Channels)
    ensures var st' := Monitor.RunCycle(st, p, now, alertTime, render, channels);
      var snap := st'.snapshotLog[|st.snapshotLog|];
      var row := ExtractRow(EncodeSnapshot(snap));
      && row.timestamp == Some(now)
      && row.securityScore == snap.securityScore
      && row.cpuLoad == p.load.one
      && row.memUsed == p.memory.usedPct
      && row.connections == if |p.estLines| > 0 then Collectors.CountEstablished(p.estLines) as real else 0.0
  {
    var entries := Monitor.CycleEntries(p);
    var es := Map(entries, EncodeEntry);
    CpuIsFirst(p);
    MemoryIsSecond(p);
    ConnectionsFromNetwork(p);
  }

  lemma CpuIsFirst(p: Monitor.Probes)
    ensures LastValue(Map(Monitor.CycleEntries(p), EncodeEntry), CPU_LOAD, 0.0) == p.load.one
  {
    var entries := Monitor.CycleEntries(p);
    forall i | 0 <= i < |entries| && entries[i].metric == Some(CpuLoad)
      ensures entries[i].value == Some(p.load.one)
    {
      Monitor.MetricSources(p, entries[i]);
    }
    assert CpuLoad.Key() == CPU_LOAD;
    LastValueOfEncoded(entries, CpuLoad, p.load.one, true);
  }

  lemma MemoryIsSecond(p: Monitor.Probes)
    ensures LastValue(Map(Monitor.CycleEntries(p), EncodeEntry), MEMORY_USED_PCT, 0.0) == p.memory.usedPct
  {
    var entries := Monitor.CycleEntries(p);
    forall i | 0 <= i < |entries| && entries[i].metric == Some(MemoryUsedPct)
      ensures entries[i].value == Some(p.memory.usedPct)
    {
      Monitor.MetricSources(p, entries[i]);
    }
    assert MemoryUsedPct.Key() == MEMORY_USED_PCT;
    LastValueOfEncoded(entries, MemoryUsedPct, p.memory.usedPct, true);
  }

  lemma ConnectionsFromNetwork(p: Monitor.Probes)
    ensures LastValue(Map(Monitor.CycleEntries(p), EncodeEntry), ESTABLISHED_CONNECTIONS, 0.0)
         == if |p.estLines| > 0 then Collectors.CountEstablished(p.estLines) as real else 0.0
  {
    var entries := Monitor.CycleEntries(p);
    ConnectionEntries(p);
    if |p.estLines| > 0 {
      ConnectionEntryPresent(p);
    }
    assert EstablishedConnections.Key() == ESTABLISHED_CONNECTIONS;
    assert (exists i :: 0 <= i < |entries| && entries[i].metric == Some(EstablishedConnections)) ==> |p.estLines| > 0;
    LastValueOfEncoded(entries, EstablishedConnections, Collectors.CountEstablished(p.estLines) as real, |p.estLines| > 0);
  }

  /** When every entry carrying metric `m` holds `v`, the dashboard reads
      `v` for `m` if there is such an entry and 0 otherwise. */
  lemma LastValueOfEncoded(entries: seq<Entry>, m: Metric, v: real, present: bool)
    requires forall i :: 0 <= i < |entries| && entries[i].metric == Some(m) ==> entries[i].value == Some(v)
    requires present <==> exists i :: 0 <= i < |entries| && entries[i].metric == Some(m)
    ensures LastValue(Map(entries, EncodeEntry), m.Key(), 0.0) == if present then v else 0.0
  {
    var es := Map(entries, EncodeEntry);
    forall i | 0 <= i < |es|
      ensures es[i].metric == Some(m.Key()) <==> entries[i].metric == Some(m)
    {
      MetricKeyIs(entries[i], m);
    }
  }

  /** Every `established_connections` entry of a cycle holds the count. */
  lemma ConnectionEntries(p: Monitor.Probes)
    ensures forall i :: 0 <= i < |Monitor.CycleEntries(p)| && Monitor.CycleEntries(p)[i].metric == Some(EstablishedConnections)
              ==> |p.estLines| > 0 && Monitor.CycleEntries(p)[i].value == Some(Collectors.CountEstablished(p.estLines) as real)
  {
    var entries := Monitor.CycleEntries(p);
    forall i | 0 <= i < |entries| && entries[i].metric == Some(EstablishedConnections)
      ensures |p.estLines| > 0 && entries[i].value == Some(Collectors.CountEstablished(p.estLines) as real)
    {
      Monitor.MetricSources(p, entries[i]);
      NetworkConnectionEntry(p.listenLines, p.estLines, entries[i]);
    }
  }

  lemma NetworkConnectionEntry(listenLines: seq<string>, estLines: seq<string>, e: Entry)
    requires e in Collectors.CollectNetwork(listenLines, estLines)
    requires e.metric == Some(EstablishedConnections)
    ensures |estLines| > 0 && e.value == Some(Collectors.CountEstablished(estLines) as real)
  {
    assert HasMetric(Collectors.CollectNetwork(listenLines, estLines), EstablishedConnections);
  }

  /** When `ss -tun` printed something, the cycle has an
      `established_connections` entry. */
  lemma ConnectionEntryPresent(p: Monitor.Probes)
    requires |p.estLines| > 0
    ensures exists i :: 0 <= i < |Monitor.CycleEntries(p)| && Monitor.CycleEntries(p)[i].metric == Some(EstablishedConnections)
  {
    var perf := Collectors.CollectPerformance(p.load, p.memory, Monitor.Cores(p));
    var procs := Collectors.CollectTopProcesses(p.psLines, Monitor.PROCESS_LIMIT, p.selfPid);
    var net := Collectors.CollectNetwork(p.listenLines, p.estLines);
    var auth := Collectors.CollectAuthEvents(p.authLog);
    var entries := Monitor.CycleEntries(p);
    assert entries == perf + procs + net + auth;
    var e :| e in net && e.metric == Some(EstablishedConnections);
    var j :| 0 <= j < |net| && net[j] == e;
    assert entries[|perf| + |procs| + j] == e;
  }

  /** A snapshot entry is reported under a metric's key exactly when it
      carries that metric. */
  lemma MetricKeyIs(e: Entry, m: Metric)
    ensures EncodeEntry(e).metric == Some(m.Key()) <==> e.metric == Some(m)
  {
    if e.metric.Some? {
      MetricKeyInjective(e.metric.value, m);
    }
  }
}
