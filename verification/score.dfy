/** The composite security score (`compute_security_score`): start at 100
    and subtract a fixed deduction per troubled metric. */
module Score {
  import opened Wrappers
  import opened Severity
  import opened Observations

  /** A process counts as hot above this CPU share. */
  const HOT_PROCESS_CPU: real := 80.0

  /** `max(0, min(100, score))`. */
  function Clamp(score: int): (r: int)
    ensures 0 <= r <= 100
    ensures 0 <= score <= 100 ==> r == score
  {
    if score < 0 then 0 else if score > 100 then 100 else score
  }

  // ---------------------------------------------------------------------
  // Deduction table
  // ---------------------------------------------------------------------

  /** The deduction that matches a level: 20 for `alert`, 10 for
      `warning`, nothing for `info`. */
  function LevelDeduction(l: Level): nat
  {
    match l
    case Alert => 20
    case Warning => 10
    case Info => 0
  }

  /** 20 above one and a half times the core count, 10 above the core count. */
  function CpuDeduction(load: real, cores: nat): (d: nat)
    ensures d == 20 <==> load > cores as real * 1.5
    ensures d == 10 <==> cores as real < load <= cores as real * 1.5
    ensures d == 0 <==> load <= cores as real
  {
    if load > cores as real * 1.5 then 20 else if load > cores as real then 10 else 0
  }

  /** 20 above 90 percent used, 10 above 80. */
  function MemoryDeduction(usedPct: real): (d: nat)
    ensures d == 20 <==> usedPct > 90.0
    ensures d == 10 <==> 80.0 < usedPct <= 90.0
    ensures d == 0 <==> usedPct <= 80.0
  {
    if usedPct > 90.0 then 20 else if usedPct > 80.0 then 10 else 0
  }

  /** 25 above 20 failures, 10 above 5, 5 for any failure at all. */
  function FailedLoginDeduction(fails: real): (d: nat)
    ensures d == 25 <==> fails > 20.0
    ensures d == 10 <==> 5.0 < fails <= 20.0
    ensures d == 5 <==> 0.0 < fails <= 5.0
    ensures d == 0 <==> fails <= 0.0
  {
    if fails > 20.0 then 25 else if fails > 5.0 then 10 else if fails > 0.0 then 5 else 0
  }

  /** 20 above 200 established connections, 10 above 50. */
  function ConnectionDeduction(conns: real): (d: nat)
    ensures d == 20 <==> conns > 200.0
    ensures d == 10 <==> 50.0 < conns <= 200.0
    ensures d == 0 <==> conns <= 50.0
  {
    if conns > 200.0 then 20 else if conns > 50.0 then 10 else 0
  }

  /** The score and the per-metric levels use the same thresholds: the cpu,
      memory and connection deductions are 20 exactly for an `alert`
      reading and 10 exactly for a `warning` one. */
  lemma DeductionMatchesLevel(load: real, cores: nat, usedPct: real, conns: nat)
    ensures CpuDeduction(load, cores) == LevelDeduction(ClassifyLoad(load, cores))
    ensures MemoryDeduction(usedPct) == LevelDeduction(ClassifyMemory(usedPct))
    ensures ConnectionDeduction(conns as real) == LevelDeduction(ClassifyConnections(conns))
  {
  }

  /** The deduction a metric's first value earns; metrics outside the
      table earn nothing. */
  function MetricDeduction(m: Metric, v: real, cores: nat): (d: nat)
    ensures d <= 25
    ensures v <= 0.0 ==> d == 0
    ensures m == CpuLoad ==> d == LevelDeduction(ClassifyLoad(v, cores))
    ensures m == MemoryUsedPct ==> d == LevelDeduction(ClassifyMemory(v))
    ensures m == EstablishedConnections ==>
              (d == 20 <==> v > 200.0) && (d == 10 <==> 50.0 < v <= 200.0) && (d == 0 <==> v <= 50.0)
    ensures m == FailedLogins ==>
              (d == 25 <==> v > 20.0) && (d == 10 <==> 5.0 < v <= 20.0)
              && (d == 5 <==> 0.0 < v <= 5.0) && (d == 0 <==> v <= 0.0)
    ensures m !in {CpuLoad, MemoryUsedPct, FailedLogins, EstablishedConnections} ==> d == 0
  {
    match m
    case CpuLoad => CpuDeduction(v, cores)
    case MemoryUsedPct => MemoryDeduction(v)
    case FailedLogins => FailedLoginDeduction(v)
    case EstablishedConnections => ConnectionDeduction(v)
    case _ => 0
  }

  /** A higher value never earns a smaller deduction. */
  lemma MetricDeductionMonotone(m: Metric, v: real, v': real, cores: nat)
    requires v <= v'
    ensures MetricDeduction(m, v, cores) <= MetricDeduction(m, v', cores)
  {
  }

  // ---------------------------------------------------------------------
  // The computation as written: group by metric, then look at group heads
  // ---------------------------------------------------------------------

  /** `metrics.setdefault(m, []).append(e)` over all entries with a metric. */
  function GroupByMetric(entries: seq<Entry>): (g: map<Metric, seq<Entry>>)
    ensures forall k :: k in g ==> |g[k]| > 0
  {
    if |entries| == 0 then map[]
    else
      var g := GroupByMetric(entries[..|entries| - 1]);
      var e := entries[|entries| - 1];
      match e.metric
      case None => g
      case Some(k) => g[k := (if k in g then g[k] else []) + [e]]
  }

  /** The deduction read from the head of metric `m`'s group, if there is one. */
  function GroupDeduction(g: map<Metric, seq<Entry>>, m: Metric, cores: nat): nat
    requires forall k :: k in g ==> |g[k]| > 0
  {
    if m in g then MetricDeduction(m, ValueOr0(g[m][0]), cores) else 0
  }

  /** `compute_security_score`: 100 minus the cpu, memory, failed-login and
      connection deductions read from each metric's first entry, minus 10
      once if any process entry is hot, clamped to 0..100. `cores` is
      `os.cpu_count() or 1`. */
  function ComputeSecurityScore(entries: seq<Entry>, cores: nat): (score: int)
    ensures 0 <= score <= 100
  {
    var g := GroupByMetric(entries);
    var procs := if ProcessCpu in g then g[ProcessCpu] else [];
    var hot := if exists e <- procs :: ValueOr0(e) > HOT_PROCESS_CPU then 10 else 0;
    Clamp(100 - GroupDeduction(g, CpuLoad, cores) - GroupDeduction(g, MemoryUsedPct, cores)
              - GroupDeduction(g, FailedLogins, cores) - GroupDeduction(g, EstablishedConnections, cores)
              - hot)
  }

  // ---------------------------------------------------------------------
  // Reference definition: the first entry per metric, read directly
  // ---------------------------------------------------------------------

  /** The first entry carrying metric `m`. */
  function FirstWith(entries: seq<Entry>, m: Metric): (r: Option<Entry>)
    ensures r.None? <==> !HasMetric(entries, m)
    ensures r.Some? ==> r.value in entries && r.value.metric == Some(m)
  {
    if |entries| == 0 then None
    else if entries[0].metric == Some(m) then Some(entries[0])
    else
      assert forall e <- entries[1..] :: e in entries;
      FirstWith(entries[1..], m)
  }

  /** The deduction metric `m` earns in `entries`. */
  function FirstDeduction(entries: seq<Entry>, m: Metric, cores: nat): nat
  {
    match FirstWith(entries, m)
    case None => 0
    case Some(e) => MetricDeduction(m, ValueOr0(e), cores)
  }

  /** Some process entry uses more than 80% CPU. */
  predicate HasHotProcess(entries: seq<Entry>)
  {
    exists e <- entries :: e.metric == Some(ProcessCpu) && ValueOr0(e) > HOT_PROCESS_CPU
  }

  /** Everything subtracted from 100. */
  function TotalDeduction(entries: seq<Entry>, cores: nat): (d: nat)
    ensures d <= 95
  {
    FirstDeduction(entries, CpuLoad, cores) + FirstDeduction(entries, MemoryUsedPct, cores)
    + FirstDeduction(entries, FailedLogins, cores) + FirstDeduction(entries, EstablishedConnections, cores)
    + (if HasHotProcess(entries) then 10 else 0)
  }

  /** Appending an entry only changes the first entry of a metric that had none. */
  lemma {:induction false} FirstWithAppend(entries: seq<Entry>, e: Entry, m: Metric)
    ensures FirstWith(entries + [e], m)
         == if HasMetric(entries, m) then FirstWith(entries, m)
            else if e.metric == Some(m) then Some(e) else None
  {
    if |entries| > 0 {
      assert (entries + [e])[1..] == entries[1..] + [e];
      FirstWithAppend(entries[1..], e, m);
      assert HasMetric(entries, m) <==> entries[0].metric == Some(m) || HasMetric(entries[1..], m);
    }
  }

  /** For one metric: it has a group iff some entry carries it; the group
      holds exactly the entries carrying it and is headed by the first. */
  lemma {:induction false} GroupByMetricAt(entries: seq<Entry>, k: Metric)
    ensures k in GroupByMetric(entries) <==> HasMetric(entries, k)
    ensures k in GroupByMetric(entries) ==> Some(GroupByMetric(entries)[k][0]) == FirstWith(entries, k)
    ensures k in GroupByMetric(entries) ==>
              forall e :: e in GroupByMetric(entries)[k] <==> e in entries && e.metric == Some(k)
  {
    if |entries| > 0 {
      var init := entries[..|entries| - 1];
      var e := entries[|entries| - 1];
      assert entries == init + [e];
      GroupByMetricAt(init, k);
      FirstWithAppend(init, e, k);
      assert HasMetric(entries, k) <==> HasMetric(init, k) || e.metric == Some(k);
    }
  }

  /** The grouping holds, per metric, exactly the entries with that metric,
      and its head is the first of them. */
  lemma GroupByMetricSpec(entries: seq<Entry>)
    ensures forall k :: k in GroupByMetric(entries) <==> HasMetric(entries, k)
    ensures forall k :: k in GroupByMetric(entries) ==>
              && Some(GroupByMetric(entries)[k][0]) == FirstWith(entries, k)
              && (forall e :: e in GroupByMetric(entries)[k] <==> e in entries && e.metric == Some(k))
  {
    forall k
      ensures k in GroupByMetric(entries) <==> HasMetric(entries, k)
      ensures k in GroupByMetric(entries) ==>
                && Some(GroupByMetric(entries)[k][0]) == FirstWith(entries, k)
                && (forall e :: e in GroupByMetric(entries)[k] <==> e in entries && e.metric == Some(k))
    {
      GroupByMetricAt(entries, k);
    }
  }

  /** The score as written equals 100 minus the reference deductions; the
      clamp never bites, because the deductions add up to at most 95. */
  lemma ScoreMatchesReference(entries: seq<Entry>, cores: nat)
    ensures ComputeSecurityScore(entries, cores) == 100 - TotalDeduction(entries, cores)
    ensures ComputeSecurityScore(entries, cores) >= 5
  {
    var g := GroupByMetric(entries);
    GroupByMetricAt(entries, CpuLoad);
    GroupByMetricAt(entries, MemoryUsedPct);
    GroupByMetricAt(entries, FailedLogins);
    GroupByMetricAt(entries, EstablishedConnections);
    GroupByMetricAt(entries, ProcessCpu);
    var procs := if ProcessCpu in g then g[ProcessCpu] else [];
    assert (exists e <- procs :: ValueOr0(e) > HOT_PROCESS_CPU) <==> HasHotProcess(entries);
  }

  // ---------------------------------------------------------------------
  // Properties
  // ---------------------------------------------------------------------

  /** Only the first entry of a metric is read: a later cpu, memory,
      failed-login or connection entry changes nothing. */
  lemma LaterDuplicateIgnored(entries: seq<Entry>, e: Entry, cores: nat)
    requires e.metric.Some? && e.metric.value != ProcessCpu
    requires HasMetric(entries, e.metric.value)
    ensures ComputeSecurityScore(entries + [e], cores) == ComputeSecurityScore(entries, cores)
  {
    ScoreMatchesReference(entries, cores);
    ScoreMatchesReference(entries + [e], cores);
    forall m ensures FirstWith(entries + [e], m) == FirstWith(entries, m) {
      FirstWithAppend(entries, e, m);
    }
    assert HasHotProcess(entries + [e]) == HasHotProcess(entries);
  }

  /** The process deduction is flat: once one process is hot, more
      process entries change nothing. */
  lemma ProcessPenaltyIsFlat(entries: seq<Entry>, e: Entry, cores: nat)
    requires e.metric == Some(ProcessCpu)
    requires HasHotProcess(entries)
    ensures ComputeSecurityScore(entries + [e], cores) == ComputeSecurityScore(entries, cores)
  {
    ScoreMatchesReference(entries, cores);
    ScoreMatchesReference(entries + [e], cores);
    forall m | m != ProcessCpu ensures FirstWith(entries + [e], m) == FirstWith(entries, m) {
      FirstWithAppend(entries, e, m);
    }
    var h :| h in entries && h.metric == Some(ProcessCpu) && ValueOr0(h) > HOT_PROCESS_CPU;
    assert h in entries + [e];
  }

  /** Replacing one entry by one with the same metric changes at most that
      metric's first entry, and only when the replaced entry was it. */
  lemma {:induction false} FirstWithUpdate(entries: seq<Entry>, i: nat, e': Entry, m: Metric)
    requires i < |entries|
    requires e'.metric == entries[i].metric
    ensures || FirstWith(entries[i := e'], m) == FirstWith(entries, m)
            || (FirstWith(entries, m) == Some(entries[i]) && FirstWith(entries[i := e'], m) == Some(e'))
  {
    if i > 0 {
      assert entries[i := e'][1..] == entries[1..][i - 1 := e'];
      FirstWithUpdate(entries[1..], i - 1, e', m);
    }
  }

  /** Raising any single entry's value never raises the score. */
  lemma ScoreMonotone(entries: seq<Entry>, i: nat, e': Entry, cores: nat)
    requires i < |entries|
    requires e'.metric == entries[i].metric
    requires ValueOr0(e') >= ValueOr0(entries[i])
    ensures ComputeSecurityScore(entries[i := e'], cores) <= ComputeSecurityScore(entries, cores)
  {
    var entries' := entries[i := e'];
    ScoreMatchesReference(entries, cores);
    ScoreMatchesReference(entries', cores);
    forall m ensures FirstDeduction(entries', m, cores) >= FirstDeduction(entries, m, cores) {
      FirstWithUpdate(entries, i, e', m);
      if FirstWith(entries', m) != FirstWith(entries, m) {
        MetricDeductionMonotone(m, ValueOr0(entries[i]), ValueOr0(e'), cores);
      }
    }
    if HasHotProcess(entries) {
      var h :| h in entries && h.metric == Some(ProcessCpu) && ValueOr0(h) > HOT_PROCESS_CPU;
      var j :| 0 <= j < |entries| && entries[j] == h;
      if j == i {
        assert entries'[i] == e';
      } else {
        assert entries'[j] == h;
      }
    }
  }

  /** The worked example: 4 cores, load 7.0, memory 85%, 3 failed logins,
      10 connections and no hot process give 100 - 20 - 10 - 5 = 65. */
  lemma WorkedExampleScore(load: Entry, mem: Entry, fails: Entry, conns: Entry)
    requires load.metric == Some(CpuLoad) && load.value == Some(7.0)
    requires mem.metric == Some(MemoryUsedPct) && mem.value == Some(85.0)
    requires fails.metric == Some(FailedLogins) && fails.value == Some(3.0)
    requires conns.metric == Some(EstablishedConnections) && conns.value == Some(10.0)
    ensures ComputeSecurityScore([load, mem, fails, conns], 4) == 65
  {
    var entries := [load, mem, fails, conns];
    ScoreMatchesReference(entries, 4);
    WorkedExampleFirsts(load, mem, fails, conns);
    assert FirstDeduction(entries, CpuLoad, 4) == 20;
    assert FirstDeduction(entries, MemoryUsedPct, 4) == 10;
    assert FirstDeduction(entries, FailedLogins, 4) == 5;
    assert FirstDeduction(entries, EstablishedConnections, 4) == 0;
    assert !HasHotProcess(entries) by {
      forall e <- entries ensures e.metric != Some(ProcessCpu) {
        assert e == load || e == mem || e == fails || e == conns;
      }
    }
  }

  /** In the worked example each metric's first entry is its only one. */
  lemma WorkedExampleFirsts(load: Entry, mem: Entry, fails: Entry, conns: Entry)
    requires load.metric == Some(CpuLoad) && mem.metric == Some(MemoryUsedPct)
    requires fails.metric == Some(FailedLogins) && conns.metric == Some(EstablishedConnections)
    ensures var entries := [load, mem, fails, conns];
            && FirstWith(entries, CpuLoad) == Some(load)
            && FirstWith(entries, MemoryUsedPct) == Some(mem)
            && FirstWith(entries, FailedLogins) == Some(fails)
            && FirstWith(entries, EstablishedConnections) == Some(conns)
  {
    var entries := [load, mem, fails, conns];
    assert entries[1..] == [mem, fails, conns];
    assert entries[1..][1..] == [fails, conns];
    assert entries[1..][1..][1..] == [conns];
  }
}
