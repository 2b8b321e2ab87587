/** One poll cycle of the primary monitor (the body of `main`'s loop in
    home-soc/home_soc.py): collect, score, append the snapshot, handle
    alerts. The probes' readings, the clock and the rendering of messages
    are parameters. */
module Monitor {
  import opened Wrappers
  import opened Severity
  import opened Observations
  import opened Collectors
  import opened Score
  import opened Alerts

  /** Both collectors that take a limit are called with 5. */
  const PROCESS_LIMIT: nat := 5
  const LOGIN_LIMIT: nat := 5

  /** Everything the cycle reads from the operating system. */
  datatype Probes = Probes(
    load: LoadAverage,
    memory: MemoryUsage,
    cpuCount: Option<nat>,
    psLines: seq<string>,
    selfPid: int,
    listenLines: seq<string>,
    estLines: seq<string>,
    authLog: Option<seq<string>>,
    lastLines: seq<string>)

  /** One line of the snapshot log. */
  datatype Snapshot = Snapshot(timestamp: string, securityScore: int, entries: seq<Entry>)

  /** The snapshot log and the notifier. */
  datatype MonitorState = MonitorState(snapshotLog: seq<Snapshot>, notifier: NotifierState)

  const InitialMonitor: MonitorState := MonitorState([], InitialNotifier)

  function Cores(p: Probes): nat
  {
    EffectiveCores(p.cpuCount)
  }

  /** `perf_entries + proc_entries + net_entries + auth_entries`. */
  function CycleEntries(p: Probes): (entries: seq<Entry>)
    ensures |entries| >= 2
    ensures entries[0].metric == Some(CpuLoad) && entries[0].value == Some(p.load.one)
    ensures entries[1].metric == Some(MemoryUsedPct) && entries[1].value == Some(p.memory.usedPct)
    ensures forall e <- entries :: e.metric != Some(RecentLogin)
  {
    var performance := CollectPerformance(p.load, p.memory, Cores(p));
    var processes := CollectTopProcesses(p.psLines, PROCESS_LIMIT, p.selfPid);
    var network := CollectNetwork(p.listenLines, p.estLines);
    var auth := CollectAuthEvents(p.authLog);
    assert NoRecentLogin(performance) by {
      forall e <- performance ensures e.metric != Some(RecentLogin) {
        assert e == performance[0] || e == performance[1];
      }
    }
    assert NoRecentLogin(processes);
    assert NoRecentLogin(network);
    AuthEventsAreNotLogins(p.authLog);
    JoinedEntries(performance, processes, network, auth);
    performance + processes + network + auth
  }

  predicate NoRecentLogin(entries: seq<Entry>)
  {
    forall e <- entries :: e.metric != Some(RecentLogin)
  }

  /** The four collectors' lists, joined: the first two entries are the
      performance pair and no recent login is among them. */
  lemma JoinedEntries(performance: seq<Entry>, processes: seq<Entry>, network: seq<Entry>, auth: seq<Entry>)
    requires |performance| == 2
    requires NoRecentLogin(performance) && NoRecentLogin(processes)
    requires NoRecentLogin(network) && NoRecentLogin(auth)
    ensures var all := performance + processes + network + auth;
            && all[0] == performance[0] && all[1] == performance[1]
            && NoRecentLogin(all)
  {
  }

  lemma AuthEventsAreNotLogins(authLog: Option<seq<string>>)
    ensures NoRecentLogin(CollectAuthEvents(authLog))
  {
    AuthEventMetrics(authLog);
  }

  /** The metrics the auth-log collector can report. */
  lemma AuthEventMetrics(authLog: Option<seq<string>>)
    ensures forall e <- CollectAuthEvents(authLog) ::
              e.metric in {Some(FailedLogins), Some(SuccessfulLogins), Some(SudoCommands), Some(AuthLog)}
  {
    if authLog.None? {
      var r := CollectAuthEvents(authLog);
      assert r == [r[0]];
    }
  }

  /** The recent-login entries are collected for display only: none of
      them is among the cycle's entries, so none reaches the score, the
      snapshot or the alerts. */
  function RecentLoginEntries(p: Probes): (r: seq<Entry>)
    ensures |r| <= LOGIN_LIMIT
    ensures forall e <- r :: e.metric == Some(RecentLogin) && e !in CycleEntries(p)
  {
    CollectRecentLogins(p.lastLines, LOGIN_LIMIT)
  }

  /** One cycle: `now` is the snapshot's timestamp and `alertTime` the one
      `handle_critical_alerts` reads (the two clock reads may differ). */
  function RunCycle(st: MonitorState, p: Probes, now: string, alertTime: string,
                    render: Fact -> string, channels: Channels): (st': MonitorState)
    ensures |st'.snapshotLog| == |st.snapshotLog| + 1
    ensures st'.snapshotLog[..|st.snapshotLog|] == st.snapshotLog
    ensures var snap := st'.snapshotLog[|st.snapshotLog|];
            && snap.timestamp == now
            && snap.entries == CycleEntries(p)
            && 0 <= snap.securityScore <= 100
            && snap.securityScore == 100 - TotalDeduction(CycleEntries(p), Cores(p))
    ensures HasAlert(CycleEntries(p)) <==> |st'.notifier.alertLog| == |st.notifier.alertLog| + 1
    ensures !HasAlert(CycleEntries(p)) ==> st'.notifier == st.notifier
  {
    var entries := CycleEntries(p);
    var score := ComputeSecurityScore(entries, Cores(p));
    ScoreMatchesReference(entries, Cores(p));
    var logged := st.(snapshotLog := st.snapshotLog + [Snapshot(now, score, entries)]);
    logged.(notifier := HandleCriticalAlerts(st.notifier, entries, alertTime, render, channels))
  }

  /** Readings of one cycle: probes and the two clock reads. */
  datatype Tick = Tick(probes: Probes, now: string, alertTime: string)

  /** The loop, run over a sequence of cycles. */
  function RunCycles(st: MonitorState, ticks: seq<Tick>, render: Fact -> string, channels: Channels): (st': MonitorState)
    ensures |st'.snapshotLog| == |st.snapshotLog| + |ticks|
    decreases |ticks|
  {
    if |ticks| == 0 then st
    else RunCycles(RunCycle(st, ticks[0].probes, ticks[0].now, ticks[0].alertTime, render, channels),
                   ticks[1..], render, channels)
  }

  /** Every logged score is within 0..100 and the notifier's invariant holds. */
  predicate MonitorValid(st: MonitorState)
  {
    && Valid(st.notifier)
    && (forall s <- st.snapshotLog :: 0 <= s.securityScore <= 100)
  }

  /** The invariant holds at start and after any number of cycles. */
  lemma {:induction false} RunCyclesValid(st: MonitorState, ticks: seq<Tick>, render: Fact -> string, channels: Channels)
    requires MonitorValid(st)
    ensures MonitorValid(RunCycles(st, ticks, render, channels))
    decreases |ticks|
  {
    if |ticks| > 0 {
      var t := ticks[0];
      RunCycleValid(st, t.probes, t.now, t.alertTime, render, channels);
      RunCyclesValid(RunCycle(st, t.probes, t.now, t.alertTime, render, channels), ticks[1..], render, channels);
    }
  }

  /** One cycle keeps the invariant. */
  lemma RunCycleValid(st: MonitorState, p: Probes, now: string, alertTime: string,
                      render: Fact -> string, channels: Channels)
    requires MonitorValid(st)
    ensures MonitorValid(RunCycle(st, p, now, alertTime, render, channels))
  {
    var entries := CycleEntries(p);
    var snap := Snapshot(now, ComputeSecurityScore(entries, Cores(p)), entries);
    var notifier := HandleCriticalAlerts(st.notifier, entries, alertTime, render, channels);
    assert RunCycle(st, p, now, alertTime, render, channels) == MonitorState(st.snapshotLog + [snap], notifier);
    HandlePreservesValid(st.notifier, entries, alertTime, render, channels);
    ScoresInRangeAppend(st.snapshotLog, snap);
  }

  lemma ScoresInRangeAppend(log: seq<Snapshot>, snap: Snapshot)
    requires forall s <- log :: 0 <= s.securityScore <= 100
    requires 0 <= snap.securityScore <= 100
    ensures forall s <- log + [snap] :: 0 <= s.securityScore <= 100
  {
  }

  lemma InitialMonitorValid()
    ensures MonitorValid(InitialMonitor)
  {
  }

  /** A calm machine: load at most the core count, memory at most 80%, no
      process above 80%, at most 50 connections, no failed logins. */
  predicate Calm(p: Probes)
  {
    && p.load.one <= Cores(p) as real
    && p.memory.usedPct <= 80.0
    && (forall e <- CollectTopProcesses(p.psLines, PROCESS_LIMIT, p.selfPid) :: ValueOr0(e) <= 80.0)
    && CountEstablished(p.estLines) <= 50
    && (p.authLog.None? || FailedCount(TailWindow(p.authLog.value)) == 0)
  }

  lemma CalmHasNoAlert(p: Probes)
    requires Calm(p)
    ensures !HasAlert(CycleEntries(p))
  {
    var perf := CollectPerformance(p.load, p.memory, Cores(p));
    var procs := CollectTopProcesses(p.psLines, PROCESS_LIMIT, p.selfPid);
    var net := CollectNetwork(p.listenLines, p.estLines);
    var auth := CollectAuthEvents(p.authLog);
    assert forall e <- perf :: e.level != Alert;
    assert forall e <- procs :: e.level != Alert by {
      forall e <- procs ensures e.level != Alert {
        assert e.level == ClassifyProcessCpu(ValueOr0(e));
      }
    }
    assert forall e <- net :: e.level != Alert;
    assert forall e <- auth :: e.level != Alert;
    assert CycleEntries(p) == perf + procs + net + auth;
  }

  /** Which collector can produce which metric. */
  lemma {:induction false} MetricSources(p: Probes, e: Entry)
    requires e in CycleEntries(p)
    ensures e.metric == Some(CpuLoad) || e.metric == Some(MemoryUsedPct)
            ==> e in CollectPerformance(p.load, p.memory, Cores(p))
    ensures e.metric == Some(ProcessCpu) ==> e in CollectTopProcesses(p.psLines, PROCESS_LIMIT, p.selfPid)
    ensures e.metric == Some(EstablishedConnections) ==> e in CollectNetwork(p.listenLines, p.estLines)
    ensures e.metric == Some(FailedLogins) ==> e in CollectAuthEvents(p.authLog)
  {
    var perf := CollectPerformance(p.load, p.memory, Cores(p));
    var procs := CollectTopProcesses(p.psLines, PROCESS_LIMIT, p.selfPid);
    var net := CollectNetwork(p.listenLines, p.estLines);
    var auth := CollectAuthEvents(p.authLog);
    assert CycleEntries(p) == perf + procs + net + auth;
    if e in perf {
      assert e == perf[0] || e == perf[1];
    } else if e in procs {
      assert e.metric == Some(ProcessCpu);
    } else if e in net {
      assert e.metric == Some(ListeningSockets) || e.metric == Some(EstablishedConnections);
    } else {
      assert e in auth;
      AuthEventMetrics(p.authLog);
    }
  }

  lemma CalmHasNoDeduction(p: Probes)
    requires Calm(p)
    ensures TotalDeduction(CycleEntries(p), Cores(p)) == 0
  {
    var entries := CycleEntries(p);
    assert FirstWith(entries, CpuLoad) == Some(entries[0]);
    assert FirstWith(entries, MemoryUsedPct) == Some(entries[1]) by {
      assert entries[1..][0] == entries[1];
    }
    assert !HasMetric(entries, FailedLogins) by {
      forall e <- entries ensures e.metric != Some(FailedLogins) {
        MetricSources(p, e);
      }
    }
    assert FirstDeduction(entries, EstablishedConnections, Cores(p)) == 0 by {
      if HasMetric(entries, EstablishedConnections) {
        var e := FirstWith(entries, EstablishedConnections).value;
        MetricSources(p, e);
      }
    }
    assert !HasHotProcess(entries) by {
      forall e <- entries | e.metric == Some(ProcessCpu) ensures ValueOr0(e) <= 80.0 {
        MetricSources(p, e);
      }
    }
  }

  /** A calm cycle scores 100 and leaves the alert log and the notifier untouched. */
  lemma CalmCycle(st: MonitorState, p: Probes, now: string, alertTime: string,
                  render: Fact -> string, channels: Channels)
    requires Calm(p)
    ensures var st' := RunCycle(st, p, now, alertTime, render, channels);
            && st'.snapshotLog[|st.snapshotLog|].securityScore == 100
            && st'.notifier == st.notifier
  {
    CalmHasNoAlert(p);
    CalmHasNoDeduction(p);
  }
}
