/** The primary monitor's collectors (home-soc/home_soc.py). Each turns the
    output of one operating-system probe, given here as a parameter, into
    classified entries. Command output is given as its lines; a command
    that failed or printed nothing is the empty sequence. */
module Collectors {
  import opened Wrappers
  import opened Seqs
  import opened Text
  import opened Numbers
  import opened Severity
  import opened Observations

  /** The monitor's own process is only reported at or above this CPU share. */
  const SELF_CPU_IGNORE_THRESHOLD: real := 90.0

  /** The authentication log is read through `tail -n 300`. */
  const AUTH_TAIL_LINES: nat := 300

  /** `os.cpu_count() or 1`. */
  function EffectiveCores(cpuCount: Option<nat>): (c: nat)
    ensures c >= 1
    ensures cpuCount.Some? && cpuCount.value > 0 ==> c == cpuCount.value
    ensures cpuCount.None? ==> c == 1
  {
    match cpuCount
    case Some(n) => if n > 0 then n else 1
    case None => 1
  }

  // ---------------------------------------------------------------------
  // collect_performance
  // ---------------------------------------------------------------------

  /** One `cpu_load` entry valued at the 1-minute load, then one
      `memory_used_pct` entry, each classified by its thresholds. */
  function CollectPerformance(load: LoadAverage, memory: MemoryUsage, cores: nat): (r: seq<Entry>)
    ensures |r| == 2
    ensures r[0].metric == Some(CpuLoad) && r[0].value == Some(load.one)
    ensures r[0].level == Alert <==> load.one > cores as real * 1.5
    ensures r[0].level == Warning <==> cores as real < load.one <= cores as real * 1.5
    ensures r[1].metric == Some(MemoryUsedPct) && r[1].value == Some(memory.usedPct)
    ensures r[1].level == Alert <==> memory.usedPct > 90.0
    ensures r[1].level == Warning <==> 80.0 < memory.usedPct <= 90.0
  {
    [ Plain(ClassifyLoad(load.one, cores), LoadSummary(load, cores), CpuLoad, Some(load.one)),
      Plain(ClassifyMemory(memory.usedPct), MemorySummary(memory), MemoryUsedPct, Some(memory.usedPct)) ]
  }

  // ---------------------------------------------------------------------
  // collect_top_processes
  // ---------------------------------------------------------------------

  /** The four columns of one `ps -eo pid,comm,%cpu,%mem` row. */
  datatype ProcessRow = ProcessRow(pid: string, command: string, cpu: string, mem: string)

  /** `line.split(None, 3)` unpacked into four columns; `None` when the row
      has fewer than four fields. */
  function ParseProcessRow(line: string): (r: Option<ProcessRow>)
    ensures r.None? <==> |SplitFields(line, 3)| < 4
    ensures r.Some? ==> NoSpace(r.value.pid) && NoSpace(r.value.command) && NoSpace(r.value.cpu)
    ensures r.Some? ==> r.value.pid != [] && r.value.command != [] && r.value.cpu != [] && r.value.mem != []
  {
    var fields := SplitFields(line, 3);
    if |fields| < 4 then None
    else Some(ProcessRow(fields[0], fields[1], fields[2], fields[3]))
  }

  /** `lines[1:limit+1]`: at most `limit` rows after the header. */
  function ProcessLines(psLines: seq<string>, limit: nat): (rows: seq<string>)
    ensures |rows| <= limit
    ensures |rows| == Min(limit, if |psLines| == 0 then 0 else |psLines| - 1)
    ensures forall i :: 0 <= i < |rows| ==> rows[i] == psLines[i + 1]
  {
    Slice(psLines, 1, limit + 1)
  }

  /** `int(pid_str)`, or -1 when it does not parse. */
  function RowPid(row: ProcessRow): (pid: int)
    ensures !IsIntLiteral(row.pid) ==> pid == -1
    ensures |row.pid| > 0 && AllDigits(row.pid) ==> pid == DigitsValue(row.pid)
    ensures forall n :: row.pid == IntToString(n) ==> pid == n
  {
    assert forall n :: row.pid == IntToString(n) ==> ParseInt(row.pid) == Some(n) by {
      forall n | row.pid == IntToString(n) ensures ParseInt(row.pid) == Some(n) {
        IntToStringRoundTrip(n);
      }
    }
    ParseInt(row.pid).GetOr(-1)
  }

  /** `float(cpu_str)`, or 0.0 when it does not parse. */
  function RowCpu(row: ProcessRow): (cpu: real)
    ensures !IsFloatLiteral(row.cpu) ==> cpu == 0.0
    ensures |row.cpu| > 0 && AllDigits(row.cpu) ==> cpu == DigitsValue(row.cpu) as real
    ensures !(|row.cpu| > 0 && row.cpu[0] == '-') ==> cpu >= 0.0
  {
    if |row.cpu| > 0 && AllDigits(row.cpu) then
      ParseDecimalOfInteger(row.cpu);
      ParseDecimal(row.cpu).GetOr(0.0)
    else
      ParseDecimal(row.cpu).GetOr(0.0)
  }

  /** The monitor's own row is dropped unless it uses 90% CPU or more. */
  predicate IsQuietSelf(row: ProcessRow, selfPid: int)
  {
    RowPid(row) == selfPid && RowCpu(row) < SELF_CPU_IGNORE_THRESHOLD
  }

  /** The entry one `ps` row contributes, if any. */
  function ProcessEntry(line: string, selfPid: int): (r: Option<Entry>)
    ensures r.None? <==> ParseProcessRow(line).None? || IsQuietSelf(ParseProcessRow(line).value, selfPid)
    ensures r.Some? ==>
      var row := ParseProcessRow(line).value;
      && r.value.metric == Some(ProcessCpu)
      && r.value.value == Some(RowCpu(row))
      && r.value.pid == Some(RowPid(row))
      && r.value.command == Some(row.command)
      && r.value.level == ClassifyProcessCpu(RowCpu(row))
  {
    match ParseProcessRow(line)
    case None => None
    case Some(row) =>
      var pid := RowPid(row);
      var cpu := RowCpu(row);
      if pid == selfPid && cpu < SELF_CPU_IGNORE_THRESHOLD then None
      else
        Some(Entry(ClassifyProcessCpu(cpu), ProcessLine(IntToString(pid), row.command, row.cpu, row.mem),
                   Some(ProcessCpu), Some(cpu), Some(pid), Some(row.command)))
  }

  /** The top-CPU processes among the first `limit` rows of `ps` output
      sorted by CPU, without short rows and without the monitor's own
      quiet process. */
  function CollectTopProcesses(psLines: seq<string>, limit: nat, selfPid: int): (r: seq<Entry>)
    ensures |r| <= limit
    ensures forall e <- r :: e.metric == Some(ProcessCpu) && e.level == ClassifyProcessCpu(ValueOr0(e))
    ensures forall e <- r :: e.pid == Some(selfPid) ==> ValueOr0(e) >= SELF_CPU_IGNORE_THRESHOLD
    ensures forall e <- r :: exists line <- ProcessLines(psLines, limit) :: ProcessEntry(line, selfPid) == Some(e)
    ensures forall line <- ProcessLines(psLines, limit) ::
              ProcessEntry(line, selfPid).Some? ==> ProcessEntry(line, selfPid).value in r
  {
    FilterMap(ProcessLines(psLines, limit), line => ProcessEntry(line, selfPid))
  }

  // ---------------------------------------------------------------------
  // collect_network
  // ---------------------------------------------------------------------

  /** Rows of `ss -tun` after the header that mention `ESTAB`. */
  function CountEstablished(estLines: seq<string>): (n: nat)
    ensures |estLines| > 0 ==> n <= |estLines| - 1
  {
    if |estLines| == 0 then 0 else CountContaining(estLines[1..], "ESTAB")
  }

  /** The count is the number of lines after the header that mention `ESTAB`. */
  lemma CountEstablishedFilter(estLines: seq<string>)
    ensures CountEstablished(estLines) == if |estLines| == 0 then 0 else |Filter(estLines[1..], Mentions("ESTAB"))|
  {
    if |estLines| > 0 {
      CountContainingFilter(estLines[1..], "ESTAB");
    }
  }

  /** A `listening_sockets` entry (always `info`) when `ss -tuln` printed
      anything, then an `established_connections` entry when `ss -tun` did. */
  function CollectNetwork(listenLines: seq<string>, estLines: seq<string>): (r: seq<Entry>)
    ensures |r| == (if |listenLines| > 0 then 1 else 0) + (if |estLines| > 0 then 1 else 0)
    ensures HasMetric(r, ListeningSockets) <==> |listenLines| > 0
    ensures HasMetric(r, EstablishedConnections) <==> |estLines| > 0
    ensures forall e <- r :: e.metric == Some(ListeningSockets) ==>
              e.level == Info && e.value == Some((|listenLines| - 1) as real)
    ensures forall e <- r :: e.metric == Some(EstablishedConnections) ==>
              e.value == Some(CountEstablished(estLines) as real)
              && e.level == ClassifyConnections(CountEstablished(estLines))
    ensures forall e <- r :: e.metric == Some(ListeningSockets) || e.metric == Some(EstablishedConnections)
  {
    var listen :=
      if |listenLines| > 0 then
        var n := |listenLines| - 1;
        [Plain(Info, ListeningCount(n), ListeningSockets, Some(n as real))]
      else [];
    var est :=
      if |estLines| > 0 then
        var n := CountEstablished(estLines);
        [Plain(ClassifyConnections(n), EstablishedCount(n), EstablishedConnections, Some(n as real))]
      else [];
    listen + est
  }

  // ---------------------------------------------------------------------
  // collect_auth_events
  // ---------------------------------------------------------------------

  /** The last 300 lines of the log, what `tail -n 300` prints. */
  function TailWindow(logLines: seq<string>): (w: seq<string>)
    ensures |w| == Min(AUTH_TAIL_LINES, |logLines|)
    ensures w == logLines[|logLines| - |w|..]
  {
    if |logLines| <= AUTH_TAIL_LINES then logLines else logLines[|logLines| - AUTH_TAIL_LINES..]
  }

  function FailedCount(window: seq<string>): nat
  {
    CountContainingEither(window, "Failed password", "authentication failure")
  }

  function AcceptedCount(window: seq<string>): nat
  {
    CountContainingEither(window, "Accepted password", "session opened for user")
  }

  function SudoUseCount(window: seq<string>): nat
  {
    CountContaining(window, "sudo:")
  }

  /** One entry per kind of authentication event seen in the tail window:
      failed logins (`warning` below 10, `alert` from 10), successful
      logins and sudo use (both `info`); a kind with no lines gives no
      entry. `authLog` is `None` when neither known log path exists. */
  function CollectAuthEvents(authLog: Option<seq<string>>): (r: seq<Entry>)
    ensures authLog.None? ==> |r| == 1 && r[0].level == Info && r[0].metric == Some(AuthLog)
    ensures authLog.Some? ==>
      var w := TailWindow(authLog.value);
      && (HasMetric(r, FailedLogins) <==> FailedCount(w) > 0)
      && (HasMetric(r, SuccessfulLogins) <==> AcceptedCount(w) > 0)
      && (HasMetric(r, SudoCommands) <==> SudoUseCount(w) > 0)
      && (forall e <- r :: e.metric == Some(FailedLogins) ==>
            && e.value == Some(FailedCount(w) as real)
            && 1 <= FailedCount(w) <= AUTH_TAIL_LINES
            && (e.level == Alert <==> FailedCount(w) >= 10)
            && (e.level == Warning <==> FailedCount(w) < 10))
      && (forall e <- r :: e.metric == Some(SuccessfulLogins) ==> e.level == Info && e.value == Some(AcceptedCount(w) as real))
      && (forall e <- r :: e.metric == Some(SudoCommands) ==> e.level == Info && e.value == Some(SudoUseCount(w) as real))
      && (forall e <- r :: e.metric in {Some(FailedLogins), Some(SuccessfulLogins), Some(SudoCommands)})
    ensures |r| <= 3
  {
    match authLog
    case None => [Plain(Info, NoAuthLog, AuthLog, None)]
    case Some(logLines) =>
      var w := TailWindow(logLines);
      var failed := FailedCount(w);
      var accepted := AcceptedCount(w);
      var sudo := SudoUseCount(w);
      (if failed > 0 then [Plain(ClassifyFailedLogins(failed), FailedLoginCount(failed), FailedLogins, Some(failed as real))] else [])
      + (if accepted > 0 then [Plain(Info, SuccessfulLoginCount(accepted), SuccessfulLogins, Some(accepted as real))] else [])
      + (if sudo > 0 then [Plain(Info, SudoCount(sudo), SudoCommands, Some(sudo as real))] else [])
  }

  /** When the tail window holds only blank lines (`tail` printed nothing
      once stripped) there are no entries at all. */
  lemma BlankTailYieldsNothing(logLines: seq<string>)
    requires forall l <- TailWindow(logLines) :: IsBlank(l)
    ensures CollectAuthEvents(Some(logLines)) == []
  {
    var w := TailWindow(logLines);
    BlankWindowCounts(w, "Failed password", "authentication failure");
    BlankWindowCounts(w, "Accepted password", "session opened for user");
    BlankWindowCounts(w, "sudo:", "sudo:");
  }

  lemma {:induction false} BlankWindowCounts(w: seq<string>, a: string, b: string)
    requires forall l <- w :: IsBlank(l)
    requires |a| > 0 && !IsSpace(a[0]) && |b| > 0 && !IsSpace(b[0])
    ensures CountContainingEither(w, a, b) == 0 && CountContaining(w, a) == 0
  {
    if |w| > 0 {
      BlankContainsNoWord(w[0], a);
      BlankContainsNoWord(w[0], b);
      BlankWindowCounts(w[1..], a, b);
    }
  }

  // ---------------------------------------------------------------------
  // collect_recent_logins
  // ---------------------------------------------------------------------

  /** A `last` line worth showing: not blank and not the `wtmp begins` trailer. */
  predicate IsLoginRecord(line: string)
  {
    !IsBlank(line) && !Contains(line, "wtmp begins")
  }

  function LoginEntry(line: string): Entry
  {
    Plain(Info, LoginLine(line), RecentLogin, None)
  }

  /** The first `limit` login records of `last -n limit`, each an `info` entry. */
  function CollectRecentLogins(lastLines: seq<string>, limit: nat): (r: seq<Entry>)
    ensures |r| == Min(limit, |Filter(lastLines, IsLoginRecord)|)
    ensures forall i :: 0 <= i < |r| ==> r[i] == LoginEntry(Filter(lastLines, IsLoginRecord)[i])
    ensures forall e <- r :: e.level == Info && e.message.LoginLine? && IsLoginRecord(e.message.line)
  {
    var clean := Filter(lastLines, IsLoginRecord);
    var shown := Take(clean, limit);
    seq(|shown|, i requires 0 <= i < |shown| => LoginEntry(shown[i]))
  }
}
