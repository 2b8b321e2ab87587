/** The observation record every collector produces: a level, a message,
    and optionally a metric key, a numeric value and process details. */
module Observations {
  import opened Wrappers
  import opened Severity

  /** The `metric` keys the primary monitor writes. */
  datatype Metric =
    | CpuLoad | MemoryUsedPct | ProcessCpu | ListeningSockets | EstablishedConnections
    | FailedLogins | SuccessfulLogins | SudoCommands | AuthLog | RecentLogin
  {
    /** The key as it is written to the snapshot log. */
    function Key(): string
    {
      match this
      case CpuLoad => "cpu_load"
      case MemoryUsedPct => "memory_used_pct"
      case ProcessCpu => "process_cpu"
      case ListeningSockets => "listening_sockets"
      case EstablishedConnections => "established_connections"
      case FailedLogins => "failed_logins"
      case SuccessfulLogins => "successful_logins"
      case SudoCommands => "sudo_commands"
      case AuthLog => "auth_log"
      case RecentLogin => "recent_login"
    }
  }

  /** Distinct metrics are written under distinct keys. */
  lemma MetricKeyInjective(a: Metric, b: Metric)
    ensures a.Key() == b.Key() ==> a == b
  {
  }

  /** The three load averages of `/proc/loadavg`. */
  datatype LoadAverage = LoadAverage(one: real, five: real, fifteen: real)

  /** What the `/proc/meminfo` reading yields: used percentage, total and used megabytes. */
  datatype MemoryUsage = MemoryUsage(usedPct: real, totalMb: real, usedMb: real)

  /** What an entry's message says. The text itself is a formatting of
      these fields (left out of the model); two equal facts render the same. */
  datatype Fact =
    | LoadSummary(load: LoadAverage, cores: nat)
    | MemorySummary(memory: MemoryUsage)
    | ProcessLine(pid: string, command: string, cpu: string, mem: string)
    | ListeningCount(count: nat)
    | EstablishedCount(count: nat)
    | FailedLoginCount(count: nat)
    | SuccessfulLoginCount(count: nat)
    | SudoCount(count: nat)
    | NoAuthLog
    | LoginLine(line: string)

  /** One classified observation. */
  datatype Entry = Entry(
    level: Level,
    message: Fact,
    metric: Option<Metric>,
    value: Option<real>,
    pid: Option<int>,
    command: Option<string>)

  /** `e.get("value", 0)`. */
  function ValueOr0(e: Entry): real
  {
    e.value.GetOr(0.0)
  }

  function LevelOf(e: Entry): Level
  {
    e.level
  }

  /** Some entry of `entries` carries metric `m`. */
  predicate HasMetric(entries: seq<Entry>, m: Metric)
  {
    exists e <- entries :: e.metric == Some(m)
  }

  /** A plain entry: level, message, metric and value, no process details. */
  function Plain(level: Level, message: Fact, metric: Metric, value: Option<real>): Entry
  {
    Entry(level, message, Some(metric), value, None, None)
  }
}
