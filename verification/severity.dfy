/** Severity levels, the fixed-threshold classifiers both monitors apply,
    and the minimum-level filter (`LEVELS`, `filter_by_level`). */
module Severity {

  /** `info < warning < alert`. */
  datatype Level = Info | Warning | Alert {

    /** The level's name as it appears in entries and on the command line. */
    function Name(): string
    {
      match this
      case Info => "info"
      case Warning => "warning"
      case Alert => "alert"
    }

    /** The level's rank in the `LEVELS` table. */
    function Rank(): nat
    {
      match this
      case Info => 1
      case Warning => 2
      case Alert => 3
    }
  }

  /** `LEVELS.get(name, 1)`: the rank of a level name; a name the table
      does not know ranks as `info`. */
  function RankOf(name: string): (r: nat)
    ensures 1 <= r <= 3
    ensures r == Info.Rank() <==> name != Warning.Name() && name != Alert.Name()
    ensures r == Warning.Rank() <==> name == Warning.Name()
    ensures r == Alert.Rank() <==> name == Alert.Name()
  {
    if name == "info" then 1
    else if name == "warning" then 2
    else if name == "alert" then 3
    else 1
  }

  /** A level's name ranks as the level itself. */
  lemma RankOfName(l: Level)
    ensures RankOf(l.Name()) == l.Rank()
  {
  }

  // ---------------------------------------------------------------------
  // Classifiers: every threshold is a strict `>`
  // ---------------------------------------------------------------------

  /** The shape shared by every classifier: `alert` above `alertAbove`,
      otherwise `warning` above `warnAbove`, otherwise `info`. */
  function ClassifyAbove(v: real, warnAbove: real, alertAbove: real): (l: Level)
    ensures l == Alert <==> v > alertAbove
    ensures l == Warning <==> v <= alertAbove && v > warnAbove
    ensures l == Info <==> v <= alertAbove && v <= warnAbove
  {
    if v > alertAbove then Alert
    else if v > warnAbove then Warning
    else Info
  }

  /** Raising the value never lowers the level. */
  lemma ClassifyAboveMonotone(v: real, v': real, warnAbove: real, alertAbove: real)
    requires warnAbove <= alertAbove
    requires v <= v'
    ensures ClassifyAbove(v, warnAbove, alertAbove).Rank() <= ClassifyAbove(v', warnAbove, alertAbove).Rank()
  {
  }

  /** The 1-minute load average against the core count. */
  function ClassifyLoad(load1: real, cores: nat): (l: Level)
    ensures l == Alert <==> load1 > cores as real * 1.5
    ensures l == Warning <==> cores as real < load1 <= cores as real * 1.5
    ensures l == Info <==> load1 <= cores as real
  {
    ClassifyAbove(load1, cores as real, cores as real * 1.5)
  }

  /** Used memory, in percent. */
  function ClassifyMemory(usedPct: real): (l: Level)
    ensures l == Alert <==> usedPct > 90.0
    ensures l == Warning <==> 80.0 < usedPct <= 90.0
    ensures l == Info <==> usedPct <= 80.0
  {
    ClassifyAbove(usedPct, 80.0, 90.0)
  }

  /** One process's CPU share, in percent. */
  function ClassifyProcessCpu(cpu: real): (l: Level)
    ensures l == Alert <==> cpu > 80.0
    ensures l == Warning <==> 40.0 < cpu <= 80.0
    ensures l == Info <==> cpu <= 40.0
  {
    ClassifyAbove(cpu, 40.0, 80.0)
  }

  /** The number of established connections. */
  function ClassifyConnections(count: nat): (l: Level)
    ensures l == Alert <==> count > 200
    ensures l == Warning <==> 50 < count <= 200
    ensures l == Info <==> count <= 50
  {
    ClassifyAbove(count as real, 50.0, 200.0)
  }

  /** A nonzero number of failed logins: `warning` below ten, `alert` from ten on. */
  function ClassifyFailedLogins(count: nat): (l: Level)
    ensures l == Alert <==> count >= 10
    ensures l == Warning <==> count < 10
  {
    if count < 10 then Warning else Alert
  }

  /** Each classifier is monotone: a worse reading never yields a milder level. */
  lemma ClassifiersMonotone(cores: nat, a: real, b: real, m: nat, n: nat)
    requires a <= b && m <= n
    ensures ClassifyLoad(a, cores).Rank() <= ClassifyLoad(b, cores).Rank()
    ensures ClassifyMemory(a).Rank() <= ClassifyMemory(b).Rank()
    ensures ClassifyProcessCpu(a).Rank() <= ClassifyProcessCpu(b).Rank()
    ensures ClassifyConnections(m).Rank() <= ClassifyConnections(n).Rank()
    ensures ClassifyFailedLogins(m).Rank() <= ClassifyFailedLogins(n).Rank()
  {
    ClassifyAboveMonotone(a, b, cores as real, cores as real * 1.5);
    ClassifyAboveMonotone(a, b, 80.0, 90.0);
    ClassifyAboveMonotone(a, b, 40.0, 80.0);
    ClassifyAboveMonotone(m as real, n as real, 50.0, 200.0);
  }

  // ---------------------------------------------------------------------
  // filter_by_level
  // ---------------------------------------------------------------------

  /** An entry is kept when its level ranks at least as high as `minLevel`. */
  predicate Passes<E>(e: E, levelOf: E -> Level, minLevel: string)
  {
    RankOf(levelOf(e).Name()) >= RankOf(minLevel)
  }

  /** `[e for e in entries if LEVELS.get(e["level"], 1) >= LEVELS.get(min_level, 1)]`. */
  function FilterByLevel<E>(entries: seq<E>, levelOf: E -> Level, minLevel: string): (r: seq<E>)
    ensures |r| <= |entries|
    ensures forall e <- r :: e in entries && Passes(e, levelOf, minLevel)
    ensures forall e <- entries :: Passes(e, levelOf, minLevel) ==> e in r
  {
    if |entries| == 0 then []
    else
      var rest := FilterByLevel(entries[1..], levelOf, minLevel);
      assert forall e <- entries[1..] :: e in entries;
      if Passes(entries[0], levelOf, minLevel) then [entries[0]] + rest else rest
  }

  /** Filtering distributes over concatenation, so it keeps the entries'
      relative order and drops exactly the entries that fail the test. */
  lemma {:induction false} FilterByLevelAppend<E>(a: seq<E>, b: seq<E>, levelOf: E -> Level, minLevel: string)
    ensures FilterByLevel(a + b, levelOf, minLevel)
         == FilterByLevel(a, levelOf, minLevel) + FilterByLevel(b, levelOf, minLevel)
    decreases |a|
  {
    if |a| == 0 {
      assert a + b == b;
    } else {
      assert (a + b)[1..] == a[1..] + b;
      FilterByLevelAppend(a[1..], b, levelOf, minLevel);
    }
  }

  /** A minimum level nobody knows, like `info`, keeps every entry. */
  lemma {:induction false} FilterUnknownMinLevelKeepsAll<E>(entries: seq<E>, levelOf: E -> Level, minLevel: string)
    requires RankOf(minLevel) == 1
    ensures FilterByLevel(entries, levelOf, minLevel) == entries
  {
    if |entries| > 0 {
      FilterUnknownMinLevelKeepsAll(entries[1..], levelOf, minLevel);
    }
  }
}
