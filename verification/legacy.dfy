/** The legacy monitor (master_monitor.py): the same collectors and
    thresholds, but entries carry only a level and a message, the own
    process is never skipped, and there is no score and no alerting. */
module LegacyMonitor {
  import opened Wrappers
  import opened Seqs
  import opened Text
  import opened Numbers
  import opened Severity
  import opened Observations
  import Collectors

  /** `{"level": ..., "message": ...}`. */
  datatype Notice = Notice(level: Level, message: Fact)

  function NoticeLevel(n: Notice): Level
  {
    n.level
  }

  /** The primary monitor's entries stripped to level and message. */
  function Project(entries: seq<Entry>): (r: seq<Notice>)
    ensures |r| == |entries|
    ensures forall i :: 0 <= i < |r| ==> r[i] == Notice(entries[i].level, entries[i].message)
  {
    seq(|entries|, i requires 0 <= i < |entries| => Notice(entries[i].level, entries[i].message))
  }

  // ---------------------------------------------------------------------
  // Collectors
  // ---------------------------------------------------------------------

  /** The load and memory notices, with the primary monitor's thresholds. */
  function CollectPerformance(load: LoadAverage, memory: MemoryUsage, cores: nat): (r: seq<Notice>)
    ensures |r| == 2
    ensures r[0].level == Alert <==> load.one > cores as real * 1.5
    ensures r[0].level == Warning <==> cores as real < load.one <= cores as real * 1.5
    ensures r[1].level == Alert <==> memory.usedPct > 90.0
    ensures r[1].level == Warning <==> 80.0 < memory.usedPct <= 90.0
  {
    [ Notice(ClassifyLoad(load.one, cores), LoadSummary(load, cores)),
      Notice(ClassifyMemory(memory.usedPct), MemorySummary(memory)) ]
  }

  /** The notice one `ps` row contributes: every row with four fields,
      the monitor's own process included. */
  function ProcessNotice(line: string): (r: Option<Notice>)
    ensures r.None? <==> |SplitFields(line, 3)| < 4
    ensures r.Some? ==>
      var row := Collectors.ParseProcessRow(line).value;
      && r.value.message == ProcessLine(row.pid, row.command, row.cpu, row.mem)
      && r.value.level == ClassifyProcessCpu(ParseDecimal(row.cpu).GetOr(0.0))
  {
    var fields := SplitFields(line, 3);
    if |fields| < 4 then None
    else
      var cpu := ParseDecimal(fields[2]).GetOr(0.0);
      Some(Notice(ClassifyProcessCpu(cpu), ProcessLine(fields[0], fields[1], fields[2], fields[3])))
  }

  /** At most `limit` process notices, one per row with four fields; no row
      is skipped for being the monitor's own process. */
  function CollectTopProcesses(psLines: seq<string>, limit: nat): (r: seq<Notice>)
    ensures |r| <= limit
    ensures forall n <- r :: n.message.ProcessLine? && n.level == ClassifyProcessCpu(ParseDecimal(n.message.cpu).GetOr(0.0))
    ensures forall line <- Collectors.ProcessLines(psLines, limit) ::
              |SplitFields(line, 3)| >= 4 ==> ProcessNotice(line).Some? && ProcessNotice(line).value in r
    ensures forall n <- r :: exists line <- Collectors.ProcessLines(psLines, limit) ::
              |SplitFields(line, 3)| >= 4 && ProcessNotice(line) == Some(n)
  {
    FilterMap(Collectors.ProcessLines(psLines, limit), ProcessNotice)
  }

  /** The listening count (always `info`) and the classified established count. */
  function CollectNetwork(listenLines: seq<string>, estLines: seq<string>): (r: seq<Notice>)
    ensures |r| == (if |listenLines| > 0 then 1 else 0) + (if |estLines| > 0 then 1 else 0)
    ensures |listenLines| > 0 ==> r[0] == Notice(Info, ListeningCount(|listenLines| - 1))
    ensures |estLines| > 0 ==>
      var n := CountContaining(estLines[1..], "ESTAB");
      r[|r| - 1] == Notice(ClassifyConnections(n), EstablishedCount(n))
  {
    (if |listenLines| > 0 then [Notice(Info, ListeningCount(|listenLines| - 1))] else [])
    + (if |estLines| > 0 then
         var n := CountContaining(estLines[1..], "ESTAB");
         [Notice(ClassifyConnections(n), EstablishedCount(n))]
       else [])
  }

  /** Failed logins (`warning` below 10, `alert` from 10, nothing at 0),
      successful logins and sudo use (`info` when nonzero); a single
      `info` notice when no authentication log exists. */
  function CollectAuthEvents(authLog: Option<seq<string>>): (r: seq<Notice>)
    ensures authLog.None? ==> r == [Notice(Info, NoAuthLog)]
    ensures authLog.Some? ==>
      var failed := Collectors.FailedCount(Collectors.TailWindow(authLog.value));
      && ((exists n <- r :: n.message.FailedLoginCount?) <==> failed > 0)
      && (forall n <- r :: n.message.FailedLoginCount? ==>
            n.message.count == failed && n.level == ClassifyFailedLogins(failed))
      && (forall n <- r :: !n.message.FailedLoginCount? ==> n.level == Info)
  {
    match authLog
    case None => [Notice(Info, NoAuthLog)]
    case Some(logLines) =>
      var w := Collectors.TailWindow(logLines);
      var failed := CountContainingEither(w, "Failed password", "authentication failure");
      var accepted := CountContainingEither(w, "Accepted password", "session opened for user");
      var sudo := CountContaining(w, "sudo:");
      (if failed > 0 then [Notice(ClassifyFailedLogins(failed), FailedLoginCount(failed))] else [])
      + (if accepted > 0 then [Notice(Info, SuccessfulLoginCount(accepted))] else [])
      + (if sudo > 0 then [Notice(Info, SudoCount(sudo))] else [])
  }

  /** The first `limit` login records of `last -n limit`, each an `info` notice. */
  function CollectRecentLogins(lastLines: seq<string>, limit: nat): (r: seq<Notice>)
    ensures |r| == Min(limit, |Filter(lastLines, Collectors.IsLoginRecord)|)
    ensures forall i :: 0 <= i < |r| ==>
              r[i] == Notice(Info, LoginLine(Filter(lastLines, Collectors.IsLoginRecord)[i]))
  {
    var clean := Filter(lastLines, Collectors.IsLoginRecord);
    var shown := Take(clean, limit);
    seq(|shown|, i requires 0 <= i < |shown| => Notice(Info, LoginLine(shown[i])))
  }

  // ---------------------------------------------------------------------
  // filter_by_level, written as the loop it is in the source
  // ---------------------------------------------------------------------

  /** The source's loop computes the same list as the comprehension in
      the primary monitor: the notices at or above `minLevel`, in order. */
  method FilterByLevel(entries: seq<Notice>, minLevel: string) returns (filtered: seq<Notice>)
    ensures filtered == Severity.FilterByLevel(entries, NoticeLevel, minLevel)
  {
    var threshold := RankOf(minLevel);
    filtered := [];
    var i := 0;
    while i < |entries|
      invariant 0 <= i <= |entries|
      invariant filtered == Severity.FilterByLevel(entries[..i], NoticeLevel, minLevel)
    {
      var e := entries[i];
      FilterByLevelStep(entries[..i], e, minLevel);
      assert entries[..i + 1] == entries[..i] + [e];
      if RankOf(e.level.Name()) >= threshold {
        filtered := filtered + [e];
      }
      i := i + 1;
    }
    assert entries[..i] == entries;
  }

  lemma FilterByLevelStep(done: seq<Notice>, e: Notice, minLevel: string)
    ensures Severity.FilterByLevel(done + [e], NoticeLevel, minLevel)
         == Severity.FilterByLevel(done, NoticeLevel, minLevel)
            + (if RankOf(e.level.Name()) >= RankOf(minLevel) then [e] else [])
  {
    FilterByLevelAppend(done, [e], NoticeLevel, minLevel);
    assert Passes(e, NoticeLevel, minLevel) <==> RankOf(e.level.Name()) >= RankOf(minLevel);
    assert [e][1..] == [];
  }

  // ---------------------------------------------------------------------
  // The two monitors agree
  // ---------------------------------------------------------------------

  /** Apart from the process rows, the legacy notices are exactly the
      primary monitor's entries without metric, value and process details. */
  lemma PerformanceAgrees(load: LoadAverage, memory: MemoryUsage, cores: nat)
    ensures CollectPerformance(load, memory, cores) == Project(Collectors.CollectPerformance(load, memory, cores))
  {
  }

  lemma NetworkAgrees(listenLines: seq<string>, estLines: seq<string>)
    ensures CollectNetwork(listenLines, estLines) == Project(Collectors.CollectNetwork(listenLines, estLines))
  {
  }

  lemma AuthEventsAgree(authLog: Option<seq<string>>)
    ensures CollectAuthEvents(authLog) == Project(Collectors.CollectAuthEvents(authLog))
  {
    if authLog.Some? {
      var w := Collectors.TailWindow(authLog.value);
      var failed, accepted, sudo := Collectors.FailedCount(w), Collectors.AcceptedCount(w), Collectors.SudoUseCount(w);
      var f := if failed > 0 then [Plain(ClassifyFailedLogins(failed), FailedLoginCount(failed), FailedLogins, Some(failed as real))] else [];
      var a := if accepted > 0 then [Plain(Info, SuccessfulLoginCount(accepted), SuccessfulLogins, Some(accepted as real))] else [];
      var u := if sudo > 0 then [Plain(Info, SudoCount(sudo), SudoCommands, Some(sudo as real))] else [];
      assert Collectors.CollectAuthEvents(authLog) == f + a + u;
      ProjectAppend(f + a, u);
      ProjectAppend(f, a);
      var nf := if failed > 0 then [Notice(ClassifyFailedLogins(failed), FailedLoginCount(failed))] else [];
      var na := if accepted > 0 then [Notice(Info, SuccessfulLoginCount(accepted))] else [];
      var nu := if sudo > 0 then [Notice(Info, SudoCount(sudo))] else [];
      assert Project(f) == nf && Project(a) == na && Project(u) == nu;
      assert CollectAuthEvents(authLog) == nf + na + nu;
    }
  }

  lemma ProjectAppend(a: seq<Entry>, b: seq<Entry>)
    ensures Project(a + b) == Project(a) + Project(b)
  {
  }

  lemma RecentLoginsAgree(lastLines: seq<string>, limit: nat)
    ensures CollectRecentLogins(lastLines, limit) == Project(Collectors.CollectRecentLogins(lastLines, limit))
  {
  }

  /** A row that is not the monitor's own gives a notice exactly when it
      gives an entry, at the same level. */
  lemma RowAgrees(line: string, selfPid: int)
    requires Collectors.ParseProcessRow(line).Some? ==>
               Collectors.RowPid(Collectors.ParseProcessRow(line).value) != selfPid
    ensures ProcessNotice(line).Some? <==> Collectors.ProcessEntry(line, selfPid).Some?
    ensures ProcessNotice(line).Some? ==>
              ProcessNotice(line).value.level == Collectors.ProcessEntry(line, selfPid).value.level
  {
  }

  /** The top-process collectors differ only in skipping the monitor's own
      quiet process. */
  lemma TopProcessesAgree(psLines: seq<string>, limit: nat, selfPid: int)
    requires forall line <- Collectors.ProcessLines(psLines, limit) ::
               Collectors.ParseProcessRow(line).Some? ==>
               Collectors.RowPid(Collectors.ParseProcessRow(line).value) != selfPid
    ensures Map(CollectTopProcesses(psLines, limit), NoticeLevel)
         == Map(Collectors.CollectTopProcesses(psLines, limit, selfPid), LevelOf)
  {
    var lines := Collectors.ProcessLines(psLines, limit);
    forall i | 0 <= i < |lines|
      ensures ProcessNotice(lines[i]).Some? <==> Collectors.ProcessEntry(lines[i], selfPid).Some?
      ensures ProcessNotice(lines[i]).Some? ==>
                NoticeLevel(ProcessNotice(lines[i]).value) == LevelOf(Collectors.ProcessEntry(lines[i], selfPid).value)
    {
      RowAgrees(lines[i], selfPid);
    }
    FilterMapAligned(lines, ProcessNotice, line => Collectors.ProcessEntry(line, selfPid), NoticeLevel, LevelOf);
  }
}
