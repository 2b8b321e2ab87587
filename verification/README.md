# Home-SOC decision logic in Dafny

This project models the decision logic of a small Linux host monitor, "Home-SOC", and its two companion tools, and proves properties of that model.

- **The monitor** (`home-soc/home_soc.py`):
  - classifies readings into `info` / `warning` / `alert`;
  - reduces them to a 0–100 security score;
  - appends a snapshot per cycle;
  - logs every alert batch and announces a batch on Telegram/e-mail unless it equals the batch announced last.
- **The legacy monitor** (`master_monitor.py`): the same thresholds, with entries that carry only a level and a message.
- **The desktop activity tracker** (`track-time-spent-apps.py`): names the focused window, credits two seconds per poll to that name's bucket for the day, and summarises the five longest buckets.
- **The dashboard feed** (`home-soc/home_soc_web.py`): reduces the snapshot log to chart rows.

Everything the programs read from the operating system is a parameter of the model:
- `/proc` readings, `ps`/`ss`/`tail`/`last` output as lines, and the own PID;
- the clock, `xdotool`/`xprop` output, and the log files' lines.

A command that failed or printed nothing is the empty sequence of lines.

Modules, one per concern:

| file | module | models |
|---|---|---|
| `wrappers.dfy` | `Wrappers` | `Option` |
| `seqs.dfy` | `Seqs` | slices, comprehensions, `[-1]` |
| `text.dfy` | `Text` | `strip`, `in`, `split`, `replace(x, "")`, `lower` |
| `numbers.dfy` | `Numbers` | `int()`, `float()`, `str()` on the numerals `ps` prints |
| `severity.dfy` | `Severity` | levels, the classifiers, `filter_by_level` |
| `observations.dfy` | `Observations` | entries, metrics, message facts |
| `collectors.dfy` | `Collectors` | the monitor's five collectors |
| `score.dfy` | `Score` | `compute_security_score` and a reference definition |
| `alerts.dfy` | `Alerts` | `handle_critical_alerts` as a state machine |
| `monitor.dfy` | `Monitor` | one cycle of the main loop and runs of cycles |
| `legacy.dfy` | `LegacyMonitor` | the legacy monitor and how it agrees with the primary one |
| `tracker.dfy` | `ActivityTracker` | window class, labels, buckets, the summary |
| `dashboard.dfy` | `Dashboard` | `load_metrics` and the snapshot-to-row path |

Messages are the structured `Fact` they report, not formatted text. The alert batch renders them through a `render: Fact -> string` parameter, which stands for the f-string formatting.

Some consequences of the code as written:
- Recent-login entries carry the metric `recent_login` (`home-soc/home_soc.py:327`). They are collected for display only and are never among the scored, logged or alerted entries (`Monitor.RecentLoginEntries`).
- The alert fingerprint is the JSON of the whole batch, and the batch includes the timestamp, to the second (`home-soc/home_soc.py:451-460`). The comments at `home-soc/home_soc.py:400` and `home-soc/home_soc.py:459` say the fingerprint is there to avoid sending the same alert over and over. As written:
  - two consecutive cycles with identical alerts are both announced unless they fall in the same second (`Alerts.NewTimestampAnnouncedAgain`);
  - only a batch equal to the last announced one, timestamp included, is suppressed (`Alerts.RepeatedBatchAnnouncedOnce`);
  - a cycle with no alerts returns before the fingerprint is touched, so it does not reset it (`Alerts.QuietCycleKeepsSuppression`). Because of the timestamp, this shows only within one second.
- The docstring of `compute_security_score` (`home-soc/home_soc.py:336-337`) describes a score from 0 to 100 that starts at 100. The largest possible total deduction is 20 + 20 + 25 + 20 + 10 = 95, so the score never falls below 5 and the clamp to 0..100 never changes it (`Score.ScoreMatchesReference`).
- `load_metrics(0)` returns every row, because `data[-0:]` is the whole list (`Dashboard.NegativeSlice`).

## Model

| member | source | states |
|---|---|---|
| Severity.RankOf | home-soc/home_soc.py:29 | `LEVELS.get(name, 1)`: `warning` ranks 2, `alert` 3, and every other name, unknown ones included, ranks 1 (both directions) |
| Severity.RankOfName | home-soc/home_soc.py:29 | every level's name ranks as the level's own rank, so info < warning < alert |
| Severity.ClassifyAbove | home-soc/home_soc.py:143-148 | the shared classifier shape: alert iff strictly above the alert bound, warning iff at most that and strictly above the warning bound, else info |
| Severity.ClassifyAboveMonotone | home-soc/home_soc.py:143-148 | raising the value never lowers the level |
| Severity.ClassifyLoad | home-soc/home_soc.py:143-148 | alert iff load1 > 1.5·cores, warning iff cores < load1 ≤ 1.5·cores, info iff load1 ≤ cores |
| Severity.ClassifyMemory | home-soc/home_soc.py:153-158 | alert iff > 90 %, warning iff in (80, 90], info iff ≤ 80 |
| Severity.ClassifyProcessCpu | home-soc/home_soc.py:207-212 | alert iff > 80 %, warning iff in (40, 80], info iff ≤ 40 |
| Severity.ClassifyConnections | home-soc/home_soc.py:251-256 | alert iff > 200, warning iff in (50, 200], info iff ≤ 50 |
| Severity.ClassifyFailedLogins | home-soc/home_soc.py:289 | warning iff the count is below 10, alert iff it is 10 or more |
| Severity.ClassifiersMonotone | home-soc/home_soc.py:143-158 | each of the five classifiers is monotone in its reading |
| Severity.FilterByLevel | home-soc/home_soc.py:475-477 | keeps exactly the entries whose level ranks at least the minimum level's rank: every kept entry passes, every passing entry is kept |
| Severity.FilterByLevelAppend | home-soc/home_soc.py:475-477 | filtering distributes over concatenation, so the filter is order-preserving |
| Severity.FilterUnknownMinLevelKeepsAll | home-soc/home_soc.py:476 | a minimum level that ranks 1 (`info` or any unknown name) keeps every entry |
| Observations.MetricKeyInjective | home-soc/home_soc.py:149 | distinct metrics have distinct key strings |
| Text.Strip | home-soc/home_soc.py:326 | `strip()` returns an infix of the text, empty iff the text is blank, with non-space ends otherwise |
| Text.StripRemovesOnlySpace | home-soc/home_soc.py:326 | `strip()` returns `s[a..b]` where everything before `a` and from `b` on is whitespace, so with the non-space ends it removes exactly the surrounding whitespace |
| Text.StripTrimmed | track-time-spent-apps.py:105 | a text with non-space ends is its own `strip()` |
| Text.ContainsIff | home-soc/home_soc.py:283 | the left-to-right `in` scan holds iff some position holds the pattern |
| Text.ContainsInfix | home-soc/home_soc.py:283 | a line containing a pattern still contains it inside a longer text |
| Text.BlankContainsNoWord | home-soc/home_soc.py:283-285 | a blank line contains no pattern that starts with a non-space character |
| Text.SplitFields | home-soc/home_soc.py:189 | `split(None, 3)`: at most 4 fields, none empty or starting with a space, all but the last space-free; none iff the line is blank |
| Text.SplitFieldsLaidOut | home-soc/home_soc.py:189 | the fields stand in the line at strictly increasing offsets, with only whitespace before, between and after them; once all splits are used the last field runs to the end of the line |
| Text.SplitOn | track-time-spent-apps.py:89 | `split('"')`: at least one piece, no piece holds the separator |
| Text.SplitOnJoin | track-time-spent-apps.py:89 | joining the pieces with the separator gives the text back |
| Text.JoinSplitOn | track-time-spent-apps.py:89 | splitting separator-free pieces after joining them gives the pieces back |
| Text.RemoveAll | track-time-spent-apps.py:109 | `replace(pat, "")` never lengthens the text, changes nothing when the pattern is absent, and is at least one pattern length shorter when it is present |
| Text.RemoveAllFirst | track-time-spent-apps.py:109 | the first occurrence is deleted, the text before it kept, and the removal goes on after it; with the absent case this fixes the result on every input |
| Text.RemoveAllTrailing | track-time-spent-apps.py:108-109 | a pattern whose last character occurs nowhere else, appended once to a text free of it, is removed and leaves the text |
| Text.Lower | track-time-spent-apps.py:104 | `lower()` keeps the length, maps every character through the ASCII case map and leaves no upper-case ASCII letter |
| Text.CountContaining | home-soc/home_soc.py:285 | the count of lines containing a pattern is at most the number of lines |
| Text.CountContainingFilter | home-soc/home_soc.py:285 | the count is the length of the comprehension's list of lines that contain the pattern |
| Text.CountContainingEither | home-soc/home_soc.py:283-284 | counting lines with either pattern counts at least the lines with the first one, and at most all lines |
| Text.CountContainingEitherFilter | home-soc/home_soc.py:283-284 | the count is the length of the comprehension's list of lines that contain either pattern |
| Text.CountContainingAppend | home-soc/home_soc.py:248 | line counts add up over concatenated runs of lines |
| Numbers.ParseInt | home-soc/home_soc.py:193-196 | `int(s)` succeeds iff the text is an optional sign and digits; digits read as their decimal value, a leading `-` gives a non-positive value |
| Numbers.NatToString | home-soc/home_soc.py:214 | `str(n)` for `n >= 0`: a non-empty run of digits without a leading zero |
| Numbers.IntToString | home-soc/home_soc.py:214 | `str(n)` is always text `int()` accepts |
| Numbers.IntToStringRoundTrip | home-soc/home_soc.py:214 | `int(str(n)) == n` for every integer |
| Numbers.NatToStringValue | home-soc/home_soc.py:214 | the decimal digits of `n` read back as `n` |
| Numbers.ParseDecimal | home-soc/home_soc.py:198-201 | `float(s)` on sign, digits and an optional fraction: succeeds iff the text has that shape; the sign decides the value's sign |
| Numbers.ParseDecimalOfInteger | home-soc/home_soc.py:198-201 | a digits-only field reads as the same number under `float()` as under `int()` |
| Numbers.ParseDecimalOfFraction | home-soc/home_soc.py:198-201 | digits, a point and digits (either side may be empty, not both) read as the whole digits plus the fractional digits divided by ten to the number of fractional digits |
| Numbers.ParseOneDecimal | home-soc/home_soc.py:198-201 | a `%cpu` column such as `85.3` reads as n + d/10 |
| Collectors.EffectiveCores | home-soc/home_soc.py:136-139 | `os.cpu_count() or 1`: at least 1, the count when positive, 1 when unknown |
| Collectors.CollectPerformance | home-soc/home_soc.py:131-166 | a `cpu_load` entry valued at load1 and a `memory_used_pct` entry valued at the percentage, each at its classifier's level (both directions) |
| Collectors.ParseProcessRow | home-soc/home_soc.py:189-192 | a row yields four columns iff `split(None, 3)` gives at least four fields; pid, command and cpu are non-empty and space-free |
| Collectors.ProcessLines | home-soc/home_soc.py:183-184 | `lines[1:limit+1]`: at most `limit` rows, row i is line i+1 |
| Collectors.RowPid | home-soc/home_soc.py:193-196 | the pid is -1 when `int()` rejects the column, the digits' value for a digits-only column, and n for the text `str(n)` |
| Collectors.RowCpu | home-soc/home_soc.py:198-201 | the cpu share is 0.0 when `float()` rejects the column, the digits' value for a digits-only column, and never negative without a leading `-` |
| Collectors.ProcessEntry | home-soc/home_soc.py:188-222 | a row gives an entry iff it has four fields and is not the monitor's own process below 90 % CPU; an unparsable pid reads -1 and cpu 0.0; level by the process-CPU classifier |
| Collectors.CollectTopProcesses | home-soc/home_soc.py:173-224 | at most `limit` entries; each is some row's entry and every row's entry is present; the own pid appears only at ≥ 90 % CPU |
| Collectors.CountEstablished | home-soc/home_soc.py:248-249 | the `ESTAB` count covers only the lines after the header |
| Collectors.CountEstablishedFilter | home-soc/home_soc.py:248-249 | the count is the number of lines after the header that contain `ESTAB`, and 0 when `ss -tun` printed nothing |
| Collectors.CollectNetwork | home-soc/home_soc.py:231-264 | a listening entry (always info, valued at the lines after the header) iff `ss -tuln` printed something; an established entry at the classifier's level iff `ss -tun` did |
| Collectors.TailWindow | home-soc/home_soc.py:278 | `tail -n 300`: the last min(300, n) lines |
| Collectors.CollectAuthEvents | home-soc/home_soc.py:271-318 | a missing log gives one info `auth_log` entry. Otherwise a failed-logins entry exists iff the count of failed-login lines in the window is nonzero, is a warning below 10 and an alert from 10. Successful-login and sudo entries are info and exist iff nonzero |
| Collectors.BlankTailYieldsNothing | home-soc/home_soc.py:279-280 | a window of blank lines yields no entries, as an empty `tail` output does |
| Collectors.BlankWindowCounts | home-soc/home_soc.py:283-285 | blank lines match none of the auth patterns |
| Collectors.CollectRecentLogins | home-soc/home_soc.py:321-327 | the first min(limit, n) non-blank lines without `wtmp begins`, in order, each an info entry |
| Score.Clamp | home-soc/home_soc.py:392 | the clamp lands in 0..100 and leaves in-range scores alone |
| Score.CpuDeduction | home-soc/home_soc.py:355-358 | 20 iff load1 > 1.5·cores, 10 iff cores < load1 ≤ 1.5·cores, 0 iff load1 ≤ cores |
| Score.MemoryDeduction | home-soc/home_soc.py:363-366 | 20 iff > 90 %, 10 iff in (80, 90], 0 iff ≤ 80 |
| Score.FailedLoginDeduction | home-soc/home_soc.py:371-376 | 25 iff > 20, 10 iff in (5, 20], 5 iff in (0, 5], 0 iff ≤ 0 |
| Score.ConnectionDeduction | home-soc/home_soc.py:381-384 | 20 iff > 200, 10 iff in (50, 200], 0 iff ≤ 50 |
| Score.DeductionMatchesLevel | home-soc/home_soc.py:348-384 | the cpu, memory and connection deductions are 20 exactly at the `alert` level of the matching classifier and 10 exactly at `warning` |
| Score.MetricDeduction | home-soc/home_soc.py:348-384 | a metric's deduction follows the table: cpu and memory by their classifier's level, failed logins 25/10/5/0 and connections 20/10/0 by threshold; every other metric earns 0; never more than 25 |
| Score.MetricDeductionMonotone | home-soc/home_soc.py:348-384 | a higher value never earns a smaller deduction |
| Score.GroupByMetric | home-soc/home_soc.py:342-346 | every group `setdefault`/`append` builds is non-empty |
| Score.GroupByMetricSpec | home-soc/home_soc.py:342-346 | a metric has a group iff some entry carries it; the group holds exactly the entries carrying it, headed by the first of them |
| Score.ComputeSecurityScore | home-soc/home_soc.py:334-393 | the score is within 0..100 |
| Score.FirstWith | home-soc/home_soc.py:350 | the first entry with a metric exists iff the metric occurs, and carries it |
| Score.TotalDeduction | home-soc/home_soc.py:348-390 | the reference total deduction is at most 95 |
| Score.FirstWithAppend | home-soc/home_soc.py:346 | appending an entry changes a metric's first entry only if the metric had none |
| Score.ScoreMatchesReference | home-soc/home_soc.py:334-393 | the grouped computation equals 100 minus the first-entry deductions plus the flat process penalty, and is at least 5 |
| Score.LaterDuplicateIgnored | home-soc/home_soc.py:350-380 | a later cpu, memory, failed-login or connection entry never changes the score |
| Score.ProcessPenaltyIsFlat | home-soc/home_soc.py:387-390 | once a process is above 80 %, more process entries change nothing |
| Score.FirstWithUpdate | home-soc/home_soc.py:350 | replacing one entry by one with the same metric leaves every metric's first entry alone, unless that entry was the replaced one, which the replacement then takes over |
| Score.ScoreMonotone | home-soc/home_soc.py:334-393 | raising any single entry's value never raises the score |
| Score.WorkedExampleScore | home-soc/home_soc.py:334-393 | 4 cores, load 7.0, memory 85 %, 3 failed logins, 10 connections score 65 |
| Alerts.AlertMessages | home-soc/home_soc.py:445-453 | the alert messages are empty iff no entry is an alert; each comes from an alert entry and every alert entry's message is there |
| Alerts.AlertMessagesAppend | home-soc/home_soc.py:453 | the messages of concatenated entries are concatenated in order |
| Alerts.BulletList | home-soc/home_soc.py:466 | no alerts give no text; otherwise splitting the text at line breaks gives back one `- ` bullet per alert, when no alert spans lines |
| Alerts.NotificationText | home-soc/home_soc.py:466 | the notification starts with the critical-alerts header |
| Alerts.Dispatches | home-soc/home_soc.py:402-435 | a Telegram message is sent iff it is enabled with a token and chat id; an e-mail with the fixed subject is sent iff e-mail is enabled |
| Alerts.HandleCriticalAlerts | home-soc/home_soc.py:438-468 | with no alert nothing changes. Otherwise the batch is logged before and regardless of deduplication. It is announced, and fills the slot, iff it differs from the slot's batch; a suppressed batch leaves slot and outbox alone |
| Alerts.InitialNotifierValid | home-soc/home_soc.py:400 | the empty start state satisfies the notifier invariant |
| Alerts.HandlePreservesValid | home-soc/home_soc.py:438-468 | each call keeps the invariant: the slot holds the last announcement, every announced batch was logged, and no batch is announced twice in a row |
| Alerts.RepeatedBatchAnnouncedOnce | home-soc/home_soc.py:459-462 | the same batch twice is logged twice and announced at most once |
| Alerts.QuietCycleKeepsSuppression | home-soc/home_soc.py:447-448 | a quiet cycle between two equal batches does not re-enable the announcement |
| Alerts.NewTimestampAnnouncedAgain | home-soc/home_soc.py:451-464 | the same alerts at a different timestamp are announced again |
| Monitor.CycleEntries | home-soc/home_soc.py:524-530 | the scored entries start with the cpu and memory entries and never include recent logins |
| Monitor.RecentLoginEntries | home-soc/home_soc.py:528-530 | at most 5 recent-login entries, none of them among the cycle's scored entries |
| Monitor.RunCycle | home-soc/home_soc.py:519-544 | one snapshot is appended with the cycle's time and entries, and a score in 0..100 equal to 100 minus the reference deduction; the alert log grows iff some entry is an alert |
| Monitor.RunCycles | home-soc/home_soc.py:519-544 | every cycle appends one snapshot |
| Monitor.RunCyclesValid | home-soc/home_soc.py:519-544 | any run of cycles keeps the notifier invariant and every logged score within 0..100 |
| Monitor.InitialMonitorValid | home-soc/home_soc.py:400 | the start state satisfies the invariant |
| Monitor.CalmHasNoAlert | home-soc/home_soc.py:143-313 | readings under every warning threshold give no alert entry |
| Monitor.MetricSources | home-soc/home_soc.py:530 | each metric of a cycle's entries comes from the one collector that produces it |
| Monitor.CalmHasNoDeduction | home-soc/home_soc.py:334-393 | readings under every warning threshold earn no deduction |
| Monitor.CalmCycle | home-soc/home_soc.py:519-544 | a calm cycle scores 100 and leaves the notifier untouched |
| LegacyMonitor.Project | master_monitor.py:117 | projecting entries to `{level, message}` keeps their number and order |
| LegacyMonitor.CollectPerformance | master_monitor.py:94-129 | two notices with the same strict load and memory thresholds as the primary monitor |
| LegacyMonitor.ProcessNotice | master_monitor.py:149-167 | a row gives a notice iff it has four fields (no own-process exception); the raw pid text is kept; unparsable cpu reads 0.0 |
| LegacyMonitor.CollectTopProcesses | master_monitor.py:136-169 | at most `limit` notices, each at the process-CPU classifier's level for its cpu column; every row with four fields, the monitor's own included, yields its notice, and every notice comes from such a row |
| LegacyMonitor.CollectNetwork | master_monitor.py:176-206 | listening count always info; the established count of non-header `ESTAB` lines at the connection classifier's level |
| LegacyMonitor.CollectAuthEvents | master_monitor.py:213-250 | a missing log gives one info notice; a failed-logins notice exists iff nonzero, classified < 10 / ≥ 10; every other notice is info |
| LegacyMonitor.CollectRecentLogins | master_monitor.py:253-263 | the first min(limit, n) non-blank lines without `wtmp begins`, as info notices |
| LegacyMonitor.FilterByLevel | master_monitor.py:270-276 | the append loop returns exactly the comprehension's order-preserving subsequence |
| LegacyMonitor.FilterByLevelStep | master_monitor.py:273-275 | one loop iteration extends the filtered prefix by the entry iff it passes |
| LegacyMonitor.PerformanceAgrees | master_monitor.py:94-129 | the legacy performance notices are the primary entries without metric and value |
| LegacyMonitor.NetworkAgrees | master_monitor.py:176-206 | the legacy network notices are the primary entries without metric and value |
| LegacyMonitor.AuthEventsAgree | master_monitor.py:213-250 | the legacy auth notices are the primary entries without metric and value |
| LegacyMonitor.RecentLoginsAgree | master_monitor.py:253-263 | the legacy login notices are the primary entries without metric |
| LegacyMonitor.RowAgrees | master_monitor.py:149-164 | a row that is not the primary monitor's own gives a legacy notice iff it gives a primary entry, at the same level |
| LegacyMonitor.TopProcessesAgree | master_monitor.py:136-169 | without the own process among the rows, both monitors report the same levels in the same order |
| ActivityTracker.QuotedParts | track-time-spent-apps.py:92 | `parts[1::2]`: piece i is part 2i+1 |
| ActivityTracker.LastNonBlank | track-time-spent-apps.py:92-95 | the reference: empty iff every piece is blank, otherwise a non-blank piece after which all pieces are blank |
| ActivityTracker.LastQuoted | track-time-spent-apps.py:92-95 | `[p for p in q if p.strip()][-1]` (or "") is the last non-blank piece |
| ActivityTracker.LastNonBlankIsLastWhere | track-time-spent-apps.py:92-95 | the reference equals the generic backward search |
| ActivityTracker.WindowClass | track-time-spent-apps.py:76-95 | "" without a window id or without `WM_CLASS` in the output; otherwise the last non-blank odd-indexed piece of the split on `"`; never holds a quote |
| ActivityTracker.TrimBrowserSuffixes | track-time-spent-apps.py:105-111 | the cleaned title is both `replace` calls applied unconditionally to the stripped title (the `in` guards change nothing); it equals the stripped title when neither suffix occurs and is at least the Firefox suffix's length shorter when that suffix occurs |
| ActivityTracker.TitlePart | track-time-spent-apps.py:105-117 | the title part has 1..60 characters; an empty cleaned title becomes `(no title)`, one of 1..60 stays, a longer one becomes its first 57 plus `...` |
| ActivityTracker.NormalizeLabel | track-time-spent-apps.py:98-119 | no label iff the class is empty or exactly in the ignore set; otherwise lower(class) + ": " + title part, at most 62 characters longer than the class |
| ActivityTracker.PlainTitleTrimmed | track-time-spent-apps.py:105-111 | a trimmed title without browser suffixes is its own cleaned title |
| ActivityTracker.FirefoxTitleTrimmed | track-time-spent-apps.py:108-109 | the Firefox suffix is cut off such a title |
| ActivityTracker.FirefoxSuffixSharesBucket | track-time-spent-apps.py:98-119 | a Firefox window and the same page's bare title get the same label |
| ActivityTracker.AddSeconds | track-time-spent-apps.py:180-181 | `setdefault` + `+=`: the named bucket grows by exactly the seconds, other buckets keep value and place, a new name is appended |
| ActivityTracker.AddSecondsTotal | track-time-spent-apps.py:192 | the day's total grows by exactly the seconds added |
| ActivityTracker.AddSecondsDistinct | track-time-spent-apps.py:180 | the day keeps one bucket per name |
| ActivityTracker.Tick | track-time-spent-apps.py:166-181 | today's map exists afterwards; other days are unchanged; only the label's bucket grows, by 2; no label changes nothing in today's map; the total grows by 2 or 0 |
| ActivityTracker.TickPreservesValid | track-time-spent-apps.py:166-181 | a poll keeps every day at one bucket per name |
| ActivityTracker.RunPolls | track-time-spent-apps.py:164-203 | the loop's days are the old days plus every polled day |
| ActivityTracker.RunPollsValid | track-time-spent-apps.py:164-203 | any run of polls keeps one bucket per name |
| ActivityTracker.TotalCountsTrackedPolls | track-time-spent-apps.py:179-192 | a day's total is 2 seconds per poll of that day that found a label; other days and ignored windows add nothing |
| ActivityTracker.InsertDesc | track-time-spent-apps.py:216 | insertion gives the old buckets plus the new one, as a multiset |
| ActivityTracker.InsertDescSorted | track-time-spent-apps.py:216 | insertion into a list in non-increasing order of seconds keeps it in that order |
| ActivityTracker.SortDesc | track-time-spent-apps.py:216 | the sorted buckets are a permutation of the day's, in non-increasing order of seconds |
| ActivityTracker.InsertDescTies | track-time-spent-apps.py:216 | an inserted bucket goes in front of its own tie group and leaves the other tie groups alone |
| ActivityTracker.SortDescStable | track-time-spent-apps.py:216 | the sort is stable: buckets with equal seconds keep their dictionary order |
| ActivityTracker.TopBuckets | track-time-spent-apps.py:216-218 | the summary lists min(5, n) of the day's buckets in non-increasing order |
| ActivityTracker.TopBucketsDominate | track-time-spent-apps.py:216 | no bucket left out of the summary has more seconds than a listed one |
| Dashboard.Absorb | home-soc/home_soc_web.py:189-195 | one iteration sets a charted metric to the entry's value (0 if missing) iff the entry carries it |
| Dashboard.ScanAppend | home-soc/home_soc_web.py:189 | the loop over entries plus one more is one more iteration |
| Dashboard.ScanKeepsLast | home-soc/home_soc_web.py:186-195 | after the loop each charted metric holds the last matching entry's value, or its start value when none matches |
| Dashboard.ExtractRow | home-soc/home_soc_web.py:186-203 | a row holds the timestamp, the score (0 if missing) and, per charted metric, the last matching entry's value (0 if none) |
| Dashboard.ReadRows | home-soc/home_soc_web.py:180-203 | reading succeeds iff every non-blank line decodes; blank lines never make it fail |
| Dashboard.ReadRowsKept | home-soc/home_soc_web.py:180-203 | a successful read has one row per non-blank line, in file order, each the row that line decodes to |
| Dashboard.NegativeSlice | home-soc/home_soc_web.py:208 | `xs[-limit:]`: the last min(limit, n) items for a positive limit, all for 0, and the items from index -limit on for a negative one |
| Dashboard.LoadMetrics | home-soc/home_soc_web.py:176-208 | no file gives no rows; a decoding error escapes; otherwise a suffix of the rows in file order, min(limit, n) long for positive limits and all rows for 0 |
| Dashboard.SnapshotRow | home-soc/home_soc_web.py:186-203 | a cycle's snapshot charts as that cycle's time, score, load1 and memory percentage, and its established count (0 if `ss -tun` printed nothing) |
| Dashboard.CpuIsFirst | home-soc/home_soc_web.py:190-191 | the chart's CPU value for a cycle's snapshot is load1 |
| Dashboard.MemoryIsSecond | home-soc/home_soc_web.py:192-193 | the chart's memory value for a cycle's snapshot is the memory percentage |
| Dashboard.ConnectionsFromNetwork | home-soc/home_soc_web.py:194-195 | the chart's connection count is the established count, or 0 without `ss -tun` output |
| Dashboard.LastValueOfEncoded | home-soc/home_soc_web.py:189-195 | when every entry of a metric holds v, the chart reads v if there is such an entry and 0 otherwise |
| Dashboard.MetricKeyIs | home-soc/home_soc_web.py:190 | an encoded entry carries a metric's key iff the entry carries that metric |
| Seqs.Take | home-soc/home_soc.py:327 | `xs[:n]`: the first min(n, len) items |
| Seqs.Slice | home-soc/home_soc.py:184 | `xs[lo:hi]`: the items from `lo` up to min(hi, len), none when that is not above `lo` |
| Seqs.Filter | home-soc/home_soc.py:326 | the comprehension keeps every item passing the test and nothing else, never more than there are items |
| Seqs.FilterMap | home-soc/home_soc.py:188-222 | the comprehension keeps every present result and nothing else, never more than there are items |
| Seqs.FilterMapAligned | master_monitor.py:149-167 | two filter-maps that keep the same items and agree on them after projection give the same projected lists |
| Seqs.LastWhere | track-time-spent-apps.py:95 | the backward search finds the last item satisfying the test, or none iff no item does |
| Seqs.FilterLastIsLastWhere | track-time-spent-apps.py:92-95 | the last item of a filtered list is the item the backward search finds |

## Left out

- Subprocess calls, `/proc` reads, `os.cpu_count`, `os.getpid`, `shutil.which`, `xdotool`/`xprop`, and the clocks: their results are parameters.
- Telegram HTTP and SMTP delivery: a send is an element appended to the notifier's outbox. Failures are swallowed in the source, so nothing else depends on them.
- File writes (`write_jsonl`, `save_stats`), reading the stats file (`load_stats`), JSON encoding and decoding:
  - logs are sequences;
  - the alert fingerprint is the batch value itself, and the JSON text with sorted keys is injective on it;
  - `json.loads` is the `parse` parameter of `Dashboard.LoadMetrics`.
- `run_cmd`'s `strip()` and `splitlines()`: command output is given as lines. Line breaks other than `\n` are not modelled.
- Message formatting with f-strings: messages are the `Fact` they report, rendered by a parameter.
- The memory-percentage division in `get_mem_usage`: the percentage is an input.
- `format_duration`, terminal output, colours, bars, `argparse`, sleeping, `KeyboardInterrupt`, the requirements installer, and the Flask routes and HTML.
- The auth collector's `except` branch (`home-soc/home_soc.py:315-316`, `master_monitor.py:247-248`): `run_cmd` already swallows every error, so nothing in the `try` raises. An unreadable log behaves as an empty tail.
- The order in which the tracker prints days (`sorted(per_day.items())`): only the per-day summary is modelled.
- Text.Lower: case-maps ASCII letters only; Python's `lower()` also maps non-ASCII letters.
- Numbers.ParseInt: accepts sign and ASCII digits only; Python's `int()` also accepts surrounding whitespace, underscores and non-ASCII digits. `ps` never prints those in the pid column.
- Numbers.ParseDecimal: accepts sign, digits and one optional fraction only. Python's `float()` also accepts exponents, `inf`/`nan`, surrounding whitespace and underscores. `ps` prints `%cpu` as plain decimals.
- Numbers.ParseDecimal: values are exact reals; the rounding of a decimal numeral to the nearest binary double is not modelled, so a comparison such as `cpu > 80` is decided on the exact decimal value.
- Dashboard.ExtractRow: values are numbers or missing; a JSON `null` or non-numeric value, which Python would pass through unchanged, is not modelled.
- LegacyMonitor.TopProcessesAgree: states agreement of levels only. The two monitors' process messages differ in how the pid is printed (raw text against `int()` re-printed).
- Alerts.HandleCriticalAlerts: a failed append to the alerts file is not modelled. `write_jsonl` swallows every write error (`home-soc/home_soc.py:90-96`), after which the batch is still announced; the model always appends the batch to the log.
- Alerts.HandlePreservesValid: the invariant's clause "every announced batch was logged" assumes every `write_jsonl` call succeeds; a swallowed write failure would break it.
- Monitor.RunCycle: a failed append to the snapshot log is not modelled (`home-soc/home_soc.py:90-96`, `home-soc/home_soc.py:541`); the model always appends the snapshot.
- Monitor.RunCyclesValid: the invariant carried through a run assumes every write succeeds, as for `Alerts.HandlePreservesValid`.
- Monitor.RunCycle: the two clock reads of one cycle (`now` in the main loop and `human_time()` in `handle_critical_alerts`) are separate parameters and may differ.
