/** Alert persistence and notification (`handle_critical_alerts`): every
    cycle with alert-level entries appends an alert batch to the alert log;
    the batch is announced on the enabled channels unless it equals the
    batch announced last. The one-slot "last fingerprint" is a field of the
    notifier state instead of a process-wide global. */
module Alerts {
  import opened Wrappers
  import opened Text
  import opened Severity
  import opened Observations

  /** `{"timestamp": ..., "alerts": [...]}`: the alert-level messages of one
      cycle in their original order. Its JSON text with sorted keys is the
      fingerprint; that encoding is injective, so fingerprints are equal
      exactly when batches are, and the model compares batches. */
  datatype AlertBatch = AlertBatch(timestamp: string, alerts: seq<string>)

  /** The notification channels' configuration. */
  datatype Channels = Channels(telegramEnabled: bool, botToken: string, chatId: string, emailEnabled: bool)

  /** One outbound message handed to a channel (delivery is fire-and-forget). */
  datatype Dispatch = TelegramMessage(text: string) | EmailMessage(subject: string, body: string)

  /** The notifier's state: the last announced batch (the fingerprint
      slot), the alert log, the batches announced so far, and every
      message handed to a channel. */
  datatype NotifierState = NotifierState(
    lastNotified: Option<AlertBatch>,
    alertLog: seq<AlertBatch>,
    notified: seq<AlertBatch>,
    outbox: seq<Dispatch>)

  /** At process start nothing has been logged or announced. */
  const InitialNotifier: NotifierState := NotifierState(None, [], [], [])

  const ALERT_SUBJECT: string := "Home-SOC Critical Alerts"
  const ALERT_HEADER: string := "*Home-SOC Critical Alerts:*\n"

  /** The cycle has at least one alert-level entry. */
  predicate HasAlert(entries: seq<Entry>)
  {
    exists e <- entries :: e.level == Alert
  }

  /** `[e["message"] for e in entries if e["level"] == "alert"]`, each
      message rendered to its text by `render`. */
  function AlertMessages(entries: seq<Entry>, render: Fact -> string): (msgs: seq<string>)
    ensures |msgs| <= |entries|
    ensures msgs == [] <==> !HasAlert(entries)
    ensures forall m <- msgs :: exists e <- entries :: e.level == Alert && render(e.message) == m
    ensures forall e <- entries :: e.level == Alert ==> render(e.message) in msgs
  {
    if |entries| == 0 then []
    else
      var rest := AlertMessages(entries[1..], render);
      assert forall e <- entries[1..] :: e in entries;
      assert HasAlert(entries) <==> entries[0].level == Alert || HasAlert(entries[1..]);
      if entries[0].level == Alert then [render(entries[0].message)] + rest else rest
  }

  /** Alert messages of consecutive runs of entries come out in order. */
  lemma {:induction false} AlertMessagesAppend(a: seq<Entry>, b: seq<Entry>, render: Fact -> string)
    ensures AlertMessages(a + b, render) == AlertMessages(a, render) + AlertMessages(b, render)
    decreases |a|
  {
    if |a| == 0 {
      assert a + b == b;
    } else {
      assert (a + b)[1..] == a[1..] + b;
      AlertMessagesAppend(a[1..], b, render);
    }
  }

  /** One `- ` bullet per alert. */
  function Bullets(alerts: seq<string>): (b: seq<string>)
    ensures |b| == |alerts|
    ensures forall i :: 0 <= i < |alerts| ==> b[i] == "- " + alerts[i]
  {
    seq(|alerts|, i requires 0 <= i < |alerts| => "- " + alerts[i])
  }

  /** `"\n".join(f"- {m}" for m in alerts)`: empty without alerts; otherwise
      splitting it at line breaks gives back one bullet per alert, as long
      as no alert spans several lines. */
  function BulletList(alerts: seq<string>): (text: string)
    ensures |alerts| == 0 ==> text == []
    ensures |alerts| > 0 && (forall i :: 0 <= i < |alerts| ==> '\n' !in alerts[i]) ==>
              SplitOn(text, '\n') == Bullets(alerts)
  {
    if |alerts| == 0 then []
    else
      var b := Bullets(alerts);
      if forall i :: 0 <= i < |alerts| ==> '\n' !in alerts[i] then
        assert forall k :: 0 <= k < |b| ==> '\n' !in b[k] by {
          forall k | 0 <= k < |b| ensures '\n' !in b[k] {
            assert forall c :: c in b[k] ==> c in "- " || c in alerts[k];
          }
        }
        JoinSplitOn(b, '\n');
        JoinWith(b, '\n')
      else
        JoinWith(b, '\n')
  }

  /** The notification text: a header line, then one bullet per alert. */
  function NotificationText(alerts: seq<string>): (text: string)
    ensures IsPrefix(ALERT_HEADER, text)
  {
    ALERT_HEADER + BulletList(alerts)
  }

  /** Telegram needs its flag, a token and a chat id; email needs its flag. */
  function Dispatches(channels: Channels, text: string): (d: seq<Dispatch>)
    ensures TelegramMessage(text) in d <==>
              channels.telegramEnabled && channels.botToken != [] && channels.chatId != []
    ensures EmailMessage(ALERT_SUBJECT, text) in d <==> channels.emailEnabled
    ensures |d| <= 2
  {
    (if channels.telegramEnabled && channels.botToken != [] && channels.chatId != []
     then [TelegramMessage(text)] else [])
    + (if channels.emailEnabled then [EmailMessage(ALERT_SUBJECT, text)] else [])
  }

  /** `handle_critical_alerts` for one cycle's entries, with `timestamp`
      the time it reads for the batch. */
  function HandleCriticalAlerts(st: NotifierState, entries: seq<Entry>, timestamp: string,
                                render: Fact -> string, channels: Channels): (st': NotifierState)
    // no alert-level entry: nothing is logged, sent or remembered
    ensures !HasAlert(entries) ==> st' == st
    // otherwise the batch is logged whatever the dedup decision
    ensures HasAlert(entries) ==>
              st'.alertLog == st.alertLog + [AlertBatch(timestamp, AlertMessages(entries, render))]
    // it is announced exactly when it differs from the last announced batch
    ensures HasAlert(entries) ==>
              var batch := AlertBatch(timestamp, AlertMessages(entries, render));
              if st.lastNotified == Some(batch) then
                st'.lastNotified == st.lastNotified && st'.notified == st.notified && st'.outbox == st.outbox
              else
                && st'.lastNotified == Some(batch)
                && st'.notified == st.notified + [batch]
                && st'.outbox == st.outbox + Dispatches(channels, NotificationText(batch.alerts))
  {
    var alerts := AlertMessages(entries, render);
    if alerts == [] then st
    else
      var batch := AlertBatch(timestamp, alerts);
      var logged := st.(alertLog := st.alertLog + [batch]);
      if st.lastNotified == Some(batch) then logged
      else
        logged.(lastNotified := Some(batch),
                notified := st.notified + [batch],
                outbox := st.outbox + Dispatches(channels, NotificationText(alerts)))
  }

  // ---------------------------------------------------------------------
  // Invariants across cycles
  // ---------------------------------------------------------------------

  /** The slot holds the most recently announced batch, every announced
      batch was logged, and no batch is announced twice in a row. The
      logging clause relies on every append to the alerts file succeeding,
      which the model takes for granted. */
  predicate Valid(st: NotifierState)
  {
    && (if st.notified == [] then st.lastNotified == None
        else st.lastNotified == Some(st.notified[|st.notified| - 1]))
    && (forall b <- st.notified :: b in st.alertLog)
    && (forall i :: 0 <= i < |st.notified| - 1 ==> st.notified[i] != st.notified[i + 1])
    && |st.notified| <= |st.alertLog|
  }

  lemma InitialNotifierValid()
    ensures Valid(InitialNotifier)
  {
  }

  /** Every cycle preserves the invariant. */
  lemma HandlePreservesValid(st: NotifierState, entries: seq<Entry>, timestamp: string,
                             render: Fact -> string, channels: Channels)
    requires Valid(st)
    ensures Valid(HandleCriticalAlerts(st, entries, timestamp, render, channels))
  {
    var st' := HandleCriticalAlerts(st, entries, timestamp, render, channels);
    if HasAlert(entries) {
      var batch := AlertBatch(timestamp, AlertMessages(entries, render));
      assert batch in st'.alertLog;
      if st.lastNotified != Some(batch) {
        var n := st.notified;
        forall i | 0 <= i < |st'.notified| - 1 ensures st'.notified[i] != st'.notified[i + 1] {
          if i == |n| - 1 {
            assert st'.notified[i] == n[|n| - 1] && st'.notified[i + 1] == batch;
          } else {
            assert st'.notified[i] == n[i] && st'.notified[i + 1] == n[i + 1];
          }
        }
      }
    }
  }

  // ---------------------------------------------------------------------
  // Scenarios
  // ---------------------------------------------------------------------

  /** Two consecutive cycles with the same batch (same alerts at the same
      timestamp): both are logged, only the first is announced. */
  lemma RepeatedBatchAnnouncedOnce(st: NotifierState, entries: seq<Entry>, timestamp: string,
                                   render: Fact -> string, channels: Channels)
    requires HasAlert(entries)
    ensures
      var s1 := HandleCriticalAlerts(st, entries, timestamp, render, channels);
      var s2 := HandleCriticalAlerts(s1, entries, timestamp, render, channels);
      && |s2.alertLog| == |st.alertLog| + 2
      && s2.notified == s1.notified && s2.outbox == s1.outbox
      && |s1.notified| <= |st.notified| + 1
  {
  }

  /** A cycle without alerts leaves the slot alone, so the same batch
      after a quiet cycle is still suppressed. */
  lemma QuietCycleKeepsSuppression(st: NotifierState, loud: seq<Entry>, quiet: seq<Entry>, timestamp: string,
                                   quietTime: string, render: Fact -> string, channels: Channels)
    requires HasAlert(loud) && !HasAlert(quiet)
    ensures
      var s1 := HandleCriticalAlerts(st, loud, timestamp, render, channels);
      var s2 := HandleCriticalAlerts(s1, quiet, quietTime, render, channels);
      var s3 := HandleCriticalAlerts(s2, loud, timestamp, render, channels);
      && s3.notified == s1.notified
      && |s3.alertLog| == |st.alertLog| + 2
  {
  }

  /** The timestamp is part of the fingerprint: the same alert messages at
      a different time are announced again. */
  lemma NewTimestampAnnouncedAgain(st: NotifierState, entries: seq<Entry>, t1: string, t2: string,
                                   render: Fact -> string, channels: Channels)
    requires HasAlert(entries) && t1 != t2
    ensures
      var s1 := HandleCriticalAlerts(st, entries, t1, render, channels);
      var s2 := HandleCriticalAlerts(s1, entries, t2, render, channels);
      s2.notified == s1.notified + [AlertBatch(t2, AlertMessages(entries, render))]
  {
  }
}
