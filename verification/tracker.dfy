/** The desktop activity tracker (track-time-spent-apps.py): every two
    seconds it names the focused window by its WM_CLASS and title and adds
    two seconds to that label's bucket for the day; on exit it prints the
    five longest buckets of every day. The X11 queries are parameters. */
module ActivityTracker {
  import opened Wrappers
  import opened Seqs
  import opened Text

  /** Seconds credited per poll. */
  const CHECK_INTERVAL_SECONDS: nat := 2

  /** File-manager window classes, matched exactly (case-sensitively). */
  const IGNORE_CLASSES: set<string> :=
    {"Nemo", "nemo", "Nautilus", "nautilus", "Thunar", "thunar", "Caja", "caja", "Pcmanfm", "pcmanfm"}

  const FIREFOX_SUFFIX: string := " - Mozilla Firefox"
  const CHROME_SUFFIX: string := " - Google Chrome"
  const MAX_TITLE: nat := 60
  const KEPT_TITLE: nat := 57
  const ELLIPSIS: string := "..."
  const NO_TITLE: string := "(no title)"

  /** Buckets listed per day in the exit summary. */
  const SUMMARY_SIZE: nat := 5

  // ---------------------------------------------------------------------
  // get_window_class
  // ---------------------------------------------------------------------

  /** `parts[1::2]`: the pieces that lay between a pair of quotes. */
  function QuotedParts(parts: seq<string>): (q: seq<string>)
    ensures |q| == |parts| / 2
    ensures forall i :: 0 <= i < |q| ==> q[i] == parts[2 * i + 1]
  {
    seq(|parts| / 2, i requires 0 <= i < |parts| / 2 => parts[2 * i + 1])
  }

  /** `p.strip()` is truthy. */
  predicate HasText(p: string)
  {
    Strip(p) != []
  }

  /** The last piece that is not blank, found by searching from the back. */
  function LastNonBlank(q: seq<string>): (r: string)
    ensures r == [] <==> forall i :: 0 <= i < |q| ==> IsBlank(q[i])
    ensures r != [] ==> exists k :: 0 <= k < |q| && q[k] == r && forall j :: k < j < |q| ==> IsBlank(q[j])
    decreases |q|
  {
    if |q| == 0 then []
    else if !IsBlank(q[|q| - 1]) then
      assert q[|q| - 1] != [];
      q[|q| - 1]
    else
      var r := LastNonBlank(q[..|q| - 1]);
      assert forall i :: 0 <= i < |q| - 1 ==> q[..|q| - 1][i] == q[i];
      r
  }

  /** `[p for p in q if p.strip()][-1]`, or the empty string when that
      list is empty. */
  function LastQuoted(q: seq<string>): (r: string)
    ensures r == LastNonBlank(q)
  {
    LastOfFilteredIsLastNonBlank(q);
    var quoted := Filter(q, HasText);
    if quoted == [] then [] else quoted[|quoted| - 1]
  }

  /** The comprehension picks the last piece that is not blank. */
  lemma LastOfFilteredIsLastNonBlank(q: seq<string>)
    ensures var quoted := Filter(q, HasText);
      (if quoted == [] then [] else quoted[|quoted| - 1]) == LastNonBlank(q)
  {
    FilterLastIsLastWhere(q, HasText);
    LastNonBlankIsLastWhere(q);
  }

  lemma {:induction false} LastNonBlankIsLastWhere(q: seq<string>)
    ensures var w := LastWhere(q, HasText);
      LastNonBlank(q) == if w.None? then [] else q[w.value]
    decreases |q|
  {
    if |q| > 0 {
      var last := q[|q| - 1];
      assert HasText(last) <==> !IsBlank(last);
      if IsBlank(last) {
        var init := q[..|q| - 1];
        LastNonBlankIsLastWhere(init);
        var w := LastWhere(init, HasText);
        if w.Some? {
          assert init[w.value] == q[w.value];
        }
      }
    }
  }

  /** The last quoted, non-blank field of `xprop -id <wid> WM_CLASS`
      output (`xprop` is the text the command printed, stripped); the
      empty string when there is no window, no WM_CLASS line or no such
      field. */
  function WindowClass(wid: string, xprop: string): (r: string)
    ensures wid == [] || !Contains(xprop, "WM_CLASS") ==> r == []
    ensures wid != [] && Contains(xprop, "WM_CLASS") ==> r == LastNonBlank(QuotedParts(SplitOn(xprop, '"')))
    ensures '"' !in r
  {
    if wid == [] then []
    else if !Contains(xprop, "WM_CLASS") then []
    else
      var parts := SplitOn(xprop, '"');
      var r := LastQuoted(QuotedParts(parts));
      assert r != [] ==> exists i :: 0 <= i < |parts| && parts[i] == r;
      r
  }

  // ---------------------------------------------------------------------
  // normalize_label
  // ---------------------------------------------------------------------

  /** The stripped title with every Firefox and then every Chrome window
      suffix deleted; each deletion runs only when the suffix occurs. */
  function TrimBrowserSuffixes(title: string): (r: string)
    ensures |r| <= |Strip(title)|
    ensures !Contains(Strip(title), FIREFOX_SUFFIX) && !Contains(Strip(title), CHROME_SUFFIX) ==> r == Strip(title)
    ensures Contains(Strip(title), FIREFOX_SUFFIX) ==> |r| <= |Strip(title)| - |FIREFOX_SUFFIX|
    ensures r == RemoveAll(RemoveAll(Strip(title), FIREFOX_SUFFIX), CHROME_SUFFIX)
  {
    var s := Strip(title);
    var s1 := if Contains(s, FIREFOX_SUFFIX) then RemoveAll(s, FIREFOX_SUFFIX) else s;
    if Contains(s1, CHROME_SUFFIX) then RemoveAll(s1, CHROME_SUFFIX) else s1
  }

  /** The title half of a label: never empty, never longer than 60
      characters; a cleaned title over 60 keeps its first 57 and gains
      `...`, an empty one becomes `(no title)`. */
  function TitlePart(title: string): (t: string)
    ensures 1 <= |t| <= MAX_TITLE
    ensures var c := TrimBrowserSuffixes(title);
      && (c == [] ==> t == NO_TITLE)
      && (0 < |c| <= MAX_TITLE ==> t == c)
      && (|c| > MAX_TITLE ==> t == c[..KEPT_TITLE] + ELLIPSIS)
  {
    var c := TrimBrowserSuffixes(title);
    var c1 := if |c| > MAX_TITLE then c[..KEPT_TITLE] + ELLIPSIS else c;
    if c1 == [] then NO_TITLE else c1
  }

  /** `None` exactly for a missing or ignored window class; otherwise the
      lower-cased class, `": "` and the title part. */
  function NormalizeLabel(wmClass: string, title: string): (r: Option<string>)
    ensures r.None? <==> wmClass == [] || wmClass in IGNORE_CLASSES
    ensures r.Some? ==> r.value == Lower(wmClass) + ": " + TitlePart(title)
    ensures r.Some? ==> |wmClass| + 3 <= |r.value| <= |wmClass| + 2 + MAX_TITLE
  {
    if wmClass == [] then None
    else if wmClass in IGNORE_CLASSES then None
    else Some(Lower(wmClass) + ": " + TitlePart(title))
  }

  /** A page title that is already trimmed and free of browser suffixes. */
  predicate PlainTitle(page: string)
  {
    && page != [] && !IsSpace(page[0]) && !IsSpace(page[|page| - 1])
    && !Contains(page, FIREFOX_SUFFIX) && !Contains(page, CHROME_SUFFIX)
  }

  lemma PlainTitleTrimmed(page: string)
    requires PlainTitle(page)
    ensures TrimBrowserSuffixes(page) == page
  {
    StripTrimmed(page);
  }

  /** The Firefox suffix is cut off a plain page title. */
  lemma FirefoxTitleTrimmed(page: string)
    requires PlainTitle(page)
    ensures TrimBrowserSuffixes(page + FIREFOX_SUFFIX) == page
  {
    var full := page + FIREFOX_SUFFIX;
    assert full[|full| - 1] == 'x';
    StripTrimmed(full);
    assert IsPrefix(FIREFOX_SUFFIX, FIREFOX_SUFFIX);
    ContainsInfix(page, FIREFOX_SUFFIX, FIREFOX_SUFFIX);
    FirefoxSuffixEndsOnce();
    RemoveAllTrailing(page, FIREFOX_SUFFIX);
  }

  /** No character of the Firefox suffix but its last is an `x`. */
  lemma FirefoxSuffixEndsOnce()
    ensures LastCharUnique(FIREFOX_SUFFIX)
  {
    var n := |FIREFOX_SUFFIX| - 1;
    forall j | 0 <= j < n ensures FIREFOX_SUFFIX[j] != FIREFOX_SUFFIX[n] {
      assert FIREFOX_SUFFIX[n] == 'x';
    }
  }

  /** A Firefox window and the same page's bare title share a bucket. */
  lemma FirefoxSuffixSharesBucket(wmClass: string, page: string)
    requires PlainTitle(page)
    ensures NormalizeLabel(wmClass, page + FIREFOX_SUFFIX) == NormalizeLabel(wmClass, page)
  {
    PlainTitleTrimmed(page);
    FirefoxTitleTrimmed(page);
  }

  // ---------------------------------------------------------------------
  // Per-day buckets
  // ---------------------------------------------------------------------

  /** One `label: seconds` pair of a day's dictionary. */
  datatype Bucket = Bucket(name: string, seconds: nat)

  /** A day's dictionary, in insertion order. */
  type Day = seq<Bucket>

  function Names(day: Day): set<string>
  {
    set b <- day :: b.name
  }

  predicate DistinctNames(day: Day)
  {
    forall i, j :: 0 <= i < j < |day| ==> day[i].name != day[j].name
  }

  /** `day.get(name, 0)`. */
  function Seconds(day: Day, name: string): nat
  {
    if |day| == 0 then 0
    else if day[0].name == name then day[0].seconds
    else Seconds(day[1..], name)
  }

  /** `sum(day.values())`. */
  function Total(day: Day): nat
  {
    if |day| == 0 then 0 else day[0].seconds + Total(day[1..])
  }

  /** `day.setdefault(name, 0); day[name] += secs`: the named bucket
      grows by `secs`, a new name is appended at the end, every other
      bucket keeps its place and value. */
  function AddSeconds(day: Day, name: string, secs: nat): (r: Day)
    ensures name !in Names(day) ==> r == day + [Bucket(name, secs)]
    ensures name in Names(day) ==> |r| == |day| && forall i :: 0 <= i < |day| ==> r[i].name == day[i].name
    ensures Seconds(r, name) == Seconds(day, name) + secs
    ensures forall l :: l != name ==> Seconds(r, l) == Seconds(day, l)
  {
    if |day| == 0 then [Bucket(name, secs)]
    else if day[0].name == name then [Bucket(name, day[0].seconds + secs)] + day[1..]
    else
      assert Names(day) == {day[0].name} + Names(day[1..]);
      [day[0]] + AddSeconds(day[1..], name, secs)
  }

  /** The day's total grows by exactly the seconds added. */
  lemma {:induction false} AddSecondsTotal(day: Day, name: string, secs: nat)
    ensures Total(AddSeconds(day, name, secs)) == Total(day) + secs
  {
    if |day| > 0 && day[0].name != name {
      AddSecondsTotal(day[1..], name, secs);
    }
  }

  /** Adding seconds never creates a second bucket for a name. */
  lemma AddSecondsDistinct(day: Day, name: string, secs: nat)
    requires DistinctNames(day)
    ensures DistinctNames(AddSeconds(day, name, secs))
  {
    if name !in Names(day) {
      forall i | 0 <= i < |day| ensures day[i].name != name {
        assert day[i].name in Names(day);
      }
    }
  }

  /** `per_day.get(today, {})`. */
  function DayOf(perDay: map<string, Day>, today: string): Day
  {
    if today in perDay then perDay[today] else []
  }

  /** One poll: today's map is created if absent, and a label (if any)
      gets two more seconds in it. Nothing else changes. */
  function Tick(perDay: map<string, Day>, today: string, name: Option<string>): (r: map<string, Day>)
    ensures r.Keys == perDay.Keys + {today}
    ensures forall d <- perDay.Keys :: d != today ==> r[d] == perDay[d]
    ensures name.None? ==> r[today] == DayOf(perDay, today)
    ensures name.Some? ==>
              Seconds(r[today], name.value) == Seconds(DayOf(perDay, today), name.value) + CHECK_INTERVAL_SECONDS
    ensures forall l :: name != Some(l) ==> Seconds(r[today], l) == Seconds(DayOf(perDay, today), l)
    ensures Total(r[today]) == Total(DayOf(perDay, today)) + if name.Some? then CHECK_INTERVAL_SECONDS else 0
  {
    var day := DayOf(perDay, today);
    match name
    case None => perDay[today := day]
    case Some(l) =>
      AddSecondsTotal(day, l, CHECK_INTERVAL_SECONDS);
      perDay[today := AddSeconds(day, l, CHECK_INTERVAL_SECONDS)]
  }

  /** Every day's dictionary has one bucket per label. */
  predicate ValidStats(perDay: map<string, Day>)
  {
    forall d <- perDay.Keys :: DistinctNames(perDay[d])
  }

  lemma TickPreservesValid(perDay: map<string, Day>, today: string, name: Option<string>)
    requires ValidStats(perDay)
    ensures ValidStats(Tick(perDay, today, name))
  {
    if name.Some? {
      AddSecondsDistinct(DayOf(perDay, today), name.value, CHECK_INTERVAL_SECONDS);
    }
  }

  /** One poll's observation: the day it ran and the label it computed. */
  datatype Poll = Poll(day: string, name: Option<string>)

  /** The main loop over a run of polls. */
  function RunPolls(perDay: map<string, Day>, polls: seq<Poll>): (r: map<string, Day>)
    ensures r.Keys == perDay.Keys + set p <- polls :: p.day
    decreases |polls|
  {
    if |polls| == 0 then perDay
    else
      assert (set p <- polls :: p.day) == {polls[0].day} + set p <- polls[1..] :: p.day;
      RunPolls(Tick(perDay, polls[0].day, polls[0].name), polls[1..])
  }

  lemma {:induction false} RunPollsValid(perDay: map<string, Day>, polls: seq<Poll>)
    requires ValidStats(perDay)
    ensures ValidStats(RunPolls(perDay, polls))
    decreases |polls|
  {
    if |polls| > 0 {
      TickPreservesValid(perDay, polls[0].day, polls[0].name);
      RunPollsValid(Tick(perDay, polls[0].day, polls[0].name), polls[1..]);
    }
  }

  /** Polls of day `d` that found a label to credit. */
  function TrackedPolls(polls: seq<Poll>, d: string): nat
  {
    if |polls| == 0 then 0
    else (if polls[0].day == d && polls[0].name.Some? then 1 else 0) + TrackedPolls(polls[1..], d)
  }

  /** A day's total is two seconds for every poll of that day that found
      a label: ignored windows and other days add nothing. */
  lemma {:induction false} TotalCountsTrackedPolls(perDay: map<string, Day>, polls: seq<Poll>, d: string)
    ensures Total(DayOf(RunPolls(perDay, polls), d))
         == Total(DayOf(perDay, d)) + CHECK_INTERVAL_SECONDS * TrackedPolls(polls, d)
    decreases |polls|
  {
    if |polls| > 0 {
      var next := Tick(perDay, polls[0].day, polls[0].name);
      TotalCountsTrackedPolls(next, polls[1..], d);
      if polls[0].day != d {
        assert DayOf(next, d) == DayOf(perDay, d);
      }
    }
  }

  // ---------------------------------------------------------------------
  // The exit summary
  // ---------------------------------------------------------------------

  predicate SortedDesc(day: Day)
  {
    forall i, j :: 0 <= i < j < |day| ==> day[i].seconds >= day[j].seconds
  }

  /** Inserts `b` before the first bucket with no more seconds than it, so
      that `b` stays ahead of the later buckets it ties with. */
  function InsertDesc(b: Bucket, sorted: Day): (r: Day)
    ensures |r| == |sorted| + 1
    ensures multiset(r) == multiset(sorted) + multiset{b}
  {
    if |sorted| == 0 || sorted[0].seconds <= b.seconds then [b] + sorted
    else
      var rest := InsertDesc(b, sorted[1..]);
      assert sorted == [sorted[0]] + sorted[1..];
      [sorted[0]] + rest
  }

  /** Insertion keeps a list in non-increasing order of seconds. */
  lemma {:induction false} InsertDescSorted(b: Bucket, sorted: Day)
    requires SortedDesc(sorted)
    ensures SortedDesc(InsertDesc(b, sorted))
  {
    if |sorted| == 0 || sorted[0].seconds <= b.seconds {
    } else {
      InsertDescSorted(b, sorted[1..]);
      var rest := InsertDesc(b, sorted[1..]);
      assert sorted == [sorted[0]] + sorted[1..];
      forall x | x in rest ensures x.seconds <= sorted[0].seconds {
        assert x in multiset(rest);
      }
      ConsSortedDesc(sorted[0], rest);
    }
  }

  /** A head at least as large as everything after it extends a sorted list. */
  lemma ConsSortedDesc(h: Bucket, rest: Day)
    requires SortedDesc(rest)
    requires forall x | x in rest :: x.seconds <= h.seconds
    ensures SortedDesc([h] + rest)
  {
    var r := [h] + rest;
    forall i, j | 0 <= i < j < |r| ensures r[i].seconds >= r[j].seconds {
      assert r[j] == rest[j - 1];
      if i > 0 {
        assert r[i] == rest[i - 1];
      }
    }
  }

  /** `sorted(day.items(), key=seconds, reverse=True)`, as an insertion sort. */
  function SortDesc(day: Day): (r: Day)
    ensures |r| == |day|
    ensures multiset(r) == multiset(day)
    ensures SortedDesc(r)
  {
    if |day| == 0 then []
    else
      assert day == [day[0]] + day[1..];
      InsertDescSorted(day[0], SortDesc(day[1..]));
      InsertDesc(day[0], SortDesc(day[1..]))
  }

  /** The buckets carrying exactly `k` seconds. */
  function WithSeconds(day: Day, k: nat): Day
  {
    Filter(day, (b: Bucket) => b.seconds == k)
  }

  /** Inserting a bucket adds it to the front of its own tie group and
      leaves the other tie groups alone. */
  lemma {:induction false} InsertDescTies(b: Bucket, sorted: Day, k: nat)
    requires SortedDesc(sorted)
    ensures WithSeconds(InsertDesc(b, sorted), k)
         == (if b.seconds == k then [b] else []) + WithSeconds(sorted, k)
  {
    if |sorted| > 0 && sorted[0].seconds > b.seconds {
      InsertDescTies(b, sorted[1..], k);
      if b.seconds == k {
        assert sorted[0].seconds != k;
      }
    }
  }

  /** The sort is stable: buckets with equal seconds keep their order. */
  lemma {:induction false} SortDescStable(day: Day, k: nat)
    ensures WithSeconds(SortDesc(day), k) == WithSeconds(day, k)
  {
    if |day| > 0 {
      SortDescStable(day[1..], k);
      InsertDescTies(day[0], SortDesc(day[1..]), k);
    }
  }

  /** `[:5]` of the sorted buckets. */
  function TopBuckets(day: Day): (r: Day)
    ensures |r| == Min(SUMMARY_SIZE, |day|)
    ensures SortedDesc(r)
    ensures multiset(r) <= multiset(day)
  {
    var s := SortDesc(day);
    assert s == Take(s, SUMMARY_SIZE) + s[|Take(s, SUMMARY_SIZE)|..];
    Take(s, SUMMARY_SIZE)
  }

  /** No bucket left out of the summary has more seconds than one listed. */
  lemma TopBucketsDominate(day: Day)
    ensures forall x <- day, y <- TopBuckets(day) :: x !in TopBuckets(day) ==> x.seconds <= y.seconds
  {
    var s := SortDesc(day);
    var top := TopBuckets(day);
    forall x <- day, y <- top | x !in top
      ensures x.seconds <= y.seconds
    {
      assert x in multiset(s);
      var j :| 0 <= j < |s| && s[j] == x;
      var i :| 0 <= i < |top| && top[i] == y;
      assert top[i] == s[i];
      assert forall m :: 0 <= m < |top| ==> top[m] == s[m];
    }
  }
}
