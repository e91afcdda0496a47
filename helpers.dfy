/**
 * The derived metrics and text helpers (utils/helpers.ts): duration text,
 * task progress, the productivity score, the rule-of-thumb time estimate,
 * time per category and the weekly score lookup.
 *
 * Progress and productivity divide and round JavaScript numbers; here the
 * arithmetic is exact (`real`), with `Math.round(x)` read as the floor of
 * `x + 1/2`.
 */
module Helpers {
  import opened Model
  import opened JsText

  // ----- formatTime -----

  /** `formatTime(minutes)`: "<m>m" under an hour, "<h>h <m>m" otherwise. */
  function FormatTime(minutes: int): (text: string)
    ensures |text| >= 2 && text[|text| - 1] == 'm'
  {
    var hours := minutes / 60;
    var mins := JsRem(minutes, 60);
    if hours == 0 then IntToString(mins) + "m" else IntToString(hours) + "h " + IntToString(mins) + "m"
  }

  /** Reads a duration in the form `FormatTime` writes for a non-negative number of minutes. */
  function ParseDuration(s: string): Option<int>
  {
    if |s| < 2 || s[|s| - 1] != 'm' then None else ParseDurationBody(s[..|s| - 1])
  }

  /** The text before the final "m": either digits, or digits, "h ", digits. */
  function ParseDurationBody(body: string): Option<int>
  {
    match Find(body, 'h')
    case None => if AllDigits(body) then Some(ParseNat(body)) else None
    case Some(k) => ParseHoursMinutes(body[..k], body[k + 1..])
  }

  function ParseHoursMinutes(hours: string, rest: string): Option<int>
  {
    if hours != [] && AllDigits(hours) && |rest| >= 2 && rest[0] == ' ' && AllDigits(rest[1..])
    then Some(ParseNat(hours) * 60 + ParseNat(rest[1..]))
    else None
  }

  /** Under an hour only minutes are written; from an hour on, hours and the remaining minutes. */
  lemma FormatTimeShape(minutes: int)
    requires minutes >= 0
    ensures minutes < 60 ==> FormatTime(minutes) == NatToString(minutes) + "m"
    ensures minutes >= 60 ==> FormatTime(minutes) == NatToString(minutes / 60) + "h " + NatToString(minutes % 60) + "m"
  {
  }

  /** Every non-negative duration reads back from its text. */
  lemma FormatTimeRoundTrip(minutes: int)
    requires minutes >= 0
    ensures ParseDuration(FormatTime(minutes)) == Some(minutes)
  {
    FormatTimeShape(minutes);
    if minutes < 60 {
      MinutesOnlyRoundTrip(minutes);
    } else {
      HoursAndMinutesRoundTrip(minutes);
    }
  }

  lemma MinutesOnlyRoundTrip(minutes: nat)
    requires minutes < 60
    ensures ParseDuration(NatToString(minutes) + "m") == Some(minutes)
  {
    var s := NatToString(minutes) + "m";
    var body := s[..|s| - 1];
    assert body == NatToString(minutes);
    assert Find(body, 'h').None?;
    NatToStringRoundTrip(minutes);
  }

  lemma HoursAndMinutesRoundTrip(minutes: nat)
    requires minutes >= 60
    ensures ParseDuration(NatToString(minutes / 60) + "h " + NatToString(minutes % 60) + "m") == Some(minutes)
  {
    ReadHoursAndMinutes(NatToString(minutes / 60), NatToString(minutes % 60));
    NatToStringRoundTrip(minutes / 60);
    NatToStringRoundTrip(minutes % 60);
  }

  /** Text of the form "<digits>h <digits>m" reads as hours and minutes. */
  lemma ReadHoursAndMinutes(h: string, m: string)
    requires h != [] && AllDigits(h) && m != [] && AllDigits(m)
    ensures ParseDuration(h + "h " + m + "m") == Some(ParseNat(h) * 60 + ParseNat(m))
  {
    HoursText(h, m);
    ReadFinalM(h + ['h'] + (" " + m));
    ReadAfterHours(h, " " + m);
    ReadMinutesAfterSpace(h, m);
  }

  lemma HoursText(h: string, m: string)
    ensures h + "h " + m + "m" == h + ['h'] + (" " + m) + ['m']
  {
  }

  lemma ReadMinutesAfterSpace(h: string, m: string)
    requires h != [] && AllDigits(h) && m != [] && AllDigits(m)
    ensures ParseHoursMinutes(h, " " + m) == Some(ParseNat(h) * 60 + ParseNat(m))
  {
    assert (" " + m)[1..] == m;
  }

  /** A duration text is its body followed by the letter "m". */
  lemma ReadFinalM(body: string)
    requires body != []
    ensures ParseDuration(body + ['m']) == ParseDurationBody(body)
  {
    assert (body + ['m'])[..|body|] == body;
  }

  /** A body with digits before its first "h" splits there into hours and the rest. */
  lemma ReadAfterHours(h: string, rest: string)
    requires AllDigits(h)
    ensures ParseDurationBody(h + ['h'] + rest) == ParseHoursMinutes(h, rest)
  {
    FindAfterDigits(h, 'h', rest);
    SplitAround(h, 'h', rest);
  }

  /** In digits followed by a letter, the letter is found right after the digits. */
  lemma FindAfterDigits(digits: string, c: char, rest: string)
    requires AllDigits(digits) && !IsDigit(c)
    ensures Find(digits + [c] + rest, c) == Some(|digits|)
  {
    var s := digits + [c] + rest;
    assert s[|digits|] == c;
    assert forall i :: 0 <= i < |digits| ==> s[i] == digits[i];
  }

  // ----- calculateTaskProgress -----

  function CountCompleted(sts: seq<SubTask>): (n: nat)
    ensures n <= |sts|
  {
    if sts == [] then 0 else (if sts[0].completed then 1 else 0) + CountCompleted(sts[1..])
  }

  /** `calculateTaskProgress`: the task's own flag without subtasks, else the rounded percentage done. */
  function TaskProgress(t: Task): (p: int)
    ensures 0 <= p <= 100
    ensures |t.subTasks| == 0 ==> p == (if t.completed then 100 else 0)
    ensures |t.subTasks| > 0 ==> p == Percent(CountCompleted(t.subTasks), |t.subTasks|)
  {
    if |t.subTasks| == 0 then (if t.completed then 100 else 0)
    else Percent(CountCompleted(t.subTasks), |t.subTasks|)
  }

  function Percent(done: nat, total: nat): (p: int)
    requires 0 < total && done <= total
    ensures 0 <= p <= 100
  {
    var ratio := done as real / total as real;
    assert 0.0 <= ratio <= 1.0;
    Round(ratio * 100.0)
  }

  /** A task whose subtasks are all done is at 100, one with none done at 0. */
  lemma {:induction false} ProgressExtremes(t: Task)
    requires |t.subTasks| > 0
    ensures (forall s :: s in t.subTasks ==> s.completed) ==> TaskProgress(t) == 100
    ensures (forall s :: s in t.subTasks ==> !s.completed) ==> TaskProgress(t) == 0
  {
    var n := |t.subTasks|;
    if forall s :: s in t.subTasks ==> s.completed {
      AllCompletedCount(t.subTasks);
      PercentOfAll(n);
    }
    if forall s :: s in t.subTasks ==> !s.completed {
      NoneCompletedCount(t.subTasks);
      PercentOfNone(n);
    }
  }

  lemma PercentOfAll(n: nat)
    requires n > 0
    ensures Percent(n, n) == 100
  {
    assert n as real / n as real == 1.0;
  }

  lemma PercentOfNone(n: nat)
    requires n > 0
    ensures Percent(0, n) == 0
  {
    assert 0 as real / n as real == 0.0;
  }

  lemma {:induction false} AllCompletedCount(sts: seq<SubTask>)
    requires forall s :: s in sts ==> s.completed
    ensures CountCompleted(sts) == |sts|
  {
    if sts != [] {
      assert sts[0] in sts;
      AllCompletedCount(sts[1..]);
    }
  }

  lemma {:induction false} NoneCompletedCount(sts: seq<SubTask>)
    requires forall s :: s in sts ==> !s.completed
    ensures CountCompleted(sts) == 0
  {
    if sts != [] {
      assert sts[0] in sts;
      NoneCompletedCount(sts[1..]);
    }
  }

  /** More subtasks done out of the same number never means less progress. */
  lemma PercentMonotone(done: nat, done': nat, total: nat)
    requires 0 < total && done <= done' <= total
    ensures Percent(done, total) <= Percent(done', total)
  {
    var x := done as real / total as real;
    var y := done' as real / total as real;
    assert y - x == (done' - done) as real / total as real;
    RoundMonotone(x * 100.0, y * 100.0);
  }

  // ----- calculateProductivityScore -----

  function MinReal(a: real, b: real): real { if a <= b then a else b }

  /** The time-efficiency ratio `min(estimated / max(spent, 1), 2)`. */
  function Efficiency(spent: int, estimated: int): (e: real)
    ensures e <= 2.0
    ensures estimated >= 0 ==> e >= 0.0
  {
    var spentOrOne := if spent >= 1 then spent else 1;
    MinReal(estimated as real / spentOrOne as real, 2.0)
  }

  /**
   * `calculateProductivityScore`: 70% completion ratio and 30% half the
   * efficiency ratio, as a rounded percentage capped at 100.
   */
  function ProductivityScore(completed: int, total: int, spent: int, estimated: int): (score: int)
    ensures score <= 100
    ensures total == 0 || estimated == 0 ==> score == 0
  {
    if total == 0 || estimated == 0 then 0
    else
      var raw := Round((completed as real / total as real * 0.7 + Efficiency(spent, estimated) / 2.0 * 0.3) * 100.0);
      if raw <= 100 then raw else 100
  }

  /** For counts and minutes that are not negative the score is not negative. */
  lemma ScoreNonNegative(completed: int, total: int, spent: int, estimated: int)
    requires completed >= 0 && total >= 0 && spent >= 0 && estimated >= 0
    ensures ProductivityScore(completed, total, spent, estimated) >= 0
  {
    if total != 0 && estimated != 0 {
      assert completed as real / total as real >= 0.0;
    }
  }

  /** Once the estimate is at least twice the time spent, a larger estimate no longer raises the score. */
  lemma ScoreEfficiencyCapped(completed: int, total: int, spent: int, estimated: int, estimated': int)
    requires spent >= 1 && estimated >= 2 * spent && estimated' >= 2 * spent
    ensures ProductivityScore(completed, total, spent, estimated) == ProductivityScore(completed, total, spent, estimated')
  {
    assert estimated as real / spent as real >= 2.0;
    assert estimated' as real / spent as real >= 2.0;
  }

  /** Completing more tasks out of the same total never lowers the score. */
  lemma ScoreMonotoneInCompleted(completed: int, completed': int, total: int, spent: int, estimated: int)
    requires 0 < total && completed <= completed'
    ensures ProductivityScore(completed, total, spent, estimated) <= ProductivityScore(completed', total, spent, estimated)
  {
    if estimated != 0 {
      var e := Efficiency(spent, estimated) / 2.0 * 0.3;
      var x := completed as real / total as real;
      var y := completed' as real / total as real;
      assert y - x == (completed' - completed) as real / total as real;
      RoundMonotone((x * 0.7 + e) * 100.0, (y * 0.7 + e) * 100.0);
    }
  }

  // ----- estimateTaskTime -----

  /** `title.toLowerCase().includes(word) || description.toLowerCase().includes(word)`. */
  predicate Mentions(title: string, description: string, word: string)
  {
    Contains(ToLower(title), word) || Contains(ToLower(description), word)
  }

  /** `estimateTaskTime`, accumulating into the base time as the source does. */
  method EstimateTaskTime(title: string, description: string) returns (baseTime: int)
    ensures baseTime == 30 + (if Mentions(title, description, "research") then 60 else 0)
                           + (if Mentions(title, description, "meeting") then 30 else 0)
                           + WordCount(title + " " + description) / 10 * 5
    ensures baseTime >= 30 && baseTime % 5 == 0
    ensures baseTime <= 120 + WordCount(title + " " + description) / 2
  {
    var wordCount := WordCount(title + " " + description);
    baseTime := 30;
    if Mentions(title, description, "research") {
      baseTime := baseTime + 60;
    }
    if Mentions(title, description, "meeting") {
      baseTime := baseTime + 30;
    }
    baseTime := baseTime + wordCount / 10 * 5;
  }

  /**
   * The keywords are found whatever their case: upper-casing a letter of the
   * text changes nothing. This follows directly from `ToLowerIdempotent`.
   */
  lemma MentionsIgnoresCase(title: string, description: string, word: string)
    ensures Mentions(title, description, word) == Mentions(ToLower(title), ToLower(description), word)
  {
    ToLowerIdempotent(title);
    ToLowerIdempotent(description);
  }

  // ----- getTimeSpentByCategory -----

  /** The filter of `getTimeSpentByCategory`: created within the range and with a non-empty category. */
  predicate Counted(t: Task, startDate: int, endDate: int)
  {
    startDate <= t.createdAt <= endDate && t.category.Some? && t.category.value != ""
  }

  /** `task.actualMinutes || 0`. */
  function MinutesSpent(t: Task): int
  {
    t.actualMinutes.GetOr(0)
  }

  /** The map the loop has built after the tasks `ts`. */
  function CategoryTotals(ts: seq<Task>, startDate: int, endDate: int): map<string, int>
  {
    if ts == [] then map[]
    else
      var before := CategoryTotals(ts[..|ts| - 1], startDate, endDate);
      var t := ts[|ts| - 1];
      if Counted(t, startDate, endDate) then
        var c := t.category.value;
        before[c := (if c in before then before[c] else 0) + MinutesSpent(t)]
      else before
  }

  /** The minutes spent on category `c`, summed task by task. */
  function CategoryTime(ts: seq<Task>, c: string, startDate: int, endDate: int): int
  {
    if ts == [] then 0
    else
      var t := ts[|ts| - 1];
      CategoryTime(ts[..|ts| - 1], c, startDate, endDate)
        + (if Counted(t, startDate, endDate) && t.category.value == c then MinutesSpent(t) else 0)
  }

  predicate HasCountedTask(ts: seq<Task>, c: string, startDate: int, endDate: int)
  {
    exists i :: 0 <= i < |ts| && CountedWith(ts[i], c, startDate, endDate)
  }

  predicate CountedWith(t: Task, c: string, startDate: int, endDate: int)
  {
    Counted(t, startDate, endDate) && t.category.value == c
  }

  /**
   * The result has a key for exactly the categories of the counted tasks,
   * and each key holds the sum of those tasks' minutes; other tasks
   * contribute nothing.
   */
  lemma {:induction false} CategoryTotalsSums(ts: seq<Task>, startDate: int, endDate: int, c: string)
    ensures c in CategoryTotals(ts, startDate, endDate) <==> HasCountedTask(ts, c, startDate, endDate)
    ensures c in CategoryTotals(ts, startDate, endDate) ==>
      CategoryTotals(ts, startDate, endDate)[c] == CategoryTime(ts, c, startDate, endDate)
    ensures c !in CategoryTotals(ts, startDate, endDate) ==> CategoryTime(ts, c, startDate, endDate) == 0
    decreases |ts|
  {
    if ts != [] {
      var init := ts[..|ts| - 1];
      var t := ts[|ts| - 1];
      CategoryTotalsSums(init, startDate, endDate, c);
      if HasCountedTask(init, c, startDate, endDate) {
        var i :| 0 <= i < |init| && CountedWith(init[i], c, startDate, endDate);
        assert ts[i] == init[i];
      }
      if HasCountedTask(ts, c, startDate, endDate) && !CountedWith(t, c, startDate, endDate) {
        var i :| 0 <= i < |ts| && CountedWith(ts[i], c, startDate, endDate);
        assert init[i] == ts[i];
      }
      if CountedWith(t, c, startDate, endDate) {
        assert CountedWith(ts[|ts| - 1], c, startDate, endDate);
      }
    }
  }

  /** `getTimeSpentByCategory`: one pass over the tasks, adding into the result map. */
  method GetTimeSpentByCategory(tasks: seq<Task>, startDate: int, endDate: int) returns (result: map<string, int>)
    ensures result == CategoryTotals(tasks, startDate, endDate)
    ensures forall c :: c in result <==> HasCountedTask(tasks, c, startDate, endDate)
    ensures forall c :: c in result ==> result[c] == CategoryTime(tasks, c, startDate, endDate)
  {
    result := map[];
    var i := 0;
    while i < |tasks|
      invariant 0 <= i <= |tasks|
      invariant result == CategoryTotals(tasks[..i], startDate, endDate)
    {
      var task := tasks[i];
      assert tasks[..i + 1][..i] == tasks[..i];
      if Counted(task, startDate, endDate) {
        var c := task.category.value;
        result := result[c := (if c in result then result[c] else 0) + MinutesSpent(task)];
      }
      i := i + 1;
    }
    assert tasks[..|tasks|] == tasks;
    forall c ensures (c in result <==> HasCountedTask(tasks, c, startDate, endDate))
      && (c in result ==> result[c] == CategoryTime(tasks, c, startDate, endDate))
    {
      CategoryTotalsSums(tasks, startDate, endDate, c);
    }
  }

  // ----- generateWeeklyStats (the data half) -----

  /** `stats[k]` is the first entry with that date. */
  predicate FirstWithDate(stats: seq<DailyStats>, date: string, k: int)
  {
    0 <= k < |stats| && stats[k].date == date && forall j :: 0 <= j < k ==> stats[j].date != date
  }

  /** `dailyStats.find(stat => stat.date === date)`'s score, or 0 without one. */
  function ScoreOn(stats: seq<DailyStats>, date: string): (score: int)
    ensures (exists k :: FirstWithDate(stats, date, k) && score == stats[k].productivityScore)
         || ((forall j :: 0 <= j < |stats| ==> stats[j].date != date) && score == 0)
  {
    if stats == [] then 0
    else if stats[0].date == date then
      assert FirstWithDate(stats, date, 0);
      stats[0].productivityScore
    else
      var rest := ScoreOn(stats[1..], date);
      assert (exists k :: FirstWithDate(stats[1..], date, k) && rest == stats[1..][k].productivityScore) ==>
             (exists k :: FirstWithDate(stats, date, k) && rest == stats[k].productivityScore) by {
        if exists k :: FirstWithDate(stats[1..], date, k) && rest == stats[1..][k].productivityScore {
          var k :| FirstWithDate(stats[1..], date, k) && rest == stats[1..][k].productivityScore;
          assert FirstWithDate(stats, date, k + 1);
        }
      }
      assert (forall j :: 0 <= j < |stats[1..]| ==> stats[1..][j].date != date) ==>
             (forall j :: 0 <= j < |stats| ==> stats[j].date != date) by {
        if forall j :: 0 <= j < |stats[1..]| ==> stats[1..][j].date != date {
          forall j | 0 <= j < |stats| ensures stats[j].date != date {
            if j > 0 { assert stats[j] == stats[1..][j - 1]; }
          }
        }
      }
      rest
  }

  /** The chart data: one score per date of the week, in the same order. */
  function WeeklyData(weekDates: seq<string>, stats: seq<DailyStats>): (data: seq<int>)
    ensures |data| == |weekDates|
    ensures forall i :: 0 <= i < |weekDates| ==> data[i] == ScoreOn(stats, weekDates[i])
  {
    seq(|weekDates|, i requires 0 <= i < |weekDates| => ScoreOn(stats, weekDates[i]))
  }

  /** Later entries with the same date never override the first. */
  lemma {:induction false} ScoreOnIgnoresLaterEntries(stats: seq<DailyStats>, more: seq<DailyStats>, date: string)
    requires exists k :: 0 <= k < |stats| && stats[k].date == date
    ensures ScoreOn(stats + more, date) == ScoreOn(stats, date)
  {
    var k :| 0 <= k < |stats| && stats[k].date == date;
    assert (stats + more)[0] == stats[0];
    if stats[0].date != date {
      assert (stats + more)[1..] == stats[1..] + more;
      assert stats[1..][k - 1] == stats[k];
      ScoreOnIgnoresLaterEntries(stats[1..], more, date);
    }
  }
}
