/**
 * The Pomodoro session engine (components/PomodoroTimer.tsx): a timer bound
 * to one task that works through the task's incomplete subtasks one work
 * session at a time, with a short or long break after each.
 *
 * The component's state variables are the fields of `Timer`. The work queue
 * is not state: it is recomputed from the store on every render, so here it
 * is the function `Queue()` of the store's current task list. Each event
 * handler becomes a method; the once-a-second interval and the "time is up"
 * branch of the effect become `Step`.
 */
module PomodoroTimer {
  import opened Model
  import opened JsText
  import opened TaskStore

  datatype Stage = Work | ShortBreak | LongBreak

  /** One queued work session: a subtask and its length in seconds. */
  datatype Session = Session(subTask: SubTask, duration: int)

  /** `subTasks.filter(st => !st.completed)`. */
  function Incomplete(sts: seq<SubTask>): (r: seq<SubTask>)
    ensures |r| <= |sts|
  {
    if sts == [] then []
    else if sts[0].completed then Incomplete(sts[1..])
    else [sts[0]] + Incomplete(sts[1..])
  }

  /** The filter keeps exactly the subtasks that are not completed. */
  lemma {:induction false} IncompleteMembers(sts: seq<SubTask>)
    ensures forall s :: s in Incomplete(sts) <==> s in sts && !s.completed
  {
    if sts != [] {
      IncompleteMembers(sts[1..]);
      assert sts == [sts[0]] + sts[1..];
    }
  }

  /**
   * `filter` keeps the incomplete subtasks in their stored order: `idx`
   * lists, increasing, the positions the result is read from, and those
   * positions are exactly the incomplete ones.
   */
  ghost predicate SelectsIncomplete(sts: seq<SubTask>, r: seq<SubTask>, idx: seq<nat>)
  {
    && |idx| == |r|
    && (forall k :: 0 <= k < |idx| ==> idx[k] < |sts| && r[k] == sts[idx[k]])
    && (forall k, l :: 0 <= k < l < |idx| ==> idx[k] < idx[l])
    && (forall i :: 0 <= i < |sts| ==> (!sts[i].completed <==> i in idx))
  }

  /** The filter is the order-preserving selection of the incomplete subtasks. */
  lemma IncompleteInOrder(sts: seq<SubTask>)
    ensures exists idx :: SelectsIncomplete(sts, Incomplete(sts), idx)
  {
    var idx := IncompletePositions(sts);
  }

  /** The positions `Incomplete` reads from, built alongside it. */
  lemma {:induction false} IncompletePositions(sts: seq<SubTask>) returns (idx: seq<nat>)
    ensures SelectsIncomplete(sts, Incomplete(sts), idx)
    decreases |sts|
  {
    if sts == [] {
      idx := [];
    } else {
      var rest := IncompletePositions(sts[1..]);
      var r := Incomplete(sts[1..]);
      ShiftPositions(sts, r, rest);
      if sts[0].completed {
        idx := Shift(rest);
        SkipPosition(sts, r, idx);
      } else {
        idx := [0] + Shift(rest);
        PrependPosition(sts, r, Shift(rest));
      }
    }
  }

  /** A completed head of `sts` is read from nowhere. */
  lemma SkipPosition(sts: seq<SubTask>, r: seq<SubTask>, shifted: seq<nat>)
    requires |sts| > 0 && sts[0].completed && |shifted| == |r| && 0 !in shifted
    requires forall k :: 0 <= k < |shifted| ==> shifted[k] < |sts| && r[k] == sts[shifted[k]]
    requires forall k, l :: 0 <= k < l < |shifted| ==> shifted[k] < shifted[l]
    requires forall i :: 1 <= i < |sts| ==> (!sts[i].completed <==> i in shifted)
    ensures SelectsIncomplete(sts, r, shifted)
  {
  }

  /** The positions read from the tail of `sts`, seen from `sts` itself. */
  lemma ShiftPositions(sts: seq<SubTask>, r: seq<SubTask>, rest: seq<nat>)
    requires sts != [] && SelectsIncomplete(sts[1..], r, rest)
    ensures var shifted := Shift(rest);
      && |shifted| == |r| && 0 !in shifted
      && (forall k :: 0 <= k < |shifted| ==> shifted[k] < |sts| && r[k] == sts[shifted[k]])
      && (forall k, l :: 0 <= k < l < |shifted| ==> shifted[k] < shifted[l])
      && (forall i :: 1 <= i < |sts| ==> (!sts[i].completed <==> i in shifted))
  {
    forall i | 1 <= i < |sts|
      ensures !sts[i].completed <==> i in Shift(rest)
    {
      ShiftKeepsMembers(rest, i - 1);
    }
    ShiftKeepsMembers(rest, 0);
  }

  /** The incomplete head of `sts` is read from position 0, before all the others. */
  lemma PrependPosition(sts: seq<SubTask>, r: seq<SubTask>, shifted: seq<nat>)
    requires |sts| > 0 && !sts[0].completed && |shifted| == |r| && 0 !in shifted
    requires forall k :: 0 <= k < |shifted| ==> shifted[k] < |sts| && r[k] == sts[shifted[k]]
    requires forall k, l :: 0 <= k < l < |shifted| ==> shifted[k] < shifted[l]
    requires forall i :: 1 <= i < |sts| ==> (!sts[i].completed <==> i in shifted)
    ensures SelectsIncomplete(sts, [sts[0]] + r, [0] + shifted)
  {
    var idx, r' := [0] + shifted, [sts[0]] + r;
    forall k | 0 <= k < |idx|
      ensures idx[k] < |sts| && r'[k] == sts[idx[k]]
    {
      if k > 0 {
        assert idx[k] == shifted[k - 1] && r'[k] == r[k - 1];
      }
    }
    forall k, l | 0 <= k < l < |idx|
      ensures idx[k] < idx[l]
    {
      assert idx[l] == shifted[l - 1];
      if k > 0 {
        assert idx[k] == shifted[k - 1];
      }
    }
  }

  /** Every position moved one place on. */
  function Shift(ps: seq<nat>): (r: seq<nat>)
    ensures |r| == |ps| && forall k :: 0 <= k < |ps| ==> r[k] == ps[k] + 1
  {
    seq(|ps|, k requires 0 <= k < |ps| => ps[k] + 1)
  }

  lemma ShiftKeepsMembers(ps: seq<nat>, i: nat)
    ensures i in ps <==> i + 1 in Shift(ps)
    ensures 0 !in Shift(ps)
  {
    if i in ps {
      var k :| 0 <= k < |ps| && ps[k] == i;
      assert Shift(ps)[k] == i + 1;
    }
  }

  /** When `sts[j]` is the first incomplete subtask, it heads the filtered list. */
  lemma FirstIncomplete(sts: seq<SubTask>, j: nat)
    requires j < |sts| && !sts[j].completed
    requires forall i :: 0 <= i < j ==> sts[i].completed
    ensures |Incomplete(sts)| > 0 && Incomplete(sts)[0] == sts[j]
  {
    var idx := IncompletePositions(sts);
    assert j in idx;
    var m :| 0 <= m < |idx| && idx[m] == j;
    assert idx[0] in idx;
    assert idx[0] <= j;
  }

  function ToSessions(sts: seq<SubTask>): (q: seq<Session>)
    ensures |q| == |sts|
  {
    seq(|sts|, i requires 0 <= i < |sts| => Session(sts[i], sts[i].estimatedMinutes * 60))
  }

  /** The work queue: the incomplete subtasks of the first task with the id, in their order. */
  function Sessions(ts: seq<Task>, taskId: Id): (q: seq<Session>)
    ensures forall i :: 0 <= i < |q| ==>
      !q[i].subTask.completed && q[i].duration == q[i].subTask.estimatedMinutes * 60
    ensures FindTask(ts, taskId).None? ==> q == []
    ensures FindTask(ts, taskId).Some? ==>
      forall s :: s in FindTask(ts, taskId).value.subTasks ==>
        (!s.completed <==> exists i :: 0 <= i < |q| && q[i].subTask == s)
    ensures FindTask(ts, taskId).Some? ==>
      var inc := Incomplete(FindTask(ts, taskId).value.subTasks);
      |q| == |inc| && forall i :: 0 <= i < |q| ==> q[i].subTask == inc[i]
  {
    match FindTask(ts, taskId)
    case None => []
    case Some(t) =>
      var inc := Incomplete(t.subTasks);
      IncompleteMembers(t.subTasks);
      var q := ToSessions(inc);
      assert forall s :: s in inc <==> exists i :: 0 <= i < |q| && q[i].subTask == s by {
        forall s | s in inc ensures exists i :: 0 <= i < |q| && q[i].subTask == s {
          var i :| 0 <= i < |inc| && inc[i] == s;
          assert q[i].subTask == s;
        }
      }
      q
  }

  /** `Math.ceil(seconds / 60)`: the whole minutes that cover `seconds`. */
  function CeilMinutes(seconds: int): (m: int)
    ensures 60 * (m - 1) < seconds <= 60 * m
  {
    -((-seconds) / 60)
  }

  /** The write that ends a work session: done, with the minutes actually spent. */
  function DonePatch(duration: int, timeLeft: int): SubTaskPatch
  {
    SubTaskPatch(None, Some(true), None, Some(CeilMinutes(duration - timeLeft)))
  }

  /**
   * `(completedSessions + 1) % sessionsBeforeLongBreak === 0`. With a zero
   * setting the remainder is `NaN` and no break is long.
   */
  function LongBreakDue(completed: nat, every: int): (due: bool)
    ensures every == 0 ==> !due
  {
    every != 0 && (completed + 1) % every == 0
  }

  /** With a positive setting `e`, exactly the `e`-th, `2e`-th, ... completed session earns a long break. */
  lemma LongBreakPeriodic(completed: nat, every: int)
    requires every > 0
    ensures LongBreakDue(completed + every, every) == LongBreakDue(completed, every)
    ensures completed < every ==> (LongBreakDue(completed, every) <==> completed == every - 1)
  {
    var a := completed + 1;
    var q, r := a / every, a % every;
    assert a + every == (q + 1) * every + r;
    ModOfDecomposition(a + every, every, q + 1, r);
    if completed < every {
      if a < every {
        ModOfDecomposition(a, every, 0, a);
      } else {
        ModOfDecomposition(a, every, 1, 0);
      }
    }
  }

  /** The remainder is determined by any decomposition `a == q * e + r` with `0 <= r < e`. */
  lemma ModOfDecomposition(a: int, e: int, q: int, r: int)
    requires e > 0 && 0 <= r < e && a == q * e + r
    ensures a % e == r
  {
    var d := (a / e) - q;
    assert d * e == r - a % e;
    if d > 0 {
      ProductAtLeast(d, e);
    } else if d < 0 {
      ProductAtLeast(-d, e);
    }
  }

  lemma ProductAtLeast(d: int, e: int)
    requires d >= 1 && e > 0
    ensures d * e >= e
  {
    assert d * e == (d - 1) * e + e;
  }

  function BreakAfter(completed: nat, settings: PomodoroSettings): (stage: Stage)
    ensures stage != Work
  {
    if LongBreakDue(completed, settings.sessionsBeforeLongBreak) then LongBreak else ShortBreak
  }

  function BreakSeconds(stage: Stage, settings: PomodoroSettings): int
  {
    if stage == LongBreak then settings.longBreakDuration * 60 else settings.shortBreakDuration * 60
  }

  /** The clock when a queue is (re)started: the first session, or the default work length when there is none. */
  function StartSeconds(q: seq<Session>, settings: PomodoroSettings): (seconds: int)
    ensures |q| > 0 ==> seconds == q[0].duration
    ensures |q| == 0 ==> seconds == settings.workDuration * 60
  {
    if |q| > 0 then q[0].duration else settings.workDuration * 60
  }

  /**
   * The clock a task's timer starts at: the estimate of its first incomplete
   * subtask, in seconds.
   */
  lemma StartOnFirstIncomplete(ts: seq<Task>, taskId: Id, settings: PomodoroSettings, j: nat)
    requires FindTask(ts, taskId).Some?
    requires var sts := FindTask(ts, taskId).value.subTasks;
      j < |sts| && !sts[j].completed && forall i :: 0 <= i < j ==> sts[i].completed
    ensures StartSeconds(Sessions(ts, taskId), settings)
         == FindTask(ts, taskId).value.subTasks[j].estimatedMinutes * 60
  {
    FirstIncomplete(FindTask(ts, taskId).value.subTasks, j);
  }

  /** With the task missing or all its subtasks done, the clock starts at the default work length. */
  lemma StartWithoutIncomplete(ts: seq<Task>, taskId: Id, settings: PomodoroSettings)
    requires FindTask(ts, taskId).Some? ==>
      forall s :: s in FindTask(ts, taskId).value.subTasks ==> s.completed
    ensures StartSeconds(Sessions(ts, taskId), settings) == settings.workDuration * 60
  {
    if FindTask(ts, taskId).Some? {
      var sts := FindTask(ts, taskId).value.subTasks;
      IncompleteMembers(sts);
      if Incomplete(sts) != [] {
        assert Incomplete(sts)[0] in Incomplete(sts);
      }
    }
  }

  /**
   * Completing a queued subtask removes exactly that subtask from the
   * incomplete list and leaves the others in order. `g` is the update
   * applied to the subtask with the id; all it must do is mark it completed.
   */
  lemma {:induction false} IncompleteAfterCompleting(sts: seq<SubTask>, sid: Id, g: SubTask -> SubTask, k: nat)
    requires UniqueSubTaskIds(sts)
    requires k < |Incomplete(sts)| && Incomplete(sts)[k].id == sid
    requires forall s :: g(s).completed
    ensures Incomplete(MapSubMatching(sts, sid, g)) == Incomplete(sts)[..k] + Incomplete(sts)[k + 1..]
    decreases |sts|, 1
  {
    if sts[0].id == sid {
      CompletingHead(sts, sid, g, k);
    } else {
      CompletingLater(sts, sid, g, k);
    }
  }

  /** The case of `IncompleteAfterCompleting` where the completed subtask comes later. */
  lemma {:induction false} CompletingLater(sts: seq<SubTask>, sid: Id, g: SubTask -> SubTask, k: nat)
    requires UniqueSubTaskIds(sts)
    requires k < |Incomplete(sts)| && Incomplete(sts)[k].id == sid
    requires sts[0].id != sid && forall s :: g(s).completed
    ensures Incomplete(MapSubMatching(sts, sid, g)) == Incomplete(sts)[..k] + Incomplete(sts)[k + 1..]
    decreases |sts|, 0
  {
    var tail := sts[1..];
    var mapped := MapSubMatching(tail, sid, g);
    UniqueSubTaskIdsTail(sts);
    assert sts == [sts[0]] + tail;
    assert MapSubMatching(sts, sid, g) == [sts[0]] + mapped;
    IncompleteCons(sts[0], tail);
    IncompleteCons(sts[0], mapped);
    if sts[0].completed {
      IncompleteAfterCompleting(tail, sid, g, k);
    } else {
      var rest := Incomplete(tail);
      assert Incomplete(sts)[0] == sts[0];
      assert k > 0 && rest[k - 1] == Incomplete(sts)[k];
      IncompleteAfterCompleting(tail, sid, g, k - 1);
      ConsSlices(sts[0], rest, k);
    }
  }

  /** Filtering a list that starts with `x`. */
  lemma IncompleteCons(x: SubTask, s: seq<SubTask>)
    ensures Incomplete([x] + s) == if x.completed then Incomplete(s) else [x] + Incomplete(s)
  {
    assert ([x] + s)[1..] == s;
  }

  /** Cutting the `k`-th element out of `[x] + rest`, for `k` past the head. */
  lemma ConsSlices<T>(x: T, rest: seq<T>, k: nat)
    requires 1 <= k <= |rest|
    ensures ([x] + rest)[..k] + ([x] + rest)[k + 1..] == [x] + (rest[..k - 1] + rest[k..])
  {
    assert ([x] + rest)[..k] == [x] + rest[..k - 1];
    assert ([x] + rest)[k + 1..] == rest[k..];
  }

  /** The case of `IncompleteAfterCompleting` where the completed subtask comes first. */
  lemma CompletingHead(sts: seq<SubTask>, sid: Id, g: SubTask -> SubTask, k: nat)
    requires UniqueSubTaskIds(sts)
    requires k < |Incomplete(sts)| && Incomplete(sts)[k].id == sid
    requires sts[0].id == sid && forall s :: g(s).completed
    ensures k == 0
    ensures Incomplete(MapSubMatching(sts, sid, g)) == Incomplete(sts)[1..]
  {
    var tail := sts[1..];
    forall s | s in tail ensures s.id != sid {
      var m :| 0 <= m < |tail| && tail[m] == s;
      assert sts[m + 1] == s;
    }
    var inc := Incomplete(sts);
    IncompleteMembers(sts);
    assert inc[k] in inc;
    assert !sts[0].completed;
    assert inc == [sts[0]] + Incomplete(tail);
    IncompleteMembers(tail);
    assert k == 0;
    assert MapSubMatching(tail, sid, g) == tail;
    assert MapSubMatching(sts, sid, g) == [g(sts[0])] + tail;
    IncompleteCons(g(sts[0]), tail);
  }

  /**
   * After the timer marks the queue's `k`-th subtask done, the queue the next
   * render computes is the old queue without its `k`-th session: one shorter,
   * so the session that followed the finished one now sits at index `k`.
   */
  lemma QueueAfterCompletion(ts: seq<Task>, n: nat, taskId: Id, k: nat, p: SubTaskPatch)
    requires WellFormed(ts, n)
    requires k < |Sessions(ts, taskId)|
    requires p.completed == Some(true)
    ensures Sessions(WithSubTaskUpdate(ts, taskId, Sessions(ts, taskId)[k].subTask.id, p), taskId)
         == Sessions(ts, taskId)[..k] + Sessions(ts, taskId)[k + 1..]
  {
    var q := Sessions(ts, taskId);
    var t := FindTask(ts, taskId).value;
    var sid := q[k].subTask.id;
    FindMapped(ts, taskId, (u: Task) => u.(subTasks := MapSubMatching(u.subTasks, sid, (s: SubTask) => MergeSub(s, p))));
    var inc := Incomplete(t.subTasks);
    assert q == ToSessions(inc);
    assert inc[k] == q[k].subTask;
    IncompleteAfterCompleting(t.subTasks, sid, (s: SubTask) => MergeSub(s, p), k);
    ToSessionsWithout(inc, k);
  }

  lemma ToSessionsWithout(sts: seq<SubTask>, k: nat)
    requires k < |sts|
    ensures ToSessions(sts[..k] + sts[k + 1..]) == ToSessions(sts)[..k] + ToSessions(sts)[k + 1..]
  {
    var a := ToSessions(sts[..k] + sts[k + 1..]);
    var b := ToSessions(sts)[..k] + ToSessions(sts)[k + 1..];
    forall i | 0 <= i < |a| ensures a[i] == b[i] {
      if i < k {
        assert (sts[..k] + sts[k + 1..])[i] == sts[i];
      } else {
        assert (sts[..k] + sts[k + 1..])[i] == sts[i + 1];
      }
    }
  }

  /** The queue after the timer's write, stated the way the break-end branch sees it. */
  lemma BreakEndSkipsFollower(ts: seq<Task>, n: nat, taskId: Id, k: nat, p: SubTaskPatch)
    requires WellFormed(ts, n)
    requires k + 2 < |Sessions(ts, taskId)|
    requires p.completed == Some(true)
    ensures var after := Sessions(WithSubTaskUpdate(ts, taskId, Sessions(ts, taskId)[k].subTask.id, p), taskId);
      && |after| == |Sessions(ts, taskId)| - 1
      && after[k] == Sessions(ts, taskId)[k + 1]
      && after[k + 1] == Sessions(ts, taskId)[k + 2]
  {
    QueueAfterCompletion(ts, n, taskId, k, p);
  }

  /** `formatTime` of the timer: minutes, a colon, and two-digit seconds. */
  function FormatClock(seconds: int): string
  {
    IntToString(seconds / 60) + ":" + SecondsField(seconds)
  }

  /** `(seconds % 60).toString().padStart(2, '0')`. */
  function SecondsField(seconds: int): string
  {
    PadStart(IntToString(JsRem(seconds, 60)), 2, '0')
  }

  /** For a non-negative count the seconds field is two digits reading as the seconds past the minute. */
  lemma SecondsFieldDigits(seconds: int)
    requires seconds >= 0
    ensures var f := SecondsField(seconds); |f| == 2 && AllDigits(f) && ParseNat(f) == seconds % 60
  {
    assert IntToString(JsRem(seconds, 60)) == NatToString(seconds % 60);
    TwoDigitRoundTrip(seconds % 60);
  }

  /** Reads a clock text "<digits>:<two digits>" back as a number of seconds. */
  function ReadClock(r: string): Option<int>
  {
    if |r| >= 4 && r[|r| - 3] == ':' && AllDigits(r[..|r| - 3]) && AllDigits(r[|r| - 2..])
    then Some(ParseNat(r[..|r| - 3]) * 60 + ParseNat(r[|r| - 2..]))
    else None
  }

  /** For a non-negative count the clock is the whole minutes, a colon and exactly two digits of seconds. */
  lemma ClockShape(seconds: int)
    requires seconds >= 0
    ensures var r := FormatClock(seconds);
      |r| >= 4 && r[|r| - 3] == ':' && r[..|r| - 3] == NatToString(seconds / 60)
      && r[|r| - 2..] == SecondsField(seconds) && AllDigits(r[|r| - 2..])
  {
    var q := seconds / 60;
    assert FormatClock(seconds) == NatToString(q) + ":" + SecondsField(seconds);
    SecondsFieldDigits(seconds);
    ClockParts(NatToString(q), SecondsField(seconds));
  }

  /** Minutes text, a colon and a two-character seconds text, taken apart again. */
  lemma ClockParts(m: string, f: string)
    requires |m| >= 1 && |f| == 2
    ensures var r := m + ":" + f;
      |r| >= 4 && r[|r| - 3] == ':' && r[..|r| - 3] == m && r[|r| - 2..] == f
  {
    SplitAround(m, ':', f);
  }

  /** A non-negative clock reading denotes exactly the seconds it was made from. */
  lemma ClockRoundTrip(seconds: int)
    requires seconds >= 0
    ensures ReadClock(FormatClock(seconds)) == Some(seconds)
  {
    var q := seconds / 60;
    assert FormatClock(seconds) == NatToString(q) + ":" + SecondsField(seconds);
    SecondsFieldDigits(seconds);
    ReadClockParts(NatToString(q), SecondsField(seconds));
    NatToStringRoundTrip(q);
  }

  /** Digits, a colon and two digits read as minutes and seconds. */
  lemma ReadClockParts(m: string, f: string)
    requires |m| >= 1 && AllDigits(m) && |f| == 2 && AllDigits(f)
    ensures ReadClock(m + ":" + f) == Some(ParseNat(m) * 60 + ParseNat(f))
  {
    ClockParts(m, f);
  }

  /** Seconds padded to two digits read back as themselves. */
  lemma TwoDigitRoundTrip(k: nat)
    requires k < 60
    ensures var r := PadStart(NatToString(k), 2, '0');
      |r| == 2 && AllDigits(r) && ParseNat(r) == k
  {
    var r := PadStart(NatToString(k), 2, '0');
    if k < 10 {
      assert r == ['0', Digit(k)];
      assert r[..1] == ['0'] && ['0'][..0] == [];
    } else {
      assert r == NatToString(k);
      NatToStringRoundTrip(k);
    }
  }

  /** Editing a whole-minute clock and saving the proposed value leaves it as it was. */
  lemma EditProposalKeepsWholeMinutes(minutes: int)
    ensures CeilMinutes(minutes * 60) == minutes
  {
  }

  class Timer {
    const store: Store
    const taskId: Id
    var index: nat
    var stage: Stage
    var timeLeft: int
    var isRunning: bool
    var completedSessions: nat
    var totalTimeSpent: nat

    function Queue(): seq<Session>
      reads store
    {
      Sessions(store.tasks, taskId)
    }

    /** The session index stays within the queue, so going back never reads past it. */
    ghost predicate InRange()
      reads this, store
    {
      index <= |Queue()|
    }

    /** The effect of `handleStageComplete`, between the state before and after it. */
    twostate predicate StageCompleted()
      reads this, store
    {
      var before := Sessions(old(store.tasks), taskId);
      var after := Sessions(store.tasks, taskId);
      && totalTimeSpent == old(totalTimeSpent)
      && store.nextId == old(store.nextId)
      && store.dailyStats == old(store.dailyStats)
      && store.pomodoroSettings == old(store.pomodoroSettings)
      && if old(stage) == Work then
           && store.tasks == (if old(index) < |before| then
                WithSubTaskUpdate(old(store.tasks), taskId, before[old(index)].subTask.id,
                                  DonePatch(before[old(index)].duration, old(timeLeft)))
              else old(store.tasks))
           && completedSessions == old(completedSessions) + 1
           && stage == BreakAfter(old(completedSessions), store.pomodoroSettings)
           && timeLeft == BreakSeconds(stage, store.pomodoroSettings)
           && isRunning
           && index == old(index)
         else
           && store.tasks == old(store.tasks)
           && completedSessions == old(completedSessions)
           && stage == Work
           && if old(index) + 1 < |after| then
                index == old(index) + 1 && timeLeft == after[index].duration && isRunning == old(isRunning)
              else
                index == 0 && !isRunning && timeLeft == (if |after| > 0 then after[0].duration else old(timeLeft))
    }

    /** Mounting the component on `taskId`. */
    constructor (store: Store, taskId: Id)
      ensures this.store == store && this.taskId == taskId
      ensures index == 0 && stage == Work && !isRunning && completedSessions == 0 && totalTimeSpent == 0
      ensures timeLeft == StartSeconds(Sessions(store.tasks, taskId), store.pomodoroSettings)
      ensures InRange()
    {
      this.store := store;
      this.taskId := taskId;
      index := 0;
      stage := Work;
      timeLeft := StartSeconds(Sessions(store.tasks, taskId), store.pomodoroSettings);
      isRunning := false;
      completedSessions := 0;
      totalTimeSpent := 0;
    }

    /** `handleStageComplete`. */
    method CompleteStage()
      requires store.Valid()
      modifies this, store
      ensures store.Valid()
      ensures StageCompleted()
      ensures old(InRange()) ==> InRange()
    {
      if stage == Work {
        EndWork();
      } else {
        EndBreak();
      }
    }

    /** The work half of `handleStageComplete`: record the session and start the break. */
    method EndWork()
      requires store.Valid() && stage == Work
      modifies this, store
      ensures store.Valid()
      ensures StageCompleted()
      ensures old(InRange()) ==> InRange()
    {
      var q := Queue();
      if index < |q| {
        var patch := DonePatch(q[index].duration, timeLeft);
        QueueAfterCompletion(store.tasks, store.nextId, taskId, index, patch);
        store.UpdateSubTask(taskId, q[index].subTask.id, patch);
      }
      stage := BreakAfter(completedSessions, store.pomodoroSettings);
      timeLeft := BreakSeconds(stage, store.pomodoroSettings);
      completedSessions := completedSessions + 1;
      isRunning := true;
    }

    /** The break half of `handleStageComplete`: on to the next queued session, or back to the start. */
    method EndBreak()
      requires stage != Work
      modifies this
      ensures StageCompleted()
      ensures old(InRange()) ==> InRange()
    {
      var q := Queue();
      stage := Work;
      if index + 1 < |q| {
        index := index + 1;
        timeLeft := q[index].duration;
      } else {
        isRunning := false;
        index := 0;
        if |q| > 0 {
          timeLeft := q[0].duration;
        }
      }
    }

    /**
     * One pass of the effect: while running with time left a second elapses;
     * running at zero completes the stage; otherwise nothing happens (a
     * negative clock, reachable through a negative estimate, stays put).
     */
    method Step()
      requires store.Valid()
      modifies this, store
      ensures store.Valid()
      ensures old(InRange()) ==> InRange()
      ensures old(isRunning) && old(timeLeft) > 0 ==>
        && timeLeft == old(timeLeft) - 1 && totalTimeSpent == old(totalTimeSpent) + 1
        && isRunning && index == old(index) && stage == old(stage)
        && completedSessions == old(completedSessions) && unchanged(store)
      ensures old(isRunning) && old(timeLeft) == 0 ==> StageCompleted()
      ensures !old(isRunning) || old(timeLeft) < 0 ==> unchanged(this) && unchanged(store)
    {
      if isRunning && timeLeft > 0 {
        timeLeft := timeLeft - 1;
        totalTimeSpent := totalTimeSpent + 1;
      } else if isRunning && timeLeft == 0 {
        CompleteStage();
      }
    }

    /** `toggleTimer`. */
    method Toggle()
      modifies this
      ensures isRunning == !old(isRunning)
      ensures index == old(index) && stage == old(stage) && timeLeft == old(timeLeft)
      ensures completedSessions == old(completedSessions) && totalTimeSpent == old(totalTimeSpent)
    {
      isRunning := !isRunning;
    }

    /** `resetTimer`. */
    method Reset()
      modifies this
      ensures index == 0 && stage == Work && !isRunning && completedSessions == 0 && totalTimeSpent == 0
      ensures timeLeft == StartSeconds(Queue(), store.pomodoroSettings)
      ensures InRange()
    {
      index := 0;
      stage := Work;
      isRunning := false;
      completedSessions := 0;
      totalTimeSpent := 0;
      timeLeft := StartSeconds(Queue(), store.pomodoroSettings);
    }

    /**
     * `markCurrentSubtaskDone`. In a work stage with a current session the
     * handler writes the completion and then runs `handleStageComplete`,
     * which writes the same update again from the same render; the two writes
     * are one (`SubTaskUpdateIdempotent`), and the break it starts is running.
     * A work stage without a session does nothing; a break is skipped.
     */
    method MarkDone()
      requires store.Valid()
      modifies this, store
      ensures store.Valid()
      ensures old(InRange()) ==> InRange()
      ensures old(stage) == Work && old(index) >= |old(Queue())| ==> unchanged(this) && unchanged(store)
      ensures old(stage) != Work || old(index) < |old(Queue())| ==> StageCompleted()
    {
      if stage != Work || index < |Queue()| {
        CompleteStage();
      }
    }

    /** `saveTimeEdit`, given the value `parseInt` read (`None` for `NaN`). */
    method SaveTimeEdit(minutes: Option<int>)
      modifies this
      ensures minutes.None? || minutes.value <= 0 ==> timeLeft == old(timeLeft)
      ensures minutes.Some? && minutes.value > 0 ==> timeLeft == minutes.value * 60 && timeLeft > 0
      ensures index == old(index) && stage == old(stage) && isRunning == old(isRunning)
      ensures completedSessions == old(completedSessions) && totalTimeSpent == old(totalTimeSpent)
    {
      if minutes.Some? && minutes.value > 0 {
        timeLeft := minutes.value * 60;
      }
    }

    /** The value `handleTimeEdit` proposes for editing: the clock in whole minutes, rounded up. */
    function EditProposal(): (m: int)
      reads this
      ensures timeLeft > 0 ==> m > 0 && timeLeft <= m * 60 < timeLeft + 60
    {
      CeilMinutes(timeLeft)
    }

    /** `goToPreviousSession`: the queue is read at the previous index, which `InRange` keeps valid. */
    method GoToPrevious()
      requires InRange()
      modifies this
      ensures InRange()
      ensures old(index) > 0 ==>
        index == old(index) - 1 && stage == Work && !isRunning && timeLeft == Queue()[index].duration
      ensures old(index) == 0 ==> stage == old(stage) && isRunning == old(isRunning) && timeLeft == old(timeLeft) && index == 0
      ensures completedSessions == old(completedSessions) && totalTimeSpent == old(totalTimeSpent)
    {
      if index > 0 {
        index := index - 1;
        stage := Work;
        timeLeft := Queue()[index].duration;
        isRunning := false;
      }
    }

    /** `goToNextSession`. */
    method GoToNext()
      modifies this
      ensures old(InRange()) ==> InRange()
      ensures old(index) + 1 < |Queue()| ==>
        index == old(index) + 1 && stage == Work && !isRunning && timeLeft == Queue()[index].duration
      ensures old(index) + 1 >= |Queue()| ==>
        index == old(index) && stage == old(stage) && isRunning == old(isRunning) && timeLeft == old(timeLeft)
      ensures completedSessions == old(completedSessions) && totalTimeSpent == old(totalTimeSpent)
    {
      if index + 1 < |Queue()| {
        index := index + 1;
        stage := Work;
        timeLeft := Queue()[index].duration;
        isRunning := false;
      }
    }
  }
}
