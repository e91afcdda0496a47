/**
 * The task store (store/taskStore.ts): one state container holding the task
 * list, the daily statistics and the Pomodoro settings. Every action replaces
 * the task list by a copy transformed by id: an append, a map that merges
 * into the matching task, a filter, or a full re-sort.
 *
 * The pure functions below compute each action's new task list; the class
 * `Store` holds the state and applies them. Identifiers come from the store's
 * fresh-id supply `nextId`, whose invariant is that every id in use is below
 * it.
 */
module TaskStore {
  import opened Model
  import Priorities

  const DefaultSettings := PomodoroSettings(25, 5, 15, 4)

  /**
   * `Partial<Task>`: a field that is `None` is absent. The id and the subtask
   * list are not part of it (no caller passes them, and the subtask list is
   * only changed through the subtask actions).
   */
  datatype TaskPatch = TaskPatch(
    title: Option<string>,
    description: Option<string>,
    createdAt: Option<int>,
    dueDate: Option<int>,
    completed: Option<bool>,
    category: Option<string>,
    estimatedMinutes: Option<int>,
    actualMinutes: Option<int>,
    aiGenerated: Option<bool>,
    priority: Option<Priority>,
    order: Option<int>)

  /** `Partial<SubTask>` without the id. */
  datatype SubTaskPatch = SubTaskPatch(
    title: Option<string>,
    completed: Option<bool>,
    estimatedMinutes: Option<int>,
    actualMinutes: Option<int>)

  /** `x || d` for a string: an absent or empty string gives `d`. */
  function TextOr(x: Option<string>, d: string): string
  {
    if x.Some? && x.value != "" then x.value else d
  }

  /** `x || d` for a number: an absent or zero number gives `d`. */
  function NumberOr(x: Option<int>, d: int): int
  {
    if x.Some? && x.value != 0 then x.value else d
  }

  function Pick<T>(x: Option<T>, current: T): T
  {
    if x.Some? then x.value else current
  }

  function PickOptional<T>(x: Option<T>, current: Option<T>): Option<T>
  {
    if x.Some? then x else current
  }

  /** The task `addTask` builds from a partial task. */
  function NewTask(p: TaskPatch, id: Id, now: int, order: int): Task
  {
    Task(id, TextOr(p.title, ""), TextOr(p.description, ""), now, p.dueDate, false, p.category,
         NumberOr(p.estimatedMinutes, 30), None, [], false, Some(p.priority.GetOr(Medium)), Some(order))
  }

  /** The subtask `addSubTask` builds from a partial subtask. */
  function NewSubTask(p: SubTaskPatch, id: Id): SubTask
  {
    SubTask(id, TextOr(p.title, ""), false, NumberOr(p.estimatedMinutes, 15), None)
  }

  /** `{ ...t, ...p }`. */
  function Merge(t: Task, p: TaskPatch): Task
  {
    t.(title := Pick(p.title, t.title),
       description := Pick(p.description, t.description),
       createdAt := Pick(p.createdAt, t.createdAt),
       dueDate := PickOptional(p.dueDate, t.dueDate),
       completed := Pick(p.completed, t.completed),
       category := PickOptional(p.category, t.category),
       estimatedMinutes := Pick(p.estimatedMinutes, t.estimatedMinutes),
       actualMinutes := PickOptional(p.actualMinutes, t.actualMinutes),
       aiGenerated := Pick(p.aiGenerated, t.aiGenerated),
       priority := PickOptional(p.priority, t.priority),
       order := PickOptional(p.order, t.order))
  }

  /** `{ ...s, ...p }`. */
  function MergeSub(s: SubTask, p: SubTaskPatch): SubTask
  {
    s.(title := Pick(p.title, s.title),
       completed := Pick(p.completed, s.completed),
       estimatedMinutes := Pick(p.estimatedMinutes, s.estimatedMinutes),
       actualMinutes := PickOptional(p.actualMinutes, s.actualMinutes))
  }

  /** `{ ...p, ...q }`: the fields of `q` win. */
  function ThenPatch(p: TaskPatch, q: TaskPatch): TaskPatch
  {
    TaskPatch(PickOptional(q.title, p.title), PickOptional(q.description, p.description),
              PickOptional(q.createdAt, p.createdAt), PickOptional(q.dueDate, p.dueDate),
              PickOptional(q.completed, p.completed), PickOptional(q.category, p.category),
              PickOptional(q.estimatedMinutes, p.estimatedMinutes),
              PickOptional(q.actualMinutes, p.actualMinutes), PickOptional(q.aiGenerated, p.aiGenerated),
              PickOptional(q.priority, p.priority), PickOptional(q.order, p.order))
  }

  /** Two successive updates are one update by the combined patch. */
  lemma MergeThenMerge(t: Task, p: TaskPatch, q: TaskPatch)
    ensures Merge(Merge(t, p), q) == Merge(t, ThenPatch(p, q))
  {
  }

  /** Merging keeps the identity and the subtasks, and repeating a merge changes nothing. */
  lemma MergeProperties(t: Task, p: TaskPatch)
    ensures Merge(t, p).id == t.id && Merge(t, p).subTasks == t.subTasks
    ensures Merge(Merge(t, p), p) == Merge(t, p)
  {
  }

  lemma MergeSubIdempotent(s: SubTask, p: SubTaskPatch)
    ensures MergeSub(s, p).id == s.id
    ensures MergeSub(MergeSub(s, p), p) == MergeSub(s, p)
  {
  }

  /** `ts.map((t: Task) => t.id === id ? f(t) : t)`. */
  function MapMatching(ts: seq<Task>, id: Id, f: Task -> Task): (r: seq<Task>)
    ensures |r| == |ts|
    ensures forall i :: 0 <= i < |ts| ==> r[i] == if ts[i].id == id then f(ts[i]) else ts[i]
  {
    if ts == [] then [] else [if ts[0].id == id then f(ts[0]) else ts[0]] + MapMatching(ts[1..], id, f)
  }

  /** `sts.map((s: SubTask) => s.id === id ? g(s) : s)`. */
  function MapSubMatching(sts: seq<SubTask>, id: Id, g: SubTask -> SubTask): (r: seq<SubTask>)
    ensures |r| == |sts|
    ensures forall i :: 0 <= i < |sts| ==> r[i] == if sts[i].id == id then g(sts[i]) else sts[i]
  {
    if sts == [] then [] else [if sts[0].id == id then g(sts[0]) else sts[0]] + MapSubMatching(sts[1..], id, g)
  }

  /** A map keyed by an id that no task carries returns the list unchanged. */
  lemma MapMatchingAbsent(ts: seq<Task>, id: Id, f: Task -> Task)
    requires forall t :: t in ts ==> t.id != id
    ensures MapMatching(ts, id, f) == ts
  {
  }

  /** `a` is `b` with some of its elements left out, the rest in their order. */
  ghost predicate IsSubsequence<T>(a: seq<T>, b: seq<T>)
    decreases |b|
  {
    a == [] || (b != [] && ((a[0] == b[0] && IsSubsequence(a[1..], b[1..])) || IsSubsequence(a, b[1..])))
  }

  /** `ts.filter((t: Task) => t.id !== id)`. */
  function WithoutTask(ts: seq<Task>, id: Id): (r: seq<Task>)
    ensures forall t :: t in r ==> t in ts && t.id != id
    ensures forall t :: t in ts && t.id != id ==> t in r
  {
    if ts == [] then []
    else if ts[0].id == id then WithoutTask(ts[1..], id)
    else [ts[0]] + WithoutTask(ts[1..], id)
  }

  /** `sts.filter((s: SubTask) => s.id !== id)`. */
  function WithoutSubTask(sts: seq<SubTask>, id: Id): (r: seq<SubTask>)
    ensures forall s :: s in r ==> s in sts && s.id != id
    ensures forall s :: s in sts && s.id != id ==> s in r
  {
    if sts == [] then []
    else if sts[0].id == id then WithoutSubTask(sts[1..], id)
    else [sts[0]] + WithoutSubTask(sts[1..], id)
  }

  /** Deleting keeps the remaining tasks in their relative order. */
  lemma {:induction false} WithoutTaskKeepsOrder(ts: seq<Task>, id: Id)
    ensures IsSubsequence(WithoutTask(ts, id), ts)
  {
    if ts != [] {
      WithoutTaskKeepsOrder(ts[1..], id);
      var r := WithoutTask(ts, id);
      if ts[0].id != id {
        assert r[0] == ts[0] && r[1..] == WithoutTask(ts[1..], id);
      }
    }
  }

  /** Deleting a subtask keeps the remaining subtasks, and so the work queue, in their order. */
  lemma {:induction false} WithoutSubTaskKeepsOrder(sts: seq<SubTask>, id: Id)
    ensures IsSubsequence(WithoutSubTask(sts, id), sts)
  {
    if sts != [] {
      WithoutSubTaskKeepsOrder(sts[1..], id);
      var r := WithoutSubTask(sts, id);
      if sts[0].id != id {
        assert r[0] == sts[0] && r[1..] == WithoutSubTask(sts[1..], id);
      }
    }
  }

  /** Deleting an absent id changes nothing; deleting an id that one task carries removes just that task. */
  lemma {:induction false} WithoutTaskLength(ts: seq<Task>, id: Id)
    requires UniqueTaskIds(ts)
    ensures (forall t :: t in ts ==> t.id != id) ==> WithoutTask(ts, id) == ts
    ensures (exists t :: t in ts && t.id == id) ==> |WithoutTask(ts, id)| == |ts| - 1
  {
    if ts != [] {
      UniqueTaskIdsTail(ts);
      WithoutTaskLength(ts[1..], id);
      if ts[0].id == id {
        HeadIdNotInTail(ts);
      } else if exists t :: t in ts && t.id == id {
        var t :| t in ts && t.id == id;
        assert t in ts[1..];
      }
    }
  }

  // ----- the new task list after each action -----

  function WithCompleted(ts: seq<Task>, id: Id, completed: bool): seq<Task>
  {
    MapMatching(ts, id, (t: Task) => t.(completed := completed))
  }

  function WithUpdate(ts: seq<Task>, id: Id, p: TaskPatch): seq<Task>
  {
    MapMatching(ts, id, (t: Task) => Merge(t, p))
  }

  function WithPriority(ts: seq<Task>, id: Id, priority: Priority): seq<Task>
  {
    MapMatching(ts, id, (t: Task) => t.(priority := Some(priority)))
  }

  function WithSubTaskAdded(ts: seq<Task>, taskId: Id, p: SubTaskPatch, freshId: Id): seq<Task>
  {
    MapMatching(ts, taskId, (t: Task) => t.(subTasks := t.subTasks + [NewSubTask(p, freshId)]))
  }

  function WithSubTaskCompleted(ts: seq<Task>, taskId: Id, subTaskId: Id, completed: bool): seq<Task>
  {
    MapMatching(ts, taskId, (t: Task) => t.(subTasks := MapSubMatching(t.subTasks, subTaskId, (s: SubTask) => s.(completed := completed))))
  }

  function WithSubTaskUpdate(ts: seq<Task>, taskId: Id, subTaskId: Id, p: SubTaskPatch): seq<Task>
  {
    MapMatching(ts, taskId, (t: Task) => t.(subTasks := MapSubMatching(t.subTasks, subTaskId, (s: SubTask) => MergeSub(s, p))))
  }

  function WithoutSubTaskIn(ts: seq<Task>, taskId: Id, subTaskId: Id): seq<Task>
  {
    MapMatching(ts, taskId, (t: Task) => t.(subTasks := WithoutSubTask(t.subTasks, subTaskId)))
  }

  function WithSubTasksCleared(ts: seq<Task>, taskId: Id): seq<Task>
  {
    MapMatching(ts, taskId, (t: Task) => t.(subTasks := []))
  }

  /** The subtasks `addAIGeneratedSubTasks` builds, numbered from `firstId`. */
  function GeneratedSubTasks(specs: seq<SubTaskSpec>, firstId: Id): (r: seq<SubTask>)
    ensures |r| == |specs|
    ensures forall i :: 0 <= i < |r| ==>
      r[i].title == specs[i].title && r[i].estimatedMinutes == specs[i].estimatedMinutes &&
      !r[i].completed && r[i].id == firstId + i
  {
    if specs == [] then []
    else [SubTask(firstId, specs[0].title, false, specs[0].estimatedMinutes, None)]
         + GeneratedSubTasks(specs[1..], firstId + 1)
  }

  function WithSubTasksAppended(ts: seq<Task>, taskId: Id, specs: seq<SubTaskSpec>, firstId: Id): seq<Task>
  {
    MapMatching(ts, taskId, (t: Task) => t.(subTasks := t.subTasks + GeneratedSubTasks(specs, firstId)))
  }

  /** `tasks.find((t: Task) => t.id === id)`: the first task with that id. */
  function FindTask(ts: seq<Task>, id: Id): (r: Option<Task>)
    ensures r.Some? ==> r.value in ts && r.value.id == id
    ensures r.None? <==> forall t :: t in ts ==> t.id != id
  {
    if ts == [] then None
    else if ts[0].id == id then Some(ts[0])
    else FindTask(ts[1..], id)
  }

  // ----- the store's invariant -----

  ghost predicate IdsBelow(ts: seq<Task>, n: nat)
  {
    forall t :: t in ts ==> t.id < n && SubIdsBelow(t.subTasks, n)
  }

  ghost predicate SubIdsBelow(sts: seq<SubTask>, n: nat)
  {
    forall s :: s in sts ==> s.id < n
  }

  ghost predicate UniqueTaskIds(ts: seq<Task>)
  {
    forall i, j :: 0 <= i < j < |ts| ==> ts[i].id != ts[j].id
  }

  ghost predicate UniqueSubTaskIds(sts: seq<SubTask>)
  {
    forall i, j :: 0 <= i < j < |sts| ==> sts[i].id != sts[j].id
  }

  lemma UniqueTaskIdsTail(ts: seq<Task>)
    requires ts != [] && UniqueTaskIds(ts)
    ensures UniqueTaskIds(ts[1..])
  {
    forall i, j | 0 <= i < j < |ts[1..]| ensures ts[1..][i].id != ts[1..][j].id {
      assert ts[1..][i] == ts[i + 1] && ts[1..][j] == ts[j + 1];
    }
  }

  lemma UniqueSubTaskIdsTail(sts: seq<SubTask>)
    requires sts != [] && UniqueSubTaskIds(sts)
    ensures UniqueSubTaskIds(sts[1..])
  {
    forall i, j | 0 <= i < j < |sts[1..]| ensures sts[1..][i].id != sts[1..][j].id {
      assert sts[1..][i] == sts[i + 1] && sts[1..][j] == sts[j + 1];
    }
  }

  /** In a list with unique ids, no later task carries the first task's id. */
  lemma HeadIdNotInTail(ts: seq<Task>)
    requires ts != [] && UniqueTaskIds(ts)
    ensures forall t :: t in ts[1..] ==> t.id != ts[0].id
  {
    forall t | t in ts[1..] ensures t.id != ts[0].id {
      var m :| 0 <= m < |ts[1..]| && ts[1..][m] == t;
      assert ts[m + 1] == t;
    }
  }

  lemma HeadSubIdNotInTail(sts: seq<SubTask>)
    requires sts != [] && UniqueSubTaskIds(sts)
    ensures forall s :: s in sts[1..] ==> s.id != sts[0].id
  {
    forall s | s in sts[1..] ensures s.id != sts[0].id {
      var m :| 0 <= m < |sts[1..]| && sts[1..][m] == s;
      assert sts[m + 1] == s;
    }
  }

  /** Putting a task with an id nobody else has in front keeps ids unique. */
  lemma UniqueTaskIdsCons(x: Task, s: seq<Task>)
    requires UniqueTaskIds(s) && forall t :: t in s ==> t.id != x.id
    ensures UniqueTaskIds([x] + s)
  {
    var r := [x] + s;
    forall i, j | 0 <= i < j < |r| ensures r[i].id != r[j].id {
      assert r[j] == s[j - 1];
      if i == 0 {
        assert s[j - 1] in s;
      } else {
        assert r[i] == s[i - 1];
      }
    }
  }

  lemma UniqueSubTaskIdsCons(x: SubTask, s: seq<SubTask>)
    requires UniqueSubTaskIds(s) && forall u :: u in s ==> u.id != x.id
    ensures UniqueSubTaskIds([x] + s)
  {
    var r := [x] + s;
    forall i, j | 0 <= i < j < |r| ensures r[i].id != r[j].id {
      assert r[j] == s[j - 1];
      if i == 0 {
        assert s[j - 1] in s;
      } else {
        assert r[i] == s[i - 1];
      }
    }
  }

  /** Every id in use came from the supply, and ids are unique where they are looked up. */
  ghost predicate WellFormed(ts: seq<Task>, n: nat)
  {
    && IdsBelow(ts, n)
    && UniqueTaskIds(ts)
    && forall t :: t in ts ==> UniqueSubTaskIds(t.subTasks)
  }

  /** A by-id map keeps the invariant when it keeps the task's id and its subtasks' ids in range and unique. */
  lemma MapMatchingWellFormed(ts: seq<Task>, id: Id, f: Task -> Task, n: nat, n': nat)
    requires WellFormed(ts, n) && n <= n'
    requires forall t :: t in ts && t.id == id ==>
      f(t).id == t.id && SubIdsBelow(f(t).subTasks, n') && UniqueSubTaskIds(f(t).subTasks)
    ensures WellFormed(MapMatching(ts, id, f), n')
  {
    var r := MapMatching(ts, id, f);
    forall t | t in r ensures t.id < n' && SubIdsBelow(t.subTasks, n') && UniqueSubTaskIds(t.subTasks) {
      var k :| 0 <= k < |r| && r[k] == t;
      assert ts[k] in ts;
    }
    forall i, j | 0 <= i < j < |r| ensures r[i].id != r[j].id {
      assert ts[i] in ts && ts[j] in ts;
    }
  }

  lemma {:induction false} MapSubMatchingKeepsIds(sts: seq<SubTask>, id: Id, g: SubTask -> SubTask, n: nat)
    requires SubIdsBelow(sts, n) && UniqueSubTaskIds(sts)
    requires forall s :: s in sts ==> g(s).id == s.id
    ensures SubIdsBelow(MapSubMatching(sts, id, g), n) && UniqueSubTaskIds(MapSubMatching(sts, id, g))
  {
    var r := MapSubMatching(sts, id, g);
    forall i | 0 <= i < |r| ensures r[i].id == sts[i].id {
      assert sts[i] in sts;
    }
  }

  lemma {:induction false} WithoutSubTaskKeepsIds(sts: seq<SubTask>, id: Id, n: nat)
    requires SubIdsBelow(sts, n) && UniqueSubTaskIds(sts)
    ensures SubIdsBelow(WithoutSubTask(sts, id), n) && UniqueSubTaskIds(WithoutSubTask(sts, id))
  {
    if sts != [] {
      UniqueSubTaskIdsTail(sts);
      WithoutSubTaskKeepsIds(sts[1..], id, n);
      if sts[0].id != id {
        HeadSubIdNotInTail(sts);
        UniqueSubTaskIdsCons(sts[0], WithoutSubTask(sts[1..], id));
      }
    }
  }

  /** Appending subtasks with ids at or above every id in use keeps subtask ids unique. */
  lemma AppendFreshSubTasks(sts: seq<SubTask>, extra: seq<SubTask>, n: nat, n': nat)
    requires SubIdsBelow(sts, n) && UniqueSubTaskIds(sts)
    requires forall i :: 0 <= i < |extra| ==> n <= extra[i].id < n'
    requires UniqueSubTaskIds(extra)
    requires n <= n'
    ensures SubIdsBelow(sts + extra, n') && UniqueSubTaskIds(sts + extra)
  {
    var r := sts + extra;
    forall i, j | 0 <= i < j < |r| ensures r[i].id != r[j].id {
      if j < |sts| {
      } else if i < |sts| {
        assert r[i] in sts;
        assert r[j] == extra[j - |sts|];
      } else {
        assert r[i] == extra[i - |sts|] && r[j] == extra[j - |sts|];
      }
    }
    forall s | s in r ensures s.id < n' {
      if s !in sts {
        var k :| 0 <= k < |extra| && extra[k] == s;
      }
    }
  }

  lemma {:induction false} InsertKeepsUniqueIds(x: Task, s: seq<Task>)
    requires UniqueTaskIds(s)
    requires forall t :: t in s ==> t.id != x.id
    ensures UniqueTaskIds(Priorities.Insert(x, s))
    decreases |s|
  {
    if s == [] {
    } else if Priorities.InOrder(x, s[0]) {
      UniqueTaskIdsCons(x, s);
    } else {
      UniqueTaskIdsTail(s);
      InsertKeepsUniqueIds(x, s[1..]);
      HeadIdNotInTail(s);
      var tail := Priorities.Insert(x, s[1..]);
      forall t | t in tail ensures t.id != s[0].id {
        assert t in multiset(tail);
      }
      UniqueTaskIdsCons(s[0], tail);
    }
  }

  lemma {:induction false} SortKeepsUniqueIds(ts: seq<Task>)
    requires UniqueTaskIds(ts)
    ensures UniqueTaskIds(Priorities.SortByPriority(ts))
    decreases |ts|
  {
    if ts != [] {
      UniqueTaskIdsTail(ts);
      SortKeepsUniqueIds(ts[1..]);
      var rest := Priorities.SortByPriority(ts[1..]);
      HeadIdNotInTail(ts);
      forall t | t in rest ensures t.id != ts[0].id {
        assert t in multiset(ts[1..]);
      }
      InsertKeepsUniqueIds(ts[0], rest);
    }
  }

  /** Re-sorting keeps the invariant: it only rearranges the tasks. */
  lemma SortKeepsWellFormed(ts: seq<Task>, n: nat)
    requires WellFormed(ts, n)
    ensures WellFormed(Priorities.SortByPriority(ts), n)
  {
    var r := Priorities.SortByPriority(ts);
    forall t | t in r ensures t in ts {
      assert t in multiset(r);
    }
    SortKeepsUniqueIds(ts);
  }

  // ----- properties of the actions -----

  /** `addTask` fills its defaults; whatever the partial says, the task starts incomplete, manual and empty. */
  lemma NewTaskDefaults(p: TaskPatch, id: Id, now: int, order: int)
    ensures NewTask(p, id, now, order).id == id && NewTask(p, id, now, order).createdAt == now
    ensures !NewTask(p, id, now, order).completed && !NewTask(p, id, now, order).aiGenerated
    ensures NewTask(p, id, now, order).subTasks == [] && NewTask(p, id, now, order).order == Some(order)
    ensures p.title.None? || p.title == Some("") ==> NewTask(p, id, now, order).title == ""
    ensures p.title.Some? && p.title.value != "" ==> NewTask(p, id, now, order).title == p.title.value
    ensures p.estimatedMinutes.None? || p.estimatedMinutes == Some(0) ==> NewTask(p, id, now, order).estimatedMinutes == 30
    ensures p.estimatedMinutes.Some? && p.estimatedMinutes.value != 0 ==>
      NewTask(p, id, now, order).estimatedMinutes == p.estimatedMinutes.value
    ensures p.priority.None? ==> NewTask(p, id, now, order).priority == Some(Medium)
    ensures p.priority.Some? ==> NewTask(p, id, now, order).priority == p.priority
    ensures p.description.Some? && p.description.value != "" ==> NewTask(p, id, now, order).description == p.description.value
    ensures p.description.None? || p.description == Some("") ==> NewTask(p, id, now, order).description == ""
  {
  }

  /** `addSubTask` fills its defaults: an untitled subtask gets an empty title, an unsized one 15 minutes. */
  lemma NewSubTaskDefaults(p: SubTaskPatch, id: Id)
    ensures NewSubTask(p, id).id == id && !NewSubTask(p, id).completed && NewSubTask(p, id).actualMinutes.None?
    ensures p.title.Some? && p.title.value != "" ==> NewSubTask(p, id).title == p.title.value
    ensures p.title.None? || p.title == Some("") ==> NewSubTask(p, id).title == ""
    ensures p.estimatedMinutes.Some? && p.estimatedMinutes.value != 0 ==> NewSubTask(p, id).estimatedMinutes == p.estimatedMinutes.value
    ensures p.estimatedMinutes.None? || p.estimatedMinutes == Some(0) ==> NewSubTask(p, id).estimatedMinutes == 15
  {
  }

  /** Appending a task without subtasks whose id is the next one from the supply keeps the invariant. */
  lemma AppendFreshTask(ts: seq<Task>, t: Task, n: nat)
    requires WellFormed(ts, n) && t.id == n && t.subTasks == []
    ensures WellFormed(ts + [t], n + 1)
    ensures forall u :: u in ts ==> u.id != n && forall s :: s in u.subTasks ==> s.id != n
  {
    var r := ts + [t];
    forall u | u in r ensures u.id < n + 1 && SubIdsBelow(u.subTasks, n + 1) && UniqueSubTaskIds(u.subTasks) {
      if u != t {
        assert u in ts;
      }
    }
    forall i, j | 0 <= i < j < |r| ensures r[i].id != r[j].id {
      assert r[i] == ts[i] && ts[i] in ts;
      if j < |ts| {
        assert r[j] == ts[j];
      }
    }
  }

  /** Reading the new task back by its id yields exactly the task `addTask` built. */
  lemma {:induction false} AppendedTaskFound(ts: seq<Task>, t: Task)
    requires forall u :: u in ts ==> u.id != t.id
    ensures FindTask(ts + [t], t.id) == Some(t)
  {
    if ts != [] {
      assert (ts + [t])[1..] == ts[1..] + [t];
      AppendedTaskFound(ts[1..], t);
    } else {
      assert ts + [t] == [t];
    }
  }

  /** `deleteAllSubTasks` then `addSubTask` leaves the task with exactly the one new subtask. */
  lemma ClearThenAdd(ts: seq<Task>, taskId: Id, p: SubTaskPatch, freshId: Id)
    requires FindTask(ts, taskId).Some?
    ensures FindTask(WithSubTaskAdded(WithSubTasksCleared(ts, taskId), taskId, p, freshId), taskId)
         == Some(FindTask(ts, taskId).value.(subTasks := [NewSubTask(p, freshId)]))
  {
    FindMapped(ts, taskId, (t: Task) => t.(subTasks := []));
    var cleared := WithSubTasksCleared(ts, taskId);
    FindMapped(cleared, taskId, (t: Task) => t.(subTasks := t.subTasks + [NewSubTask(p, freshId)]));
    assert [] + [NewSubTask(p, freshId)] == [NewSubTask(p, freshId)];
  }

  /** Looking a task up after a by-id map finds the mapped first match. */
  lemma {:induction false} FindMapped(ts: seq<Task>, id: Id, f: Task -> Task)
    requires FindTask(ts, id).Some?
    requires f(FindTask(ts, id).value).id == id
    ensures FindTask(MapMatching(ts, id, f), id) == Some(f(FindTask(ts, id).value))
  {
    if ts[0].id != id {
      assert MapMatching(ts, id, f)[1..] == MapMatching(ts[1..], id, f);
      FindMapped(ts[1..], id, f);
    }
  }

  /** Writing the same subtask update twice is the same as writing it once. */
  lemma SubTaskUpdateIdempotent(ts: seq<Task>, taskId: Id, subTaskId: Id, p: SubTaskPatch)
    ensures WithSubTaskUpdate(WithSubTaskUpdate(ts, taskId, subTaskId, p), taskId, subTaskId, p)
         == WithSubTaskUpdate(ts, taskId, subTaskId, p)
  {
    var once := WithSubTaskUpdate(ts, taskId, subTaskId, p);
    var twice := WithSubTaskUpdate(once, taskId, subTaskId, p);
    var g := (s: SubTask) => MergeSub(s, p);
    forall i | 0 <= i < |ts| ensures twice[i] == once[i] {
      if ts[i].id == taskId {
        MapSubMatchingIdempotent(ts[i].subTasks, subTaskId, p, g);
      }
    }
  }

  lemma MapSubMatchingIdempotent(sts: seq<SubTask>, id: Id, p: SubTaskPatch, g: SubTask -> SubTask)
    requires forall s :: g(s) == MergeSub(s, p)
    ensures MapSubMatching(MapSubMatching(sts, id, g), id, g) == MapSubMatching(sts, id, g)
  {
    var a := MapSubMatching(sts, id, g);
    forall k | 0 <= k < |sts| ensures MapSubMatching(a, id, g)[k] == a[k] {
      MergeSubIdempotent(sts[k], p);
    }
  }

  /** The batch is appended after the existing subtasks, in its own order, and fields are copied verbatim. */
  lemma AppendedSubTasksInOrder(ts: seq<Task>, taskId: Id, specs: seq<SubTaskSpec>, firstId: Id, i: nat)
    requires i < |ts| && ts[i].id == taskId
    ensures var sts := WithSubTasksAppended(ts, taskId, specs, firstId)[i].subTasks;
      && |sts| == |ts[i].subTasks| + |specs|
      && sts[..|ts[i].subTasks|] == ts[i].subTasks
      && forall k :: 0 <= k < |specs| ==>
           sts[|ts[i].subTasks| + k].title == specs[k].title &&
           sts[|ts[i].subTasks| + k].estimatedMinutes == specs[k].estimatedMinutes &&
           !sts[|ts[i].subTasks| + k].completed
  {
    var sts := WithSubTasksAppended(ts, taskId, specs, firstId)[i].subTasks;
    assert sts == ts[i].subTasks + GeneratedSubTasks(specs, firstId);
  }

  /** Completing or updating a subtask keeps the number of subtasks of every task. */
  lemma SubTaskMapsKeepCounts(ts: seq<Task>, taskId: Id, subTaskId: Id, p: SubTaskPatch, c: bool, i: nat)
    requires i < |ts|
    ensures |WithSubTaskUpdate(ts, taskId, subTaskId, p)[i].subTasks| == |ts[i].subTasks|
    ensures |WithSubTaskCompleted(ts, taskId, subTaskId, c)[i].subTasks| == |ts[i].subTasks|
  {
  }

  // ----- the store -----

  class Store {
    var tasks: seq<Task>
    var dailyStats: seq<DailyStats>
    var pomodoroSettings: PomodoroSettings
    /** The fresh-id supply standing for `generateUniqueId`. */
    var nextId: nat

    ghost predicate Valid()
      reads this
    {
      WellFormed(tasks, nextId)
    }

    constructor ()
      ensures Valid()
      ensures tasks == [] && dailyStats == [] && pomodoroSettings == DefaultSettings
    {
      tasks := [];
      dailyStats := [];
      pomodoroSettings := DefaultSettings;
      nextId := 0;
    }

    /** `addTask`, with `now` the creation time; returns the new task's id. */
    method AddTask(p: TaskPatch, now: int) returns (id: Id)
      requires Valid()
      modifies this
      ensures Valid()
      ensures tasks == old(tasks) + [NewTask(p, id, now, |old(tasks)| + 1)]
      ensures forall t :: t in old(tasks) ==> t.id != id && forall s :: s in t.subTasks ==> s.id != id
      ensures FindTask(tasks, id) == Some(NewTask(p, id, now, |old(tasks)| + 1))
      ensures dailyStats == old(dailyStats) && pomodoroSettings == old(pomodoroSettings)
    {
      id := nextId;
      var t := NewTask(p, id, now, |tasks| + 1);
      AppendFreshTask(tasks, t, nextId);
      AppendedTaskFound(tasks, t);
      tasks := tasks + [t];
      nextId := nextId + 1;
    }

    /** `completeTask`. */
    method CompleteTask(id: Id, completed: bool)
      requires Valid()
      modifies this
      ensures Valid()
      ensures tasks == WithCompleted(old(tasks), id, completed)
      ensures nextId == old(nextId) && dailyStats == old(dailyStats) && pomodoroSettings == old(pomodoroSettings)
    {
      MapMatchingWellFormed(tasks, id, (t: Task) => t.(completed := completed), nextId, nextId);
      tasks := WithCompleted(tasks, id, completed);
    }

    /** `deleteTask`. */
    method DeleteTask(id: Id)
      requires Valid()
      modifies this
      ensures Valid()
      ensures tasks == WithoutTask(old(tasks), id)
      ensures nextId == old(nextId) && dailyStats == old(dailyStats) && pomodoroSettings == old(pomodoroSettings)
    {
      var r := WithoutTask(tasks, id);
      WithoutTaskKeepsUnique(tasks, id);
      tasks := r;
    }

    /** `updateTask`. */
    method UpdateTask(id: Id, p: TaskPatch)
      requires Valid()
      modifies this
      ensures Valid()
      ensures tasks == WithUpdate(old(tasks), id, p)
      ensures nextId == old(nextId) && dailyStats == old(dailyStats) && pomodoroSettings == old(pomodoroSettings)
    {
      MapMatchingWellFormed(tasks, id, (t: Task) => Merge(t, p), nextId, nextId);
      tasks := WithUpdate(tasks, id, p);
    }

    /** `addSubTask`. */
    method AddSubTask(taskId: Id, p: SubTaskPatch)
      requires Valid()
      modifies this
      ensures Valid()
      ensures tasks == WithSubTaskAdded(old(tasks), taskId, p, old(nextId))
      ensures forall t :: t in old(tasks) ==> t.id != old(nextId) && forall s :: s in t.subTasks ==> s.id != old(nextId)
      ensures dailyStats == old(dailyStats) && pomodoroSettings == old(pomodoroSettings)
    {
      var added := NewSubTask(p, nextId);
      var f := (t: Task) => t.(subTasks := t.subTasks + [added]);
      forall t | t in tasks && t.id == taskId
        ensures f(t).id == t.id && SubIdsBelow(f(t).subTasks, nextId + 1) && UniqueSubTaskIds(f(t).subTasks)
      {
        assert t.subTasks + [added] == f(t).subTasks;
        AppendFreshSubTasks(t.subTasks, [added], nextId, nextId + 1);
      }
      MapMatchingWellFormed(tasks, taskId, f, nextId, nextId + 1);
      tasks := WithSubTaskAdded(tasks, taskId, p, nextId);
      nextId := nextId + 1;
    }

    /** `completeSubTask`. */
    method CompleteSubTask(taskId: Id, subTaskId: Id, completed: bool)
      requires Valid()
      modifies this
      ensures Valid()
      ensures tasks == WithSubTaskCompleted(old(tasks), taskId, subTaskId, completed)
      ensures nextId == old(nextId) && dailyStats == old(dailyStats) && pomodoroSettings == old(pomodoroSettings)
    {
      var g := (s: SubTask) => s.(completed := completed);
      var f := (t: Task) => t.(subTasks := MapSubMatching(t.subTasks, subTaskId, g));
      forall t | t in tasks && t.id == taskId
        ensures f(t).id == t.id && SubIdsBelow(f(t).subTasks, nextId) && UniqueSubTaskIds(f(t).subTasks)
      {
        MapSubMatchingKeepsIds(t.subTasks, subTaskId, g, nextId);
      }
      MapMatchingWellFormed(tasks, taskId, f, nextId, nextId);
      tasks := WithSubTaskCompleted(tasks, taskId, subTaskId, completed);
    }

    /** `deleteSubTask`. */
    method DeleteSubTask(taskId: Id, subTaskId: Id)
      requires Valid()
      modifies this
      ensures Valid()
      ensures tasks == WithoutSubTaskIn(old(tasks), taskId, subTaskId)
      ensures nextId == old(nextId) && dailyStats == old(dailyStats) && pomodoroSettings == old(pomodoroSettings)
    {
      var f := (t: Task) => t.(subTasks := WithoutSubTask(t.subTasks, subTaskId));
      forall t | t in tasks && t.id == taskId
        ensures f(t).id == t.id && SubIdsBelow(f(t).subTasks, nextId) && UniqueSubTaskIds(f(t).subTasks)
      {
        WithoutSubTaskKeepsIds(t.subTasks, subTaskId, nextId);
      }
      MapMatchingWellFormed(tasks, taskId, f, nextId, nextId);
      tasks := WithoutSubTaskIn(tasks, taskId, subTaskId);
    }

    /** `updateSubTask`. */
    method UpdateSubTask(taskId: Id, subTaskId: Id, p: SubTaskPatch)
      requires Valid()
      modifies this
      ensures Valid()
      ensures tasks == WithSubTaskUpdate(old(tasks), taskId, subTaskId, p)
      ensures nextId == old(nextId) && dailyStats == old(dailyStats) && pomodoroSettings == old(pomodoroSettings)
    {
      var g := (s: SubTask) => MergeSub(s, p);
      var f := (t: Task) => t.(subTasks := MapSubMatching(t.subTasks, subTaskId, g));
      forall t | t in tasks && t.id == taskId
        ensures f(t).id == t.id && SubIdsBelow(f(t).subTasks, nextId) && UniqueSubTaskIds(f(t).subTasks)
      {
        MapSubMatchingKeepsIds(t.subTasks, subTaskId, g, nextId);
      }
      MapMatchingWellFormed(tasks, taskId, f, nextId, nextId);
      tasks := WithSubTaskUpdate(tasks, taskId, subTaskId, p);
    }

    /** `deleteAllSubTasks`. */
    method DeleteAllSubTasks(taskId: Id)
      requires Valid()
      modifies this
      ensures Valid()
      ensures tasks == WithSubTasksCleared(old(tasks), taskId)
      ensures nextId == old(nextId) && dailyStats == old(dailyStats) && pomodoroSettings == old(pomodoroSettings)
    {
      MapMatchingWellFormed(tasks, taskId, (t: Task) => t.(subTasks := []), nextId, nextId);
      tasks := WithSubTasksCleared(tasks, taskId);
    }

    /** `addAIGeneratedSubTasks`. */
    method AddAIGeneratedSubTasks(taskId: Id, specs: seq<SubTaskSpec>)
      requires Valid()
      modifies this
      ensures Valid()
      ensures tasks == WithSubTasksAppended(old(tasks), taskId, specs, old(nextId))
      ensures dailyStats == old(dailyStats) && pomodoroSettings == old(pomodoroSettings)
    {
      var extra := GeneratedSubTasks(specs, nextId);
      var f := (t: Task) => t.(subTasks := t.subTasks + extra);
      forall t | t in tasks && t.id == taskId
        ensures f(t).id == t.id && SubIdsBelow(f(t).subTasks, nextId + |specs|) && UniqueSubTaskIds(f(t).subTasks)
      {
        AppendFreshSubTasks(t.subTasks, extra, nextId, nextId + |specs|);
      }
      MapMatchingWellFormed(tasks, taskId, f, nextId, nextId + |specs|);
      tasks := WithSubTasksAppended(tasks, taskId, specs, nextId);
      nextId := nextId + |specs|;
    }

    /** `addDailyStats`: appends, without looking for an entry of the same date. */
    method AddDailyStats(stats: DailyStats)
      requires Valid()
      modifies this
      ensures Valid()
      ensures dailyStats == old(dailyStats) + [stats]
      ensures tasks == old(tasks) && nextId == old(nextId) && pomodoroSettings == old(pomodoroSettings)
    {
      dailyStats := dailyStats + [stats];
    }

    /** `updatePomodoroSettings`: replaces the settings whole. */
    method UpdatePomodoroSettings(settings: PomodoroSettings)
      requires Valid()
      modifies this
      ensures Valid()
      ensures pomodoroSettings == settings
      ensures tasks == old(tasks) && nextId == old(nextId) && dailyStats == old(dailyStats)
    {
      pomodoroSettings := settings;
    }

    /** `assignPriority`. */
    method AssignPriority(taskId: Id, priority: Priority)
      requires Valid()
      modifies this
      ensures Valid()
      ensures tasks == WithPriority(old(tasks), taskId, priority)
      ensures nextId == old(nextId) && dailyStats == old(dailyStats) && pomodoroSettings == old(pomodoroSettings)
    {
      MapMatchingWellFormed(tasks, taskId, (t: Task) => t.(priority := Some(priority)), nextId, nextId);
      tasks := WithPriority(tasks, taskId, priority);
    }

    /** `autoAssignPriorities`: reorders the whole list. */
    method AutoAssignPriorities()
      requires Valid()
      modifies this
      ensures Valid()
      ensures tasks == Priorities.SortByPriority(old(tasks))
      ensures multiset(tasks) == multiset(old(tasks)) && Priorities.Sorted(tasks)
      ensures nextId == old(nextId) && dailyStats == old(dailyStats) && pomodoroSettings == old(pomodoroSettings)
    {
      SortKeepsWellFormed(tasks, nextId);
      Priorities.SortByPrioritySorted(tasks);
      tasks := Priorities.SortByPriority(tasks);
    }
  }

  lemma {:induction false} WithoutTaskKeepsUnique(ts: seq<Task>, id: Id)
    requires UniqueTaskIds(ts)
    ensures UniqueTaskIds(WithoutTask(ts, id))
  {
    if ts != [] {
      UniqueTaskIdsTail(ts);
      WithoutTaskKeepsUnique(ts[1..], id);
      if ts[0].id != id {
        HeadIdNotInTail(ts);
        UniqueTaskIdsCons(ts[0], WithoutTask(ts[1..], id));
      }
    }
  }
}
