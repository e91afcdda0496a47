/**
 * The ordering behind `autoAssignPriorities` (store/taskStore.ts): tasks of
 * higher priority weight first, then incomplete before completed, then the
 * newest first. `SortByPriority` computes the order by insertion, placing
 * each task before the first one that does not come before it; the lemmas
 * below prove the result ordered, a permutation of the input and unchanged
 * by a second sort. Which of two tasks that tie in every key comes first is
 * not stated (see README, "Left out").
 */
module Priorities {
  import opened Model

  /** `priorityWeights[p || 'medium']`. */
  function Weight(p: Option<Priority>): (w: int)
    ensures 1 <= w <= 4
    ensures p.None? || p == Some(Medium) ==> w == 3
  {
    match p.GetOr(Medium)
    case High => 4
    case Medium => 3
    case Low => 2
    case Optional => 1
  }

  /** The comparator handed to `sort`: negative when `a` goes first. */
  function Compare(a: Task, b: Task): (c: int)
    ensures c == 0 <==> Weight(a.priority) == Weight(b.priority) && a.completed == b.completed && a.createdAt == b.createdAt
    ensures c < 0 ==> Weight(a.priority) >= Weight(b.priority)
  {
    var priorityDiff := Weight(b.priority) - Weight(a.priority);
    if priorityDiff != 0 then priorityDiff
    else if a.completed != b.completed then (if a.completed then 1 else -1)
    else b.createdAt - a.createdAt
  }

  predicate InOrder(a: Task, b: Task)
  {
    Compare(a, b) <= 0
  }

  /** The comparator is antisymmetric, so any two tasks are ordered one way or the other. */
  lemma CompareAntisymmetric(a: Task, b: Task)
    ensures Compare(a, b) == -Compare(b, a)
    ensures InOrder(a, b) || InOrder(b, a)
  {
  }

  lemma InOrderTransitive(a: Task, b: Task, c: Task)
    requires InOrder(a, b) && InOrder(b, c)
    ensures InOrder(a, c)
  {
  }

  ghost predicate Sorted(s: seq<Task>)
  {
    forall i, j :: 0 <= i < j < |s| ==> InOrder(s[i], s[j])
  }

  /**
   * Puts `x`, which came before every element of `s`, in front of the first
   * element it may precede; elements it ties with stay behind it.
   */
  function Insert(x: Task, s: seq<Task>): (r: seq<Task>)
    ensures multiset(r) == multiset(s) + multiset{x}
    ensures |r| == |s| + 1
  {
    if s == [] then [x]
    else if InOrder(x, s[0]) then [x] + s
    else
      assert s == [s[0]] + s[1..];
      [s[0]] + Insert(x, s[1..])
  }

  function SortByPriority(ts: seq<Task>): (r: seq<Task>)
    ensures multiset(r) == multiset(ts)
    ensures |r| == |ts|
  {
    if ts == [] then []
    else
      assert ts == [ts[0]] + ts[1..];
      Insert(ts[0], SortByPriority(ts[1..]))
  }

  lemma {:induction false} InsertSorted(x: Task, s: seq<Task>)
    requires Sorted(s)
    ensures Sorted(Insert(x, s))
    decreases |s|
  {
    if s == [] {
    } else if InOrder(x, s[0]) {
      HeadFirst(s);
      forall t | t in s ensures InOrder(x, t) {
        if t != s[0] {
          InOrderTransitive(x, s[0], t);
        }
      }
      SortedCons(x, s);
    } else {
      SortedTail(s);
      InsertSorted(x, s[1..]);
      HeadFirst(s);
      CompareAntisymmetric(x, s[0]);
      var tail := Insert(x, s[1..]);
      forall t | t in tail ensures InOrder(s[0], t) {
        assert t in multiset(tail);
      }
      SortedCons(s[0], tail);
    }
  }

  /** The first element of a sorted list may precede every other one. */
  lemma HeadFirst(s: seq<Task>)
    requires s != [] && Sorted(s)
    ensures forall t :: t in s[1..] ==> InOrder(s[0], t)
  {
    forall t | t in s[1..] ensures InOrder(s[0], t) {
      var m :| 0 <= m < |s[1..]| && s[1..][m] == t;
      assert s[m + 1] == t;
    }
  }

  lemma SortedTail(s: seq<Task>)
    requires s != [] && Sorted(s)
    ensures Sorted(s[1..])
  {
    forall i, j | 0 <= i < j < |s[1..]| ensures InOrder(s[1..][i], s[1..][j]) {
      assert s[1..][i] == s[i + 1] && s[1..][j] == s[j + 1];
    }
  }

  /** Putting in front an element that may precede all the others keeps a list sorted. */
  lemma SortedCons(x: Task, s: seq<Task>)
    requires Sorted(s) && forall t :: t in s ==> InOrder(x, t)
    ensures Sorted([x] + s)
  {
    var r := [x] + s;
    forall i, j | 0 <= i < j < |r| ensures InOrder(r[i], r[j]) {
      assert r[j] == s[j - 1];
      if i == 0 {
        assert s[j - 1] in s;
      } else {
        assert r[i] == s[i - 1];
      }
    }
  }

  /** The result of `autoAssignPriorities` is ordered by the comparator. */
  lemma {:induction false} SortByPrioritySorted(ts: seq<Task>)
    ensures Sorted(SortByPriority(ts))
    decreases |ts|
  {
    if ts != [] {
      SortByPrioritySorted(ts[1..]);
      InsertSorted(ts[0], SortByPriority(ts[1..]));
    }
  }

  /** A list already in order is left exactly as it is. */
  lemma {:induction false} SortByPriorityKeepsSorted(ts: seq<Task>)
    requires Sorted(ts)
    ensures SortByPriority(ts) == ts
    decreases |ts|
  {
    if ts != [] {
      SortedTail(ts);
      SortByPriorityKeepsSorted(ts[1..]);
      if |ts| > 1 {
        assert InOrder(ts[0], ts[1]);
        assert ts[1..][0] == ts[1];
      }
      assert ts == [ts[0]] + ts[1..];
    }
  }

  /** Re-running the reordering changes nothing. */
  lemma SortByPriorityIdempotent(ts: seq<Task>)
    ensures SortByPriority(SortByPriority(ts)) == SortByPriority(ts)
  {
    SortByPrioritySorted(ts);
    SortByPriorityKeepsSorted(SortByPriority(ts));
  }
}
