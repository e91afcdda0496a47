/**
 * The entities of the habit builder: tasks with their subtasks, the daily
 * statistics and the Pomodoro settings (types/task.ts).
 *
 * Identifiers, which the application draws from a clock-and-random string
 * generator, are natural numbers handed out by the store's fresh-id supply.
 * Timestamps (ISO-8601 strings in the application) are integers: strings of
 * that fixed format order exactly like the instants they denote.
 */
module Model {

  datatype Option<T> = None | Some(value: T)
  {
    function GetOr(default: T): T
    {
      match this
      case Some(v) => v
      case None => default
    }
  }

  type Id = nat

  /** TaskPriority: 'high' | 'medium' | 'low' | 'optional'. */
  datatype Priority = High | Medium | Low | Optional

  datatype SubTask = SubTask(
    id: Id,
    title: string,
    completed: bool,
    estimatedMinutes: int,
    actualMinutes: Option<int>)

  datatype Task = Task(
    id: Id,
    title: string,
    description: string,
    createdAt: int,
    dueDate: Option<int>,
    completed: bool,
    category: Option<string>,
    estimatedMinutes: int,
    actualMinutes: Option<int>,
    subTasks: seq<SubTask>,
    aiGenerated: bool,
    priority: Option<Priority>,
    order: Option<int>)

  datatype DailyStats = DailyStats(
    date: string,
    totalTasksCompleted: int,
    totalTimeSpent: int,
    productivityScore: int,
    timeByCategory: map<string, int>)

  /** All durations in minutes. */
  datatype PomodoroSettings = PomodoroSettings(
    workDuration: int,
    shortBreakDuration: int,
    longBreakDuration: int,
    sessionsBeforeLongBreak: int)

  /** A `{ title, estimatedMinutes }` pair, as produced by the AI breakdown. */
  datatype SubTaskSpec = SubTaskSpec(title: string, estimatedMinutes: int)
}
