# AI Habit Builder — a verified model of its core

This project is a Dafny model of the core of the AI Habit Builder, a mobile
task and focus app. It has four parts:

- **The task store** (`TaskStore.Store`). It holds the task list, the daily
  statistics and the Pomodoro settings. Every action (add, complete, update and
  delete tasks; add, complete, update and delete subtasks; append an AI
  breakdown; assign a priority; auto-prioritise) replaces the task list with a
  transformed copy, chosen by id.
- **The Pomodoro session engine** (`PomodoroTimer.Timer`). It is a timer bound
  to one task. It works through the task's incomplete subtasks one work session
  at a time, with a short or long break after each. When a session ends, it
  writes the completed subtask back to the store. The queue is recomputed from
  the store after every change.
- **The derived metrics and text helpers** (`Helpers`):
  - duration text;
  - task progress;
  - the productivity score;
  - the rule-of-thumb time estimate;
  - time per category;
  - the weekly score lookup.
- **The AI service's deterministic part** (`AiService`):
  - the keyword priority classifier;
  - the fallback breakdown used when the AI reply is unusable;
  - the decision over the reply;
  - the fallback insight messages.

The JavaScript built-ins these rely on are written out in `JsText`:

- `split(/\s+/)`, which counts a trailing empty field;
- `toLowerCase` and `includes`;
- integer `toString` and `padStart`;
- the truncating `%`;
- `Math.round`.

The entities are in `Model`, and the priority ordering is in `Priorities`.

Each of the following is proved:

- Every store action keeps the store's invariant:
  - every id in use came from the fresh-id supply;
  - task ids are unique;
  - subtask ids are unique within a task.
- Each action changes only what it names.
- Auto-prioritising yields an ordered permutation, and doing it twice equals doing it once.
- After a work session is marked done, the timer's queue is the old queue without that session.
- The clock text and the duration text read back as the numbers they were made from.
- The fallback breakdown has two to four subtasks, in a fixed order, and its shares fit its total.
- Every unusable AI reply yields exactly the fallback.

Where the prose description of the break-end behaviour and the code disagree,
the model follows the code. At the end of a break, the code compares the next
index with the length of the queue *recomputed after the completion*, and that
queue no longer holds the finished subtask:

- With two subtasks, the timer returns to the first position and stops.
- With three or more, it skips the subtask that followed the finished one.

`PomodoroTimer.BreakEndSkipsFollower` states this.

## Model

| member | source | states |
|---|---|---|
| Priorities.Weight | AI-habit-builder-main/store/taskStore.ts:228-229 | every priority weighs between 1 and 4 (high 4 down to optional 1), and an absent priority weighs exactly as medium, 3 |
| Priorities.Compare | AI-habit-builder-main/store/taskStore.ts:226-238 | two tasks tie exactly when they agree in weight, completion and creation time; a task goes first only if it weighs at least as much |
| Priorities.CompareAntisymmetric | AI-habit-builder-main/store/taskStore.ts:226-238 | swapping the two tasks negates the comparator, so any two tasks are ordered one way or the other |
| Priorities.InOrderTransitive | AI-habit-builder-main/store/taskStore.ts:226-238 | the order the comparator defines is transitive |
| Priorities.Insert | AI-habit-builder-main/store/taskStore.ts:226-238 | stable insertion yields the list plus the new task, as a multiset |
| Priorities.SortByPriority | AI-habit-builder-main/store/taskStore.ts:224-242 | the re-sorted list is a permutation of the tasks |
| Priorities.InsertSorted | AI-habit-builder-main/store/taskStore.ts:226-238 | inserting into an ordered list keeps it ordered |
| Priorities.SortByPrioritySorted | AI-habit-builder-main/store/taskStore.ts:224-242 | the result is ordered by weight (descending), then incomplete before completed, then newest first |
| Priorities.SortByPriorityKeepsSorted | AI-habit-builder-main/store/taskStore.ts:224-242 | because the sort is stable, a list already in order is returned unchanged |
| Priorities.SortByPriorityIdempotent | AI-habit-builder-main/store/taskStore.ts:224-242 | auto-prioritising twice equals auto-prioritising once |
| TaskStore.NewTask | AI-habit-builder-main/store/taskStore.ts:61-74 | the task `addTask` builds; its defaults are stated by `NewTaskDefaults` |
| TaskStore.NewSubTask | AI-habit-builder-main/store/taskStore.ts:113-118 | the subtask `addSubTask` builds; its defaults are stated by `NewSubTaskDefaults` |
| TaskStore.Merge | AI-habit-builder-main/store/taskStore.ts:100 | the fields of the patch that are present replace those of the task; stated by `MergeThenMerge` and `MergeProperties` |
| TaskStore.MergeSub | AI-habit-builder-main/store/taskStore.ts:166 | the same for a subtask; stated by `MergeSubIdempotent` |
| TaskStore.MergeThenMerge | AI-habit-builder-main/store/taskStore.ts:97-103 | two successive updates equal one update by the combined patch, with the later fields winning |
| TaskStore.MergeProperties | AI-habit-builder-main/store/taskStore.ts:97-103 | an update keeps the task's id and subtasks, and repeating it changes nothing |
| TaskStore.MergeSubIdempotent | AI-habit-builder-main/store/taskStore.ts:158-173 | a subtask update keeps the id and is idempotent |
| TaskStore.MapMatching | AI-habit-builder-main/store/taskStore.ts:83-89 | a by-id map keeps the length and the order, and changes exactly the tasks carrying the id |
| TaskStore.MapSubMatching | AI-habit-builder-main/store/taskStore.ts:126-141 | the same for subtasks within one task |
| TaskStore.MapMatchingAbsent | AI-habit-builder-main/store/taskStore.ts:83-103 | an action keyed by an id no task carries leaves the list equal |
| TaskStore.WithoutTask | AI-habit-builder-main/store/taskStore.ts:91-95 | deleting keeps exactly the tasks with another id |
| TaskStore.WithoutSubTask | AI-habit-builder-main/store/taskStore.ts:143-156 | deleting a subtask keeps exactly the subtasks with another id; `WithoutSubTaskKeepsOrder` gives their order |
| TaskStore.WithoutTaskKeepsOrder | AI-habit-builder-main/store/taskStore.ts:91-95 | the remaining tasks keep their relative order |
| TaskStore.WithoutSubTaskKeepsOrder | AI-habit-builder-main/store/taskStore.ts:143-156 | deleting a subtask keeps the remaining subtasks in their order and number, a subsequence of the old list, so the work queue is not reordered |
| TaskStore.WithoutTaskLength | AI-habit-builder-main/store/taskStore.ts:91-95 | deleting an absent id is a no-op; deleting a present id removes exactly one task |
| TaskStore.WithoutTaskKeepsUnique | AI-habit-builder-main/store/taskStore.ts:91-95 | deleting keeps task ids unique |
| TaskStore.GeneratedSubTasks | AI-habit-builder-main/store/taskStore.ts:191-196 | one new subtask per entry, with title and minutes copied verbatim, not completed, and a fresh id each |
| TaskStore.FindTask | AI-habit-builder-main/components/PomodoroTimer.tsx:23 | the lookup yields a task with that id, and nothing exactly when no task has it |
| TaskStore.MapMatchingWellFormed | AI-habit-builder-main/store/taskStore.ts:83-89 | a by-id map that keeps ids keeps the store invariant |
| TaskStore.MapSubMatchingKeepsIds | AI-habit-builder-main/store/taskStore.ts:126-173 | a subtask map that keeps ids keeps subtask ids in range and unique |
| TaskStore.WithoutSubTaskKeepsIds | AI-habit-builder-main/store/taskStore.ts:143-156 | deleting a subtask keeps subtask ids in range and unique |
| TaskStore.AppendFreshSubTasks | AI-habit-builder-main/store/taskStore.ts:105-124 | appending subtasks with fresh ids keeps subtask ids unique |
| TaskStore.InsertKeepsUniqueIds | AI-habit-builder-main/store/taskStore.ts:224-242 | stable insertion keeps task ids unique |
| TaskStore.SortKeepsUniqueIds | AI-habit-builder-main/store/taskStore.ts:224-242 | re-sorting keeps task ids unique |
| TaskStore.SortKeepsWellFormed | AI-habit-builder-main/store/taskStore.ts:224-242 | re-sorting keeps the store invariant |
| TaskStore.NewTaskDefaults | AI-habit-builder-main/store/taskStore.ts:62-74 | a new task gets: title and description `''` when absent or empty; 30 minutes when absent or 0; priority medium when absent; not completed, not AI-generated and no subtasks whatever the partial says; the given order |
| TaskStore.NewSubTaskDefaults | AI-habit-builder-main/store/taskStore.ts:113-118 | a new subtask gets: title `''` when absent or empty; 15 minutes when absent or 0; never completed; a fresh id |
| TaskStore.AppendedTaskFound | AI-habit-builder-main/store/taskStore.ts:59-81 | looking the new id up finds exactly the appended task |
| TaskStore.ClearThenAdd | AI-habit-builder-main/store/taskStore.ts:175-181 | clearing the subtasks and then adding one leaves the task with exactly that subtask |
| TaskStore.FindMapped | AI-habit-builder-main/store/taskStore.ts:83-89 | after a by-id map, the lookup finds the mapped task |
| TaskStore.SubTaskUpdateIdempotent | AI-habit-builder-main/store/taskStore.ts:158-173 | writing the same subtask update twice is the same as writing it once |
| TaskStore.AppendedSubTasksInOrder | AI-habit-builder-main/store/taskStore.ts:183-202 | the AI batch is appended after the existing subtasks, in order, fields copied, none completed |
| TaskStore.SubTaskMapsKeepCounts | AI-habit-builder-main/store/taskStore.ts:126-173 | completing or updating a subtask keeps every task's subtask count |
| TaskStore.Store.constructor | AI-habit-builder-main/store/taskStore.ts:36-57 | the store starts empty, with the default settings (25, 5, 15, 4) |
| TaskStore.Store.AddTask | AI-habit-builder-main/store/taskStore.ts:59-81 | appends exactly the new task, whose id is fresh and which the lookup then finds; nothing else changes |
| TaskStore.Store.CompleteTask | AI-habit-builder-main/store/taskStore.ts:83-89 | sets the flag on the matching task only; keeps the invariant |
| TaskStore.Store.DeleteTask | AI-habit-builder-main/store/taskStore.ts:91-95 | filters out the id; keeps the invariant |
| TaskStore.Store.UpdateTask | AI-habit-builder-main/store/taskStore.ts:97-103 | merges the patch into the matching task only; keeps the invariant |
| TaskStore.Store.AddSubTask | AI-habit-builder-main/store/taskStore.ts:105-124 | appends one subtask with a fresh id to the matching task only |
| TaskStore.Store.CompleteSubTask | AI-habit-builder-main/store/taskStore.ts:126-141 | sets the flag on the matching subtask of the matching task only |
| TaskStore.Store.DeleteSubTask | AI-habit-builder-main/store/taskStore.ts:143-156 | filters the subtask out of the matching task only |
| TaskStore.Store.UpdateSubTask | AI-habit-builder-main/store/taskStore.ts:158-173 | merges the patch into the matching subtask only |
| TaskStore.Store.DeleteAllSubTasks | AI-habit-builder-main/store/taskStore.ts:175-181 | empties the matching task's subtasks only |
| TaskStore.Store.AddAIGeneratedSubTasks | AI-habit-builder-main/store/taskStore.ts:183-202 | appends the whole batch, each with a fresh id, to the matching task only |
| TaskStore.Store.AddDailyStats | AI-habit-builder-main/store/taskStore.ts:204-208 | appends the entry; nothing else changes |
| TaskStore.Store.UpdatePomodoroSettings | AI-habit-builder-main/store/taskStore.ts:210-214 | replaces the settings; nothing else changes |
| TaskStore.Store.AssignPriority | AI-habit-builder-main/store/taskStore.ts:216-222 | sets the priority of the matching task only |
| TaskStore.Store.AutoAssignPriorities | AI-habit-builder-main/store/taskStore.ts:224-242 | the new list is an ordered permutation of the old one; keeps the invariant |
| PomodoroTimer.Incomplete | AI-habit-builder-main/components/PomodoroTimer.tsx:27 | the filter never yields more subtasks than it is given; its membership and order are stated by the two lemmas below |
| PomodoroTimer.IncompleteMembers | AI-habit-builder-main/components/PomodoroTimer.tsx:27 | keeps exactly the subtasks that are not completed |
| PomodoroTimer.IncompleteInOrder | AI-habit-builder-main/components/PomodoroTimer.tsx:27 | the filter keeps the stored order: its result is read from strictly increasing positions of the list, and those positions are exactly the ones holding an incomplete subtask |
| PomodoroTimer.FirstIncomplete | AI-habit-builder-main/components/PomodoroTimer.tsx:27 | the first incomplete subtask of the list heads the filtered list |
| PomodoroTimer.Sessions | AI-habit-builder-main/components/PomodoroTimer.tsx:26-33 | position by position, the queue holds the task's incomplete subtasks in their stored order (the filtered list), each lasting its estimate × 60 seconds; a subtask of the task is queued exactly when it is not completed; the queue is empty when the task is missing |
| PomodoroTimer.CeilMinutes | AI-habit-builder-main/components/PomodoroTimer.tsx:57 | the fewest whole minutes that cover the seconds |
| PomodoroTimer.LongBreakDue | AI-habit-builder-main/components/PomodoroTimer.tsx:64 | with a zero setting, no break is long |
| PomodoroTimer.LongBreakPeriodic | AI-habit-builder-main/components/PomodoroTimer.tsx:63-65 | with a positive setting e, long breaks recur every e sessions, and the first is after the e-th |
| PomodoroTimer.BreakAfter | AI-habit-builder-main/components/PomodoroTimer.tsx:64-65 | a completed work session is always followed by a break |
| PomodoroTimer.StartOnFirstIncomplete | AI-habit-builder-main/components/PomodoroTimer.tsx:37-42 | a timer opened on a task starts at 60 × the estimate of the task's first incomplete subtask in stored order |
| PomodoroTimer.StartWithoutIncomplete | AI-habit-builder-main/components/PomodoroTimer.tsx:37-42 | when the task is missing or all its subtasks are completed, the timer starts at the work duration × 60 |
| PomodoroTimer.IncompleteAfterCompleting | AI-habit-builder-main/components/PomodoroTimer.tsx:50-58 | completing the k-th queued subtask removes exactly it from the incomplete list |
| PomodoroTimer.QueueAfterCompletion | AI-habit-builder-main/components/PomodoroTimer.tsx:26-33 | the queue recomputed after the completion write is the old queue without its k-th session |
| PomodoroTimer.BreakEndSkipsFollower | AI-habit-builder-main/components/PomodoroTimer.tsx:73-80 | after the write, the queue is one shorter and index k holds the session that followed the finished one |
| PomodoroTimer.FormatClock | AI-habit-builder-main/components/PomodoroTimer.tsx:199-203 | the minutes, a colon and the seconds padded to two digits; its shape and its read-back are stated by the two lemmas below |
| PomodoroTimer.ClockShape | AI-habit-builder-main/components/PomodoroTimer.tsx:199-203 | for a non-negative count, the clock is the whole minutes in digits, a colon and exactly two digits of seconds |
| PomodoroTimer.ClockRoundTrip | AI-habit-builder-main/components/PomodoroTimer.tsx:199-203 | a non-negative clock text reads back as the seconds it was made from |
| PomodoroTimer.EditProposalKeepsWholeMinutes | AI-habit-builder-main/components/PomodoroTimer.tsx:155-172 | proposing a whole-minute clock for editing, then saving, leaves it unchanged |
| PomodoroTimer.Timer.constructor | AI-habit-builder-main/components/PomodoroTimer.tsx:35-45 | starts at the first session, in work, stopped, with zero counters |
| PomodoroTimer.Timer.CompleteStage | AI-habit-builder-main/components/PomodoroTimer.tsx:50-91 | ending work: completes the current subtask with the minutes spent, counts the session and starts the right break. Ending a break: moves to the next queued session, or resets and stops. Keeps the store invariant and the index in range |
| PomodoroTimer.Timer.Step | AI-habit-builder-main/components/PomodoroTimer.tsx:93-114 | running with time left: one second passes. Running at zero: the stage completes. Otherwise: nothing changes |
| PomodoroTimer.Timer.Toggle | AI-habit-builder-main/components/PomodoroTimer.tsx:118-120 | flips running and keeps everything else |
| PomodoroTimer.Timer.Reset | AI-habit-builder-main/components/PomodoroTimer.tsx:122-133 | back to the first session, in work, stopped, with zero counters; writes nothing to the store |
| PomodoroTimer.Timer.MarkDone | AI-habit-builder-main/components/PomodoroTimer.tsx:135-153 | in work with a current session, or in a break: completes the stage. In work without a session: nothing changes |
| PomodoroTimer.Timer.SaveTimeEdit | AI-habit-builder-main/components/PomodoroTimer.tsx:161-172 | a positive number of minutes sets the clock to that many minutes; anything else changes nothing |
| PomodoroTimer.Timer.EditProposal | AI-habit-builder-main/components/PomodoroTimer.tsx:155-159 | the positive clock, rounded up to whole minutes |
| PomodoroTimer.Timer.GoToPrevious | AI-habit-builder-main/components/PomodoroTimer.tsx:179-187 | moves back one session, to a stopped full work session, when not at the first; otherwise nothing changes |
| PomodoroTimer.Timer.GoToNext | AI-habit-builder-main/components/PomodoroTimer.tsx:189-197 | moves on one session, to a stopped full work session, when not at the last; otherwise nothing changes |
| Helpers.FormatTime | AI-habit-builder-main/utils/helpers.ts:8-17 | every duration text ends in `m`; its shape and read-back are stated by the two lemmas below |
| Helpers.FormatTimeShape | AI-habit-builder-main/utils/helpers.ts:8-17 | under an hour only the minutes are written; from an hour on, hours and the remaining minutes |
| Helpers.FormatTimeRoundTrip | AI-habit-builder-main/utils/helpers.ts:8-17 | every non-negative duration text reads back as its minutes, so hours × 60 + minutes = the input |
| Helpers.CountCompleted | AI-habit-builder-main/utils/helpers.ts:53 | the number of done subtasks is at most the number of subtasks |
| Helpers.TaskProgress | AI-habit-builder-main/utils/helpers.ts:50-55 | progress lies in 0..100; with no subtasks it is 100 for a completed task and 0 otherwise; with subtasks it is the rounded percentage of those done, so `ProgressExtremes` and `PercentMonotone` apply |
| Helpers.Percent | AI-habit-builder-main/utils/helpers.ts:54 | a rounded share lies in 0..100 |
| Helpers.ProgressExtremes | AI-habit-builder-main/utils/helpers.ts:50-55 | all subtasks done gives 100, none done gives 0 |
| Helpers.PercentMonotone | AI-habit-builder-main/utils/helpers.ts:54 | more subtasks done never means less progress |
| Helpers.Efficiency | AI-habit-builder-main/utils/helpers.ts:41 | the efficiency ratio is capped at 2, and is non-negative for a non-negative estimate |
| Helpers.ProductivityScore | AI-habit-builder-main/utils/helpers.ts:32-48 | the score never exceeds 100, and is 0 when there are no tasks or no estimate |
| Helpers.ScoreNonNegative | AI-habit-builder-main/utils/helpers.ts:38-47 | non-negative inputs give a non-negative score |
| Helpers.ScoreEfficiencyCapped | AI-habit-builder-main/utils/helpers.ts:41 | past twice the time spent, a larger estimate no longer raises the score |
| Helpers.ScoreMonotoneInCompleted | AI-habit-builder-main/utils/helpers.ts:40-47 | more completed tasks out of the same total never lower the score |
| Helpers.EstimateTaskTime | AI-habit-builder-main/utils/helpers.ts:57-77 | 30 minutes, plus 60 for "research", plus 30 for "meeting", plus 5 per ten words. The result is at least 30, a multiple of 5 and at most 120 + words/2 |
| Helpers.MentionsIgnoresCase | AI-habit-builder-main/utils/helpers.ts:65-71 | the keywords are found whatever the case of the text |
| Helpers.CategoryTotalsSums | AI-habit-builder-main/utils/helpers.ts:79-94 | a category has an entry exactly when a counted task has it, and the entry is the sum of those tasks' minutes |
| Helpers.GetTimeSpentByCategory | AI-habit-builder-main/utils/helpers.ts:79-94 | the loop's map holds a key exactly for each category of a counted task, with the summed minutes |
| Helpers.ScoreOn | AI-habit-builder-main/utils/helpers.ts:103-104 | the score of the first entry with the date, or 0 when none has it |
| Helpers.WeeklyData | AI-habit-builder-main/utils/helpers.ts:102-105 | one score per week date, in order |
| Helpers.ScoreOnIgnoresLaterEntries | AI-habit-builder-main/utils/helpers.ts:103 | later entries with the same date never override the first |
| JsText.Fields | AI-habit-builder-main/utils/helpers.ts:59 | splitting on white-space runs yields at least one field, and no field holds white space |
| JsText.WordCount | AI-habit-builder-main/utils/helpers.ts:59 | the word count is the number of fields, so it is at least 1 even for an empty text |
| JsText.FieldsRejoin | AI-habit-builder-main/utils/helpers.ts:59 | the fields, joined, are the text without its white space |
| JsText.WordThenBlank | AI-habit-builder-main/services/aiService.ts:166 | a blank-free word followed by one blank splits into the word and an empty field |
| JsText.TrailingBlankCounts | AI-habit-builder-main/services/aiService.ts:166 | appending one blank to a text adds one field, unless the text already ends in white space, when the count is unchanged |
| JsText.FieldCount | AI-habit-builder-main/utils/helpers.ts:59 | the number of fields is one more than the number of maximal white-space runs in the text |
| JsText.ToLowerAppend | AI-habit-builder-main/services/aiService.ts:117 | lower-casing distributes over concatenation |
| JsText.ToLowerIdempotent | AI-habit-builder-main/utils/helpers.ts:65 | lower-casing twice is lower-casing once |
| JsText.ContainsAt | AI-habit-builder-main/utils/helpers.ts:65 | `includes` holds exactly when the word occurs at some position |
| JsText.NatToStringRoundTrip | AI-habit-builder-main/utils/helpers.ts:13 | decimal digits read back as the number |
| JsText.IntToStringRoundTrip | AI-habit-builder-main/utils/helpers.ts:16 | signed decimal text reads back as the number |
| JsText.JsRem | AI-habit-builder-main/utils/helpers.ts:10 | the remainder takes the dividend's sign and is smaller than the divisor in magnitude |
| JsText.JsRemOdd | AI-habit-builder-main/utils/helpers.ts:10 | negating the dividend negates the remainder |
| JsText.PadStart | AI-habit-builder-main/components/PomodoroTimer.tsx:202 | padding yields at least the width, ends with the text and is filled in front |
| JsText.Round | AI-habit-builder-main/utils/helpers.ts:54 | rounding lands within one half of the value |
| JsText.RoundMonotone | AI-habit-builder-main/utils/helpers.ts:47 | rounding keeps order |
| AiService.DeterminePriority | AI-habit-builder-main/services/aiService.ts:116-162 | the first group with a keyword in the lower-cased "title description", in the order high, medium, low, optional: high exactly on an urgent keyword; medium on a medium keyword without an urgent one, whatever low or optional keywords occur, or when no keyword occurs; low exactly on a low keyword with no high or medium one; optional exactly on an optional keyword with no other |
| AiService.HighKeywordWins | AI-habit-builder-main/services/aiService.ts:116-128 | an urgent word, in any case, in the title or the description makes the task high priority |
| AiService.PriorityIgnoresCase | AI-habit-builder-main/services/aiService.ts:117 | re-casing title and description never changes the priority |
| AiService.Complexity | AI-habit-builder-main/services/aiService.ts:167 | complexity lies between 1 and 5 |
| AiService.ComplexityAsIntegers | AI-habit-builder-main/services/aiService.ts:167-171 | floor(complexity) = clamp(words div 10, 1, 5) and floor(20 × complexity) = clamp(2 × words, 20, 100) |
| AiService.DefaultBreakdown | AI-habit-builder-main/services/aiService.ts:165-194 | the fallback has at least one subtask and every subtask gets the same share, the total divided evenly and rounded down |
| AiService.CreateDefaultBreakdown | AI-habit-builder-main/services/aiService.ts:165-194 | the pushes build exactly the declarative fallback breakdown |
| AiService.DefaultBreakdownShape | AI-habit-builder-main/services/aiService.ts:165-194 | the fallback has 2 to 4 subtasks, in the fixed title order, and a total of at least 30. The shares sum to at most the total and to more than the total minus the count. The priority comes from the classifier |
| AiService.SubtaskCountByWords | AI-habit-builder-main/services/aiService.ts:166-170 | 2 subtasks under 20 words, 3 under 30, 4 from 30 on |
| AiService.FindLast | AI-habit-builder-main/services/aiService.ts:76 | the last position of the character, or none when it is absent |
| AiService.ExtractJson | AI-habit-builder-main/services/aiService.ts:76 | the greedy match: it starts with `{`, ends with `}`, and occurs in the text at a position with no `{` before it and no `}` after it, i.e. from the first `{` to the last `}`. There is no match exactly when no `{` precedes a `}` |
| AiService.GenerateTaskBreakdown | AI-habit-builder-main/services/aiService.ts:62-111 | the breakdown chosen from the reply; what it yields for each kind of reply is stated by the two lemmas below |
| AiService.BreakdownDecision | AI-habit-builder-main/services/aiService.ts:62-111 | every unusable reply yields exactly the fallback. A usable reply passes its subtasks and total through, with a missing priority filled from the classifier |
| AiService.NoObjectFallsBack | AI-habit-builder-main/services/aiService.ts:76-81 | a completion without a `{`…`}` never reaches the parser and yields the fallback |
| AiService.GetDefaultInsights | AI-habit-builder-main/services/aiService.ts:263-277 | the "add tasks" message is given exactly when there are no tasks |
| AiService.InsightThresholds | AI-habit-builder-main/services/aiService.ts:263-277 | with tasks present: the rate is at least 80% exactly when 5·done ≥ 4·total, and at least 50% exactly when 2·done ≥ total; the three messages split along these thresholds |

## Left out

- Network I/O:
  - the HTTP request, its 15-second abort timer and `response.json()`;
  - `getProductivityInsights` as a whole.
  The outcome of the exchange is the `Reply` value, and `JSON.parse` is a function parameter.
- The AI reply's content is not validated:
  - its `subTasks` array is taken to hold `{title, estimatedMinutes}` pairs;
  - `totalEstimatedMinutes` is an integer;
  - its `suggestedPriority` is one of the four priorities.
  The source validates only the array-ness and the number type.
- Zustand persistence to AsyncStorage.
- `generateUniqueId`, which draws on the clock and randomness: the store's counter `nextId` stands for it. `AddSubTask` always draws one id, even when no task matches.
- `new Date().toISOString()`, `createdAt`, `dueDate` and the date range of `getTimeSpentByCategory`: all are integer timestamps, which order like the fixed-width ISO strings the source compares.
- The calendar work of date-fns:
  - `getWeekDates` (the week's dates are an input to `WeeklyData`);
  - `formatDate`;
  - the weekday labels of `generateWeeklyStats`.
- `toLowerCase` lower-cases ASCII letters only; other characters are kept as they are.
- Progress, the productivity score, the complexity and the completion rate use exact arithmetic (`real`) rather than JavaScript floating point. `Math.round(x)` is the floor of `x + 1/2`. The two can differ at an exact half: with 23 of 40 subtasks done, binary64 stores 23/40 just below 0.575, so the source's `(23 / 40) * 100` lies just below 57.5 and rounds to 57, while `Percent(23, 40)` is 58.
- `Partial<Task>` patches carry neither `id` nor `subTasks`, and an explicitly `undefined` field is not distinguished from an absent one.
- `determinePriority` and `createDefaultBreakdown` take the description as a string; an absent description is the empty string, which `description || ''` also yields.
- The React scheduling:
  - the one-second interval and the effect that fires at zero are the explicit `Step`;
  - state updates are applied with their net batched effect.
- The timer's UI state is not modelled: the editing flag, the edit text, fullscreen, the alert on invalid input, and the stage text.
- PomodoroTimer.Timer.GoToPrevious: requires the index to lie within the recomputed queue. The source would throw reading past a queue that shrank under it; `CompleteStage`, `Step`, `MarkDone`, `Reset` and `GoToNext` keep that invariant.
- PomodoroTimer.Timer.MarkDone: the handler writes the completion and then `handleStageComplete` writes the same update again from the same render. Since `TaskStore.SubTaskUpdateIdempotent` shows the second write changes nothing, it is modelled as one write. The handler's `setIsRunning(false)` is overridden by the break's start.
- Helpers.GetTimeSpentByCategory: the model's totals are a plain map from category to minutes. The source's totals object inherits from `Object.prototype`, so a category named like one of its properties breaks the sum. For "constructor" or "toString" the first read yields a function and the entry becomes a string. An assignment to "__proto__" is ignored. The model promises ordinary sums for these names too.
- Priorities.SortByPriority: which of two tasks that agree in weight, completion and creation time comes first is not stated. The insertion keeps them in input order, as the stable `Array.prototype.sort` does, but no lemma says so.
- Screens, gestures, charts, the brain-dump retry loop and the mock data are not part of this model.
