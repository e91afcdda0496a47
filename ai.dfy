/**
 * The AI service's deterministic part (services/aiService.ts): the keyword
 * priority classifier, the fallback breakdown used whenever the model's reply
 * cannot be used, the decision over the reply, and the fallback insight text.
 *
 * The HTTP exchange itself is not modelled: its outcome is a `Reply` value,
 * and `JSON.parse` is a parameter that turns the extracted text into either a
 * syntax error or the fields the validation looks at.
 */
module AiService {
  import opened Model
  import opened JsText

  // ----- determinePriority -----

  const HighWords: seq<string> := ["urgent", "asap", "deadline", "important", "critical"]
  const MediumWords: seq<string> := ["soon", "this week", "meeting", "report"]
  const LowWords: seq<string> := ["when possible", "eventually", "routine", "regular"]
  const OptionalWords: seq<string> := ["optional", "if time", "nice to have", "consider"]

  predicate MentionsAny(text: string, words: seq<string>)
  {
    exists i :: 0 <= i < |words| && Contains(text, words[i])
  }

  /**
   * `determinePriority`: the first keyword group, in the order high, medium,
   * low, optional, with a keyword in the lower-cased "title description";
   * medium when none has.
   */
  function DeterminePriority(title: string, description: string): (p: Priority)
    ensures var text := ToLower(title + " " + description);
      p == High <==> MentionsAny(text, HighWords)
    ensures var text := ToLower(title + " " + description);
      p == Medium <==>
        && !MentionsAny(text, HighWords)
        && (MentionsAny(text, MediumWords) || (!MentionsAny(text, LowWords) && !MentionsAny(text, OptionalWords)))
    ensures var text := ToLower(title + " " + description);
      p == Low <==> !MentionsAny(text, HighWords) && !MentionsAny(text, MediumWords) && MentionsAny(text, LowWords)
    ensures var text := ToLower(title + " " + description);
      p == Optional <==>
        && !MentionsAny(text, HighWords) && !MentionsAny(text, MediumWords)
        && !MentionsAny(text, LowWords) && MentionsAny(text, OptionalWords)
  {
    var text := ToLower(title + " " + description);
    if MentionsAny(text, HighWords) then High
    else if MentionsAny(text, MediumWords) then Medium
    else if MentionsAny(text, LowWords) then Low
    else if MentionsAny(text, OptionalWords) then Optional
    else Medium
  }

  /** A word found in a part of a text is found in the whole. */
  lemma ContainsInConcat(a: string, b: string, w: string)
    ensures Contains(a, w) || Contains(b, w) ==> Contains(a + b, w)
  {
    ContainsAt(a, w);
    ContainsAt(b, w);
    ContainsAt(a + b, w);
    if Contains(a, w) {
      var k :| OccursAt(a, w, k);
      assert (a + b)[k..k + |w|] == a[k..k + |w|];
      assert OccursAt(a + b, w, k);
    } else if Contains(b, w) {
      var k :| OccursAt(b, w, k);
      assert (a + b)[|a| + k..|a| + k + |w|] == b[k..k + |w|];
      assert OccursAt(a + b, w, |a| + k);
    }
  }

  /** An urgent-sounding word in either the title or the description, in any case, makes the task high priority. */
  lemma HighKeywordWins(title: string, description: string, i: nat)
    requires i < |HighWords|
    requires Contains(ToLower(title), HighWords[i]) || Contains(ToLower(description), HighWords[i])
    ensures DeterminePriority(title, description) == High
  {
    var w := HighWords[i];
    ToLowerAppend(title, " " + description);
    ToLowerAppend(" ", description);
    assert title + " " + description == title + (" " + description);
    ContainsInConcat(ToLower(" "), ToLower(description), w);
    ContainsInConcat(ToLower(title), ToLower(" " + description), w);
    assert Contains(ToLower(title + " " + description), w);
  }

  /** Only the lower-cased text matters: re-casing title and description gives the same priority. */
  lemma PriorityIgnoresCase(title: string, description: string)
    ensures DeterminePriority(ToLower(title), ToLower(description)) == DeterminePriority(title, description)
  {
    ToLowerAppend(ToLower(title), " " + ToLower(description));
    ToLowerAppend(title, " " + description);
    ToLowerAppend(" ", description);
    ToLowerAppend(" ", ToLower(description));
    ToLowerIdempotent(title);
    ToLowerIdempotent(description);
    assert ToLower(ToLower(title) + " " + ToLower(description)) == ToLower(title + " " + description) by {
      assert ToLower(title) + " " + ToLower(description) == ToLower(title) + (" " + ToLower(description));
      assert title + " " + description == title + (" " + description);
    }
  }

  // ----- createDefaultBreakdown -----

  /** The reply shape `generateTaskBreakdown` resolves to. */
  datatype Breakdown = Breakdown(subTasks: seq<SubTaskSpec>, totalEstimatedMinutes: int, suggestedPriority: Priority)

  const PlanTitle := "Plan and organize"
  const ResearchTitle := "Research and gather information"
  const ExecuteTitle := "Execute main task"
  const ReviewTitle := "Review and finalize"

  function MinReal(a: real, b: real): real { if a <= b then a else b }
  function MaxReal(a: real, b: real): real { if a >= b then a else b }
  function MinInt(a: int, b: int): int { if a <= b then a else b }
  function MaxInt(a: int, b: int): int { if a >= b then a else b }

  /** `min(max(words / 10, 1), 5)`. */
  function Complexity(words: nat): (c: real)
    ensures 1.0 <= c <= 5.0
  {
    MinReal(MaxReal(words as real / 10.0, 1.0), 5.0)
  }

  function SubtaskCount(words: nat): int
  {
    MaxInt(2, MinInt(Complexity(words).Floor + 1, 4))
  }

  function TotalTime(words: nat): int
  {
    MaxInt(30, (Complexity(words) * 20.0).Floor)
  }

  function Clamp(x: int, lo: int, hi: int): int
  {
    if x < lo then lo else if x > hi then hi else x
  }

  /** For a whole number of words the real-valued complexity reduces to integer clamps. */
  lemma ComplexityAsIntegers(words: nat)
    ensures Complexity(words).Floor == Clamp(words / 10, 1, 5)
    ensures (Complexity(words) * 20.0).Floor == Clamp(2 * words, 20, 100)
  {
    var q := words / 10;
    var r := words % 10;
    assert words as real / 10.0 == q as real + r as real / 10.0;
    assert 0.0 <= r as real / 10.0 < 1.0;
    assert (words as real / 10.0) * 20.0 == (2 * words) as real;
  }

  /** The fallback's titles for a given number of subtasks, in order. */
  function FallbackTitles(count: int): seq<string>
  {
    [PlanTitle] + (if count >= 3 then [ResearchTitle] else []) + [ExecuteTitle] + (if count >= 4 then [ReviewTitle] else [])
  }

  /** `createDefaultBreakdown`, stated as a value: every title shares the total evenly, rounded down. */
  function DefaultBreakdown(title: string, description: string): (b: Breakdown)
    ensures |b.subTasks| > 0
    ensures forall i :: 0 <= i < |b.subTasks| ==> b.subTasks[i].estimatedMinutes == b.totalEstimatedMinutes / |b.subTasks|
  {
    var words := WordCount(title + " " + description);
    var count := SubtaskCount(words);
    var total := TotalTime(words);
    var titles := FallbackTitles(count);
    Breakdown(seq(|titles|, i requires 0 <= i < |titles| => SubTaskSpec(titles[i], total / count)),
              total, DeterminePriority(title, description))
  }

  /** `createDefaultBreakdown`, pushing the subtasks one by one. */
  method CreateDefaultBreakdown(title: string, description: string) returns (b: Breakdown)
    ensures b == DefaultBreakdown(title, description)
  {
    var words := WordCount(title + " " + description);
    var complexity := MinReal(MaxReal(words as real / 10.0, 1.0), 5.0);
    var subtaskCount := MaxInt(2, MinInt(complexity.Floor + 1, 4));
    var totalTime := MaxInt(30, (complexity * 20.0).Floor);
    var timePerTask := totalTime / subtaskCount;
    var subtasks: seq<SubTaskSpec> := [];
    subtasks := subtasks + [SubTaskSpec(PlanTitle, timePerTask)];
    if subtaskCount >= 3 {
      subtasks := subtasks + [SubTaskSpec(ResearchTitle, timePerTask)];
    }
    subtasks := subtasks + [SubTaskSpec(ExecuteTitle, timePerTask)];
    if subtaskCount >= 4 {
      subtasks := subtasks + [SubTaskSpec(ReviewTitle, timePerTask)];
    }
    b := Breakdown(subtasks, totalTime, DeterminePriority(title, description));
  }

  function SumMinutes(specs: seq<SubTaskSpec>): int
  {
    if specs == [] then 0 else specs[0].estimatedMinutes + SumMinutes(specs[1..])
  }

  lemma {:induction false} SumOfEqualShares(specs: seq<SubTaskSpec>, share: int)
    requires forall i :: 0 <= i < |specs| ==> specs[i].estimatedMinutes == share
    ensures SumMinutes(specs) == |specs| * share
  {
    if specs != [] {
      SumOfEqualShares(specs[1..], share);
    }
  }

  /**
   * The fallback has two to four subtasks, in the fixed order, each with the
   * same share; the total is at least 30 minutes, and the shares add up to at
   * most the total and to more than the total less one minute per subtask.
   */
  lemma DefaultBreakdownShape(title: string, description: string)
    ensures var b := DefaultBreakdown(title, description);
      && 2 <= |b.subTasks| <= 4
      && |b.subTasks| == SubtaskCount(WordCount(title + " " + description))
      && b.subTasks[0].title == PlanTitle
      && b.subTasks[|b.subTasks| - 1].title == (if |b.subTasks| == 4 then ReviewTitle else ExecuteTitle)
      && (|b.subTasks| >= 3 ==> b.subTasks[1].title == ResearchTitle && b.subTasks[2].title == ExecuteTitle)
      && (|b.subTasks| == 2 ==> b.subTasks[1].title == ExecuteTitle)
      && b.totalEstimatedMinutes >= 30
      && SumMinutes(b.subTasks) <= b.totalEstimatedMinutes
      && SumMinutes(b.subTasks) > b.totalEstimatedMinutes - |b.subTasks|
      && b.suggestedPriority == DeterminePriority(title, description)
  {
    var words := WordCount(title + " " + description);
    var count := SubtaskCount(words);
    var total := TotalTime(words);
    ComplexityAsIntegers(words);
    assert 2 <= count <= 4;
    var b := DefaultBreakdown(title, description);
    assert |FallbackTitles(count)| == count;
    SumOfEqualShares(b.subTasks, total / count);
    assert SumMinutes(b.subTasks) == count * (total / count);
    if count == 2 {
      assert 2 * (total / 2) <= total < 2 * (total / 2) + 2;
    } else if count == 3 {
      assert 3 * (total / 3) <= total < 3 * (total / 3) + 3;
    } else {
      assert 4 * (total / 4) <= total < 4 * (total / 4) + 4;
    }
  }

  /** The number of fallback subtasks follows the word count: 2 under 20 words, 3 under 30, 4 from 30 on. */
  lemma SubtaskCountByWords(words: nat)
    ensures words < 20 ==> SubtaskCount(words) == 2
    ensures 20 <= words < 30 ==> SubtaskCount(words) == 3
    ensures words >= 30 ==> SubtaskCount(words) == 4
  {
    ComplexityAsIntegers(words);
  }

  // ----- generateTaskBreakdown: the decision over the reply -----

  /** What the HTTP exchange produced. */
  datatype Reply =
    | NetworkFailure                        // fetch threw or was aborted by the timeout
    | HttpError(status: int)                // `!response.ok`
    | Completion(completion: Option<string>) // the body's `completion` field, `None` when absent

  /**
   * What `JSON.parse` made of the extracted text: a syntax error, or an object
   * seen through the validation: `subTasks` is `None` unless it is an array,
   * `total` is `None` unless `totalEstimatedMinutes` is a number.
   */
  datatype Parsed =
    | SyntaxError
    | Object(subTasks: Option<seq<SubTaskSpec>>, total: Option<int>, suggestedPriority: Option<Priority>)

  /** The last position of `c` in `s`. */
  function FindLast(s: string, c: char): (r: Option<nat>)
    ensures r.Some? ==> r.value < |s| && s[r.value] == c && forall i :: r.value < i < |s| ==> s[i] != c
    ensures r.None? ==> forall i :: 0 <= i < |s| ==> s[i] != c
  {
    if s == [] then None
    else if s[|s| - 1] == c then Some(|s| - 1)
    else FindLast(s[..|s| - 1], c)
  }

  /** `text.match(/\{[\s\S]*\}/)`: from the first `{` to the last `}` after it. */
  function ExtractJson(text: string): (r: Option<string>)
    ensures r.Some? ==> |r.value| >= 2 && r.value[0] == '{' && r.value[|r.value| - 1] == '}'
    ensures r.Some? ==> exists k :: && OccursAt(text, r.value, k)
                                   && (forall i :: 0 <= i < k ==> text[i] != '{')
                                   && (forall j :: k + |r.value| <= j < |text| ==> text[j] != '}')
    ensures r.None? <==> forall i, j :: 0 <= i < j < |text| ==> !(text[i] == '{' && text[j] == '}')
  {
    match Find(text, '{')
    case None => None
    case Some(i) =>
      match FindLast(text, '}')
      case None => None
      case Some(j) =>
        if i < j then
          assert OccursAt(text, text[i..j + 1], i) && i + |text[i..j + 1]| == j + 1;
          Some(text[i..j + 1])
        else None
  }

  /** The reply is usable: a completion with a JSON object holding an array of subtasks and a numeric total. */
  predicate Usable(reply: Reply, parse: string -> Parsed)
  {
    && reply.Completion? && reply.completion.Some? && reply.completion.value != ""
    && ExtractJson(reply.completion.value).Some?
    && parse(ExtractJson(reply.completion.value).value).Object?
    && parse(ExtractJson(reply.completion.value).value).subTasks.Some?
    && parse(ExtractJson(reply.completion.value).value).total.Some?
  }

  /** `generateTaskBreakdown` once the exchange has happened. */
  function GenerateTaskBreakdown(title: string, description: string, reply: Reply, parse: string -> Parsed): Breakdown
  {
    match reply
    case NetworkFailure => DefaultBreakdown(title, description)
    case HttpError(_) => DefaultBreakdown(title, description)
    case Completion(completion) =>
      if completion.None? || completion.value == "" then DefaultBreakdown(title, description)
      else
        match ExtractJson(completion.value)
        case None => DefaultBreakdown(title, description)
        case Some(json) =>
          match parse(json)
          case SyntaxError => DefaultBreakdown(title, description)
          case Object(subTasks, total, suggested) =>
            if subTasks.None? || total.None? then DefaultBreakdown(title, description)
            else Breakdown(subTasks.value, total.value, suggested.GetOr(DeterminePriority(title, description)))
  }

  /**
   * Every reply that is not usable yields exactly the fallback; a usable one
   * passes its subtasks and total through and fills a missing priority from
   * the keyword classifier.
   */
  lemma BreakdownDecision(title: string, description: string, reply: Reply, parse: string -> Parsed)
    ensures !Usable(reply, parse) ==> GenerateTaskBreakdown(title, description, reply, parse) == DefaultBreakdown(title, description)
    ensures Usable(reply, parse) ==>
      var p := parse(ExtractJson(reply.completion.value).value);
      GenerateTaskBreakdown(title, description, reply, parse)
        == Breakdown(p.subTasks.value, p.total.value, p.suggestedPriority.GetOr(DeterminePriority(title, description)))
  {
  }

  /** A completion without any `{` before a `}` never reaches the parser. */
  lemma NoObjectFallsBack(title: string, description: string, text: string, parse: string -> Parsed)
    requires forall i, j :: 0 <= i < j < |text| ==> !(text[i] == '{' && text[j] == '}')
    ensures GenerateTaskBreakdown(title, description, Completion(Some(text)), parse) == DefaultBreakdown(title, description)
  {
  }

  // ----- getDefaultInsights -----

  const AddTasksInsight := "Add tasks to get personalized productivity insights."
  const HighRateInsight := "Great job completing most of your tasks! Consider challenging yourself with more complex tasks to further develop your skills."
  const MidRateInsight := "You're making good progress. Try breaking down your remaining tasks into smaller, more manageable subtasks to increase completion rate."
  const LowRateInsight := "Your task completion rate is lower than ideal. Focus on prioritizing essential tasks and consider using the Pomodoro technique to improve focus."

  /** `getDefaultInsights`: the productivity score argument is not consulted. */
  function GetDefaultInsights(completed: int, total: int, productivityScore: int): (insight: string)
    ensures insight == AddTasksInsight <==> total == 0
  {
    if total == 0 then AddTasksInsight
    else
      var rate := completed as real / total as real * 100.0;
      if rate >= 80.0 then HighRateInsight
      else if rate >= 50.0 then MidRateInsight
      else LowRateInsight
  }

  /** With tasks present, the message is chosen by integer thresholds: 4/5 and 1/2 of the tasks done. */
  lemma InsightThresholds(completed: int, total: int, productivityScore: int)
    requires total > 0
    ensures GetDefaultInsights(completed, total, productivityScore) == HighRateInsight <==> 5 * completed >= 4 * total
    ensures GetDefaultInsights(completed, total, productivityScore) == MidRateInsight <==> 5 * completed < 4 * total && 2 * completed >= total
    ensures GetDefaultInsights(completed, total, productivityScore) == LowRateInsight <==> 2 * completed < total
    ensures GetDefaultInsights(completed, total, productivityScore) != AddTasksInsight
  {
    var rate := completed as real / total as real * 100.0;
    assert rate * total as real == completed as real * 100.0;
    assert rate >= 80.0 <==> completed as real * 100.0 >= 80.0 * total as real;
    assert rate >= 50.0 <==> completed as real * 100.0 >= 50.0 * total as real;
  }
}
