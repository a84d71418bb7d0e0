/**
  The quiz component: ten questions asked one at a time, each answer sent to the grading
  endpoint, an early pass at six correct answers and a fail after the tenth answer otherwise.
  `handleSubmit` is an async handler that awaits the grading endpoint; it is modelled as two methods,
  `BeginSubmit` (up to the await: the request it sends) and `FinishSubmit` (after the await:
  the reply it received), so that the `grading` flag between them is visible.
 */
module CivicsTest {
  import opened Wrappers
  import opened Text
  import Grade

  datatype CivicsQuestion = CivicsQuestion(question: string, answers: seq<string>)

  /** One answered question; `isCorrect` and `aiReply` are `undefined` when the endpoint answered with an error. */
  datatype Result = Result(
    question: string,
    userAnswer: string,
    isCorrect: Option<bool>,
    aiReply: Option<string>,
    trueAnswers: seq<string>)

  datatype Status = InProgress | Passed | Failed

  const PassThreshold := 6
  const LastIndex := 9
  const TotalQuestions := 10

  /** The number of results the endpoint marked correct. */
  function CountCorrect(rs: seq<Result>): (n: nat)
    ensures n <= |rs|
  {
    if rs == [] then 0
    else CountCorrect(rs[..|rs| - 1]) + (if rs[|rs| - 1].isCorrect == Some(true) then 1 else 0)
  }

  lemma CountCorrectAppend(rs: seq<Result>, r: Result)
    ensures CountCorrect(rs + [r]) == CountCorrect(rs) + (if r.isCorrect == Some(true) then 1 else 0)
  {
    assert (rs + [r])[..|rs|] == rs;
  }

  /** The pass/fail decision after an answer, as the handler writes it (including its unreachable inner `passed`). */
  function NextStatus(newCorrectCount: nat, current: nat): (s: Status)
    ensures s == Passed <==> newCorrectCount >= PassThreshold
    ensures s == Failed <==> newCorrectCount < PassThreshold && current == LastIndex
    ensures s == InProgress <==> newCorrectCount < PassThreshold && current != LastIndex
  {
    if newCorrectCount >= 6 then Passed
    else if current == 9 then (if newCorrectCount >= 6 then Passed else Failed)
    else InProgress
  }

  /** The status a history of results calls for: passed at six correct, failed once ten are in. */
  function HistoryStatus(rs: seq<Result>): Status {
    if CountCorrect(rs) >= PassThreshold then Passed
    else if |rs| == TotalQuestions then Failed
    else InProgress
  }

  /** A history the quiz can produce: no answer was taken after the status left `InProgress`. */
  ghost predicate Reachable(rs: seq<Result>) {
    forall k :: 0 <= k < |rs| ==> HistoryStatus(rs[..k]) == InProgress
  }

  /** Answering one more question while in progress keeps the history reachable. */
  lemma {:induction false} ReachableAppend(rs: seq<Result>, r: Result)
    requires Reachable(rs) && HistoryStatus(rs) == InProgress
    ensures Reachable(rs + [r])
  {
    forall k | 0 <= k < |rs| + 1 ensures HistoryStatus((rs + [r])[..k]) == InProgress {
      if k < |rs| {
        assert (rs + [r])[..k] == rs[..k];
      } else {
        assert (rs + [r])[..k] == rs;
      }
    }
  }

  /** A reachable history never holds more than six correct answers nor more than ten results. */
  lemma {:induction false} ReachableBounds(rs: seq<Result>)
    requires Reachable(rs)
    ensures CountCorrect(rs) <= PassThreshold
    ensures |rs| <= TotalQuestions
  {
    if rs != [] {
      var init := rs[..|rs| - 1];
      assert Reachable(init) by {
        forall k | 0 <= k < |init| ensures HistoryStatus(init[..k]) == InProgress {
          assert init[..k] == rs[..k];
        }
      }
      assert HistoryStatus(init) == InProgress;
      ReachableBounds(init);
    }
  }

  /**
    The terminal statuses of a reachable history: passed exactly when six answers are correct
    (possibly before the tenth question), failed exactly when ten results hold fewer than six.
   */
  lemma TerminalStatus(rs: seq<Result>)
    requires Reachable(rs)
    ensures HistoryStatus(rs) == Passed <==> CountCorrect(rs) == PassThreshold
    ensures HistoryStatus(rs) == Failed <==> |rs| == TotalQuestions && CountCorrect(rs) < PassThreshold
    ensures HistoryStatus(rs) == Passed ==> |rs| >= PassThreshold
  {
    ReachableBounds(rs);
  }

  /** The handler's decision agrees with the status the history calls for. */
  lemma {:induction false} NextStatusFollowsHistory(rs: seq<Result>, r: Result)
    ensures NextStatus(CountCorrect(rs + [r]), |rs|) == HistoryStatus(rs + [r])
  {
    CountCorrectAppend(rs, r);
  }

  /** The endpoint's reply, as the component reads it: `data.isCorrect` and `data.aiReply` are `undefined` on an error body. */
  function ReplyIsCorrect(data: Grade.Body): Option<bool> {
    if data.GradeOk? then Some(data.isCorrect) else None
  }

  function ReplyText(data: Grade.Body): Option<string> {
    if data.GradeOk? then Some(data.aiReply) else None
  }

  class Quiz {
    const questions: seq<CivicsQuestion>
    var current: nat
    var userAnswer: string
    var correctCount: nat
    var results: seq<Result>
    var status: Status
    var grading: bool

    /** The component's invariant between events. */
    ghost predicate Valid()
      reads this
    {
      |results| == current &&
      current <= |questions| &&
      correctCount == CountCorrect(results) &&
      Reachable(results) &&
      status == HistoryStatus(results) &&
      (forall i :: 0 <= i < current ==>
        results[i].question == questions[i].question && results[i].trueAnswers == questions[i].answers)
    }

    /** The initial state of the component's hooks. */
    constructor (questions: seq<CivicsQuestion>)
      ensures Valid()
      ensures this.questions == questions
      ensures current == 0 && userAnswer == "" && correctCount == 0 && results == []
      ensures status == InProgress && !grading
    {
      this.questions := questions;
      current := 0;
      userAnswer := "";
      correctCount := 0;
      results := [];
      status := InProgress;
      grading := false;
    }

    /** The submit button is enabled when nothing is being graded and the answer is not blank. */
    predicate SubmitEnabled()
      reads this
      ensures SubmitEnabled() <==> !grading && !AllWhitespace(userAnswer)
    {
      TrimEmptyIffBlank(userAnswer);
      !(grading || Trim(userAnswer) == "")
    }

    /** Typing into the input, which is disabled while grading. */
    method SetAnswer(answer: string)
      requires Valid() && !grading
      modifies this`userAnswer
      ensures Valid() && userAnswer == answer
    {
      userAnswer := answer;
    }

    /**
      `handleSubmit` up to the `await`: sets `grading` and sends the current question, its
      answers and the answer exactly as typed (untrimmed).  When `questions[current]` does not
      exist the handler throws before sending, and `grading` stays set for good (`None`).
      The dialog covers the form once the status is terminal.
     */
    method BeginSubmit() returns (request: Option<Grade.GradeRequest>)
      requires Valid() && SubmitEnabled() && status == InProgress
      modifies this`grading
      ensures Valid() && grading && !SubmitEnabled()
      ensures old(current) < |questions| ==>
        request == Some(Grade.GradeRequest(questions[current].question, questions[current].answers, userAnswer))
      ensures old(current) >= |questions| ==> request == None
    {
      grading := true;
      if current < |questions| {
        request := Some(Grade.GradeRequest(questions[current].question, questions[current].answers, userAnswer));
      } else {
        request := None;
      }
    }

    /**
      `handleSubmit` after the `await`: records the result, counts a correct verdict (an error
      body has no `isCorrect` and counts as wrong), moves to the next question, decides the
      status, clears the input and the `grading` flag.
     */
    method FinishSubmit(data: Grade.Body)
      requires Valid() && grading && status == InProgress && current < |questions|
      modifies this`results, this`correctCount, this`userAnswer, this`current, this`status, this`grading
      ensures Valid()
      ensures results == old(results) + [Result(
        questions[old(current)].question, old(userAnswer), ReplyIsCorrect(data), ReplyText(data),
        questions[old(current)].answers)]
      ensures correctCount == old(correctCount) + (if data.GradeOk? && data.isCorrect then 1 else 0)
      ensures current == old(current) + 1
      ensures status == NextStatus(correctCount, old(current))
      ensures status == Passed <==> correctCount == PassThreshold
      ensures status == Failed <==> current == TotalQuestions && correctCount < PassThreshold
      ensures userAnswer == "" && !grading
    {
      var q := questions[current];
      var newCorrectCount := if ReplyIsCorrect(data) == Some(true) then correctCount + 1 else correctCount;
      var newResults := results + [Result(q.question, userAnswer, ReplyIsCorrect(data), ReplyText(data), q.answers)];

      var newStatus := NextStatus(newCorrectCount, current);

      CountCorrectAppend(results, newResults[|results|]);
      assert newResults == results + [newResults[|results|]];
      NextStatusFollowsHistory(results, newResults[|results|]);
      ReachableAppend(results, newResults[|results|]);
      TerminalStatus(newResults);

      results := newResults;
      correctCount := newCorrectCount;
      userAnswer := "";
      current := current + 1;
      status := newStatus;
      grading := false;
    }
  }
}
