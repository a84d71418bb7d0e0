/**
  Whole quiz attempts driven through the component's events, as a user and the grading endpoint would:
  each round types an answer, submits it, and hands back the endpoint's reply.
 */
module Scenarios {
  import opened Wrappers
  import opened Text
  import Grade
  import opened CivicsTest

  /** One round: type `answer`, submit, and receive `reply`. */
  method Answer(quiz: Quiz, answer: string, reply: Grade.Body)
    requires quiz.Valid() && !quiz.grading && quiz.status == InProgress
    requires quiz.current < |quiz.questions| && !AllWhitespace(answer)
    modifies quiz
    ensures quiz.Valid() && !quiz.grading
    ensures quiz.current == old(quiz.current) + 1
    ensures quiz.correctCount == old(quiz.correctCount) + (if reply.GradeOk? && reply.isCorrect then 1 else 0)
    ensures quiz.status == NextStatus(quiz.correctCount, old(quiz.current))
    ensures quiz.results[..old(quiz.current)] == old(quiz.results)
    ensures quiz.results[old(quiz.current)].isCorrect == ReplyIsCorrect(reply)
  {
    quiz.SetAnswer(answer);
    var request := quiz.BeginSubmit();
    quiz.FinishSubmit(reply);
  }

  /** Six correct answers in a row pass the quiz after the sixth; the last four questions are never asked. */
  method EarlyPass(questions: seq<CivicsQuestion>) returns (quiz: Quiz)
    requires |questions| == TotalQuestions
    ensures quiz.Valid() && quiz.status == Passed
    ensures quiz.current == 6 && quiz.correctCount == 6
  {
    quiz := new Quiz(questions);
    var typed := "the Constitution";
    assert !IsWhitespace(typed[0]);
    var i := 0;
    while i < 6
      invariant 0 <= i <= 6
      invariant quiz.questions == questions
      invariant quiz.Valid() && !quiz.grading
      invariant quiz.current == i && quiz.correctCount == i
      invariant quiz.status == if i < 6 then InProgress else Passed
    {
      Answer(quiz, typed, Grade.GradeOk(true, "Yes"));
      i := i + 1;
    }
  }

  /** Five correct and five wrong answers, alternating, fail the quiz only after the tenth answer. */
  method LateFail(questions: seq<CivicsQuestion>) returns (quiz: Quiz)
    requires |questions| == TotalQuestions
    ensures quiz.Valid() && quiz.status == Failed
    ensures quiz.current == TotalQuestions && quiz.correctCount == 5
  {
    quiz := new Quiz(questions);
    var typed := "the Constitution";
    assert !IsWhitespace(typed[0]);
    var i := 0;
    while i < TotalQuestions
      invariant 0 <= i <= TotalQuestions
      invariant quiz.questions == questions
      invariant quiz.Valid() && !quiz.grading
      invariant quiz.current == i && quiz.correctCount == (i + 1) / 2
      invariant quiz.status == if i < TotalQuestions then InProgress else Failed
    {
      Answer(quiz, typed, Grade.GradeOk(i % 2 == 0, if i % 2 == 0 then "Yes" else "No"));
      i := i + 1;
    }
  }

  /** An endpoint error on the third answer records it as wrong, and the fourth answer is still taken. */
  method ErrorThenContinue(questions: seq<CivicsQuestion>) returns (quiz: Quiz)
    requires |questions| == TotalQuestions
    ensures quiz.Valid() && quiz.status == InProgress
    ensures quiz.current == 4 && quiz.correctCount == 3
    ensures quiz.results[2].isCorrect == None
  {
    quiz := new Quiz(questions);
    var typed := "the Constitution";
    assert !IsWhitespace(typed[0]);
    Answer(quiz, typed, Grade.GradeOk(true, "Yes"));
    Answer(quiz, typed, Grade.GradeOk(true, "Yes"));
    Answer(quiz, typed, Grade.GradeError(Grade.JsString("Unknown error")));
    Answer(quiz, typed, Grade.GradeOk(true, "Yes"));
  }

  /** A blank answer cannot be submitted: nothing is sent and nothing changes. */
  method BlankAnswerRejected(questions: seq<CivicsQuestion>) returns (quiz: Quiz)
    requires |questions| == TotalQuestions
    ensures quiz.Valid() && !quiz.SubmitEnabled()
    ensures quiz.current == 0 && quiz.results == []
  {
    quiz := new Quiz(questions);
    quiz.SetAnswer("  ");
    assert IsWhitespace("  "[0]) && IsWhitespace("  "[1]);
  }
}
