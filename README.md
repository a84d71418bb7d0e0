# Civics quiz: session state machine and grading endpoint, in Dafny

This project models the logic core of a ten-question US civics quiz web application.

- **The quiz component** (`CivicsTest`) asks sampled questions one at a time. It sends each
  answer to a grading endpoint and records the outcome. It passes the quiz as soon as six
  answers are correct. It fails the quiz after the tenth answer when fewer than six are correct.
- **The grading endpoint** (`POST /api/grade`) builds a prompt for a hosted language model. It
  reads the model's reply and derives a yes/no verdict from the reply's first line.
- **The page** draws ten questions from a pool by shuffling a copy of the pool and taking a prefix.

Modules: one per source file, two helpers, and the scenario module:

| file | module | models |
|---|---|---|
| `wrappers.dfy` | `Wrappers` | `Option`, standing for `undefined` |
| `text.dfy` | `Text` | the JavaScript string operations used: `trim`, `split('\n')[0]`, `toLowerCase`, `startsWith`, `join`, `split` |
| `grade.dfy` | `Grade` | `src/app/api/grade/route.ts`: prompt, reply default, verdict, error message, the handler's dispatch |
| `civics_test.dfy` | `CivicsTest` | `src/components/CivicsTest.tsx`: the `Result` record, the pass/fail rule, and class `Quiz` for the component state and `handleSubmit` |
| `page.dfy` | `Page` | `src/app/page.tsx`: `getRandomQuestions` and the page's call with 10 |
| `scenarios.dfy` | `Scenarios` | whole attempts driven through `Quiz`: early pass, late fail, an endpoint error, a blank answer |

How the model is shaped:

- `handleSubmit` awaits the grading endpoint in the middle, so it becomes two methods of `Quiz`.
  - `BeginSubmit` covers the code before the `await`. It sets `grading` and returns the
    request it sends.
  - `FinishSubmit` covers the code after the `await`. It takes the JSON body the endpoint
    answered with (`Grade.Body`).
  - The two network calls are not modelled. The endpoint's answer is an argument. The upstream
    model call is the function parameter `fetch` of `Grade.Post`. The environment's API key is
    the parameter `apiKey`.
- The class invariant `Quiz.Valid` ties the fields together:
  - `current == |results|`;
  - `correctCount` is the number of results marked correct;
  - the status is `HistoryStatus(results)`: passed at six correct, failed at ten results,
    otherwise in progress;
  - the results history is `Reachable`: no answer was recorded after the status became final.
- The page's random shuffle is not modelled. `Page.GetRandomQuestions` receives the shuffled
  copy as an argument, which may be any rearrangement of the pool (an equal multiset). The
  pool is a value, so the function cannot change it. This matches the source, which sorts a
  spread copy.

Where the code may surprise a reader (the model follows the code):

- The answer is sent and recorded untrimmed. Trimming only decides whether the submit button is
  enabled (`src/components/CivicsTest.tsx:56`, `:112`).
- The handler itself has no pending-submission guard. Only the disabled input and button
  prevent a second submission while one is being graded. `BeginSubmit` requires
  `SubmitEnabled()`, and it ensures `!SubmitEnabled()` afterwards.
- An endpoint error is not kept apart from a wrong answer. Its body has no `isCorrect`, so the
  result records `isCorrect` as absent (`None`) and the answer counts as wrong. The code has no
  separate classifier-health signal.
- `getRandomQuestions` does not fail on a short pool. It returns `min(count, |pool|)`
  questions, following `slice`.
- With fewer than ten questions, reading `questions[current]` past the end throws after
  `grading` was set. `BeginSubmit` then returns `None` and the quiz is stuck with `grading`
  set.

## Model

| member | source | states |
|---|---|---|
| `Text.TrimStart` | src/app/api/grade/route.ts:47 | the leading part of `trim`: the result is a suffix of the input, everything dropped is whitespace, and the result is empty or starts with a non-whitespace character |
| `Text.TrimEnd` | src/app/api/grade/route.ts:47 | the trailing part of `trim`: the result is a prefix of the input, everything dropped is whitespace, and the result is empty or ends with a non-whitespace character |
| `Text.TrimEmptyIffBlank` | src/components/CivicsTest.tsx:112 | `!userAnswer.trim()` holds exactly when every character of the answer is whitespace |
| `Text.FirstLine` | src/app/api/grade/route.ts:47 | `split('\n')[0]` is the longest prefix that contains no line feed; when it is shorter than the input, a line feed follows it |
| `Text.ToLower` | src/app/api/grade/route.ts:47 | `toLowerCase` keeps the length and lowers each character |
| `Text.TrimStartSkipsWhitespace` | src/app/api/grade/route.ts:47 | leading whitespace never reaches the trimmed text |
| `Text.TrimStartAppend` | src/app/api/grade/route.ts:47 | after the first non-blank character, trimming keeps everything that follows |
| `Text.SplitJoin` | src/app/api/grade/route.ts:12 | `answers.join(', ')` loses nothing: splitting on `", "` gives back a non-empty answer list in which no answer contains `", "` |
| `Grade.PromptContents` | src/app/api/grade/route.ts:9-15 | the prompt is the fixed header, then the question verbatim, then the answers joined by `", "` (recoverable by splitting), then the user's answer verbatim, then the fixed closing instruction |
| `Grade.ReplyContent` | src/app/api/grade/route.ts:44 | `aiReply` is `choices[0].message.content` when the whole path exists, and the empty string otherwise |
| `Grade.YesPrefixSurvivesCut` | src/app/api/grade/route.ts:47-48 | on already left-trimmed text, trimming the end, cutting at the first line feed, lowering and testing `startsWith('yes')` is the same as testing the first three characters for `y`, `e`, `s` in either case |
| `Grade.VerdictIsYesPrefix` | src/app/api/grade/route.ts:47-48 | `isCorrect` holds exactly when, after the leading whitespace, the reply starts with `yes` in any letter case |
| `Grade.VerdictSkipsLeadingWhitespace` | src/app/api/grade/route.ts:47 | leading whitespace, line feeds included, does not change the verdict, because it is trimmed before the split |
| `Grade.VerdictReadsFirstLineOnly` | src/app/api/grade/route.ts:47 | for a non-blank line, nothing after the first line feed changes the verdict |
| `Grade.VerdictIgnoresLaterLines` | src/app/api/grade/route.ts:47 | the same, for any text that starts with a line feed |
| `Grade.YesPrefixStopsAtLineFeed` | src/app/api/grade/route.ts:47 | a line feed ends the text that can spell `yes` |
| `Grade.TrimStartIgnoresCase` | src/app/api/grade/route.ts:47 | trimming treats two texts that differ only in letter case alike |
| `Grade.VerdictIgnoresCase` | src/app/api/grade/route.ts:47-48 | two replies that differ only in letter case get the same verdict |
| `Grade.VerdictAcceptsYes` | src/app/api/grade/route.ts:47-48 | `"Yes, that's correct."` and `"YES"` grade as correct |
| `Grade.VerdictRejectsOthers` | src/app/api/grade/route.ts:44-48 | `"No."` and the empty reply grade as incorrect |
| `Grade.VerdictIgnoresLaterYes` | src/app/api/grade/route.ts:47-48 | a reply whose first line is `no` grades as incorrect whatever follows, a `yes` on a later line included |
| `Grade.MissingReplyIsIncorrect` | src/app/api/grade/route.ts:44-48 | a missing or empty reply defaults to `''` and grades as incorrect |
| `Grade.ErrorMessage` | src/app/api/grade/route.ts:52-59 | the checks run in order: an `Error` gives its message, a string gives itself, a non-null object with `message` gives that property, and anything else gives `'Unknown error'`; the result is a string unless an object's `message` property is something else |
| `Grade.Post` | src/app/api/grade/route.ts:3-63 | a missing or empty key answers `{ error: 'No API key' }` with status 500; with a key, an upstream call that answers gives status 200 with `{ isCorrect, aiReply }` for its reply, and status 200 comes only then, exactly with `{ isCorrect, aiReply }`, where `aiReply` is the raw reply to this request's prompt and `isCorrect` is its verdict; a thrown value answers its error message with status 500 |
| `Grade.MissingKeyGradesNothing` | src/app/api/grade/route.ts:17-21 | without a key the response does not depend on the upstream call, so the model is never asked |
| `CivicsTest.CountCorrectAppend` | src/components/CivicsTest.tsx:61-70 | appending a result adds one to the correct count exactly when its `isCorrect` is true; an absent `isCorrect` adds nothing |
| `CivicsTest.NextStatus` | src/components/CivicsTest.tsx:72-75 | the new status is passed exactly at six or more correct; failed exactly below six on the tenth question (`current == 9`), so the inner `passed` arm is unreachable; otherwise in progress |
| `CivicsTest.NextStatusFollowsHistory` | src/components/CivicsTest.tsx:61-75 | the handler's decision equals the status the whole history of results calls for |
| `CivicsTest.ReachableAppend` | src/components/CivicsTest.tsx:62-75 | an answer taken while the quiz is in progress keeps the history reachable |
| `CivicsTest.ReachableBounds` | src/components/CivicsTest.tsx:61-75 | a reachable history holds at most six correct answers and at most ten results |
| `CivicsTest.TerminalStatus` | src/components/CivicsTest.tsx:73-75 | in a reachable history, passed holds exactly when six answers are correct, which takes at least six results; failed holds exactly when ten results hold fewer than six correct |
| `CivicsTest.Quiz.constructor` | src/components/CivicsTest.tsx:32-37 | the initial state: question 0, empty answer, no results, zero correct, in progress, not grading |
| `CivicsTest.Quiz.SubmitEnabled` | src/components/CivicsTest.tsx:112 | the submit button is enabled exactly when nothing is being graded and the answer is not all whitespace |
| `CivicsTest.Quiz.SetAnswer` | src/components/CivicsTest.tsx:101-107 | typing, possible only while not grading, sets the answer and keeps the invariant |
| `CivicsTest.Quiz.BeginSubmit` | src/components/CivicsTest.tsx:46-58 | sets `grading`, which disables a second submission; sends the current question, its answers and the answer exactly as typed; sends nothing when the question does not exist |
| `CivicsTest.Quiz.FinishSubmit` | src/components/CivicsTest.tsx:59-83 | appends one result (the question's text and answers unchanged, the answer untrimmed, the endpoint's `isCorrect` and `aiReply`); counts it when correct; advances `current` by one; sets the status by the pass/fail rule; clears the answer and `grading`; keeps the invariant |
| `Page.PrefixSubMultiset` | src/app/page.tsx:6 | a prefix holds no element more often than the whole sequence does |
| `Page.GetRandomQuestions` | src/app/page.tsx:4-7 | returns `min(count, pool length)` questions for a non-negative count and, as `slice` does, drops `-count` from the end for a negative one; every returned question comes from the pool, and none appears more often than in the pool |
| `Page.SampleDistinct` | src/app/page.tsx:5-6 | a pool without repeats yields a sample without repeats, so questions are drawn without replacement |
| `Page.PageQuestions` | src/app/page.tsx:9-12 | the page's call: exactly ten questions from a pool of at least ten, and the whole pool when it is smaller |
| `Scenarios.EarlyPass` | src/components/CivicsTest.tsx:73-74 | six correct answers in a row pass the quiz on the sixth question |
| `Scenarios.LateFail` | src/components/CivicsTest.tsx:75 | five correct answers out of ten fail the quiz, and only after the tenth answer |
| `Scenarios.ErrorThenContinue` | src/components/CivicsTest.tsx:61-70 | an endpoint error on the third answer is recorded with no `isCorrect` and counts as wrong; the fourth answer is still accepted |
| `Scenarios.BlankAnswerRejected` | src/components/CivicsTest.tsx:112 | a whitespace-only answer leaves the submit button disabled, and nothing is recorded |

## Left out

- The `fetch` to `/api/grade` and the upstream chat-completion call are not modelled. The first is the `Grade.Body` argument of `FinishSubmit`. The second is the `fetch` parameter of `Grade.Post`.
- The language model's own judgement is not modelled: no property depends on what it replies.
- `process.env` is not modelled: the key is the optional parameter `apiKey`.
- `console.log` and `console.error` are left out: they only log.
- `NextResponse` is represented by the `Response` datatype (status and JSON body), not modelled as a library object.
- React rendering, JSX, the focus effect, the result dialog, `window.location.reload` and the restart `setTimeout` are left out as presentation and browser side effects. The open dialog is why `BeginSubmit` requires an in-progress status.
- The commented-out card markup is left out.
- `Math.random` and the sort comparator are not modelled: the shuffled copy is an argument. Nothing about the order's randomness or uniformity is stated.
- In `handleSubmit`, a rejected `fetch` or a non-JSON response leaves `grading` set for good, because there is no `catch`. This is an exception path of the async handler and is left out. The one such path kept is a missing `questions[current]`, where `BeginSubmit` returns `None`.
- In the route, several failures inside `try` are not modelled as separate cases: a malformed request body, non-array `answers`, a `null` upstream body, or a non-string truthy `content`. Only the upstream call is modelled as throwing. The request is a typed record, and the reply content is a string or absent.
- The question pool module `@/lib/civicsQuestions` is not part of this model. The pool is an argument.
- Text.ToLower: maps only the letters `A`–`Z`. No other case mapping of `toLowerCase` produces `y`, `e` or `s` (the one that lengthens a string, U+0130, gives `i` and a combining dot). So the verdict is exact, but lowered text outside Basic Latin is not.
- Strings are sequences of Unicode scalar values, not UTF-16 code units. Lone surrogates are not represented.
- Grade.JsValue: JavaScript numbers are `real`s, and functions are not a case. A thrown function would give `'Unknown error'`.
