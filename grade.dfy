/**
  The grading endpoint (`POST /api/grade`): it builds a prompt from the question, the accepted
  answers and the user's answer, asks the language model, and turns the first line of the
  model's reply into a yes/no verdict.  The two network calls are parameters here: the upstream
  completion call is the function `fetch`, and the environment's API key is `apiKey`.
 */
module Grade {
  import opened Wrappers
  import opened Text

  /** A JavaScript value, as far as the error handler inspects it. */
  datatype JsValue =
    | JsUndefined
    | JsNull
    | JsBool(b: bool)
    | JsNumber(n: real)
    | JsString(s: string)
    | JsArray(items: seq<JsValue>)
    | JsObject(fields: map<string, JsValue>)
    | JsError(message: string)  // an instance of `Error`

  /** The request body `{ question, answers, userAnswer }`. */
  datatype GradeRequest = GradeRequest(question: string, answers: seq<string>, userAnswer: string)

  /** The parts of the chat-completion body the route reads: `choices[0].message.content`. */
  datatype Message = Message(content: Option<string>)
  datatype Choice = Choice(message: Option<Message>)
  datatype Completion = Completion(choices: Option<seq<Choice>>)

  /** What awaiting the upstream call and its `json()` gives: a body, or a thrown value. */
  datatype Upstream = Answered(data: Completion) | Threw(error: JsValue)

  /** The JSON bodies the route answers with. */
  datatype Body = GradeOk(isCorrect: bool, aiReply: string) | GradeError(error: JsValue)

  datatype Response = Response(status: int, body: Body)

  const PromptHead := "\nYou are a civics test grader. Here is the question:\n"
  const AnswersLabel := "\nHere are the correct answers: "
  const UserLabel := "\nThe user answered: "
  const PromptTail := "\nIs the user's answer correct? Reply with only \"yes\" or \"no\" on the first line, then explain briefly on the next line.\n"

  const AnswerSeparator := ", "
  const MissingKeyMessage := "No API key"
  const UnknownErrorMessage := "Unknown error"

  /** The template string sent to the model. */
  function Prompt(req: GradeRequest): string {
    PromptHead + req.question + AnswersLabel + Join(req.answers, AnswerSeparator) +
    UserLabel + req.userAnswer + PromptTail
  }

  /** Where the accepted answers start in the prompt. */
  function AnswersStart(req: GradeRequest): nat {
    |PromptHead| + |req.question| + |AnswersLabel|
  }

  /**
    The prompt holds the question right after the fixed header, the user's answer verbatim right
    before the fixed closing instruction, and the answers joined by `", "` in between; when no
    answer contains `", "` the list can be read back from the prompt unchanged.
   */
  lemma PromptContents(req: GradeRequest)
    ensures var p := Prompt(req);
      |p| >= |PromptHead| + |req.question| + |req.userAnswer| + |PromptTail| &&
      p[..|PromptHead|] == PromptHead &&
      p[|PromptHead|..|PromptHead| + |req.question|] == req.question &&
      p[|p| - |PromptTail| - |req.userAnswer|..|p| - |PromptTail|] == req.userAnswer &&
      p[|p| - |PromptTail|..] == PromptTail
    ensures var p := Prompt(req); var j := Join(req.answers, AnswerSeparator);
      AnswersStart(req) + |j| <= |p| &&
      p[AnswersStart(req)..AnswersStart(req) + |j|] == j &&
      (|req.answers| >= 1 && (forall i :: 0 <= i < |req.answers| ==> NoCommaSpace(req.answers[i])) ==>
        Split(p[AnswersStart(req)..AnswersStart(req) + |j|], AnswerSeparator) == req.answers)
  {
    var j := Join(req.answers, AnswerSeparator);
    SevenParts(PromptHead, req.question, AnswersLabel, j, UserLabel, req.userAnswer, PromptTail);
    if |req.answers| >= 1 && (forall i :: 0 <= i < |req.answers| ==> NoCommaSpace(req.answers[i])) {
      SplitJoin(req.answers);
    }
  }

  /** Where each piece of a seven-piece concatenation lies. */
  lemma SevenParts(a: string, b: string, c: string, d: string, e: string, f: string, g: string)
    ensures var p := a + b + c + d + e + f + g;
      p[..|a|] == a &&
      p[|a|..|a| + |b|] == b &&
      p[|a| + |b| + |c|..|a| + |b| + |c| + |d|] == d &&
      p[|p| - |g| - |f|..|p| - |g|] == f &&
      p[|p| - |g|..] == g
  {
  }

  /** `data.choices?.[0]?.message?.content || ''` */
  function ReplyContent(data: Completion): (reply: string)
    ensures reply != "" ==>
      data.choices.Some? && |data.choices.value| > 0 &&
      data.choices.value[0].message.Some? &&
      data.choices.value[0].message.value.content == Some(reply)
    ensures (data.choices.Some? && |data.choices.value| > 0 &&
             data.choices.value[0].message.Some? && data.choices.value[0].message.value.content.Some?) ==>
      reply == data.choices.value[0].message.value.content.value
  {
    match data.choices
    case None => ""
    case Some(cs) =>
      if |cs| == 0 then ""
      else match cs[0].message
        case None => ""
        case Some(m) => match m.content
          case None => ""
          case Some(c) => c
  }

  /** `aiReply.trim().split('\n')[0].toLowerCase().startsWith('yes')` */
  predicate IsCorrect(aiReply: string) {
    StartsWith(ToLower(FirstLine(Trim(aiReply))), "yes")
  }

  /** `yes` in any letter case at the very start of `t`. */
  predicate YesPrefix(t: string) {
    |t| >= 3 && LowerChar(t[0]) == 'y' && LowerChar(t[1]) == 'e' && LowerChar(t[2]) == 's'
  }

  /** The three letters of `yes` survive trimming at the end and the cut at the first line feed. */
  lemma {:induction false} YesPrefixSurvivesCut(t: string)
    requires t == [] || !IsWhitespace(t[0])
    ensures StartsWith(ToLower(FirstLine(TrimEnd(t))), "yes") <==> YesPrefix(t)
  {
    var e := TrimEnd(t);
    var f := FirstLine(e);
    var l := ToLower(f);
    if YesPrefix(t) {
      // none of the first three characters is blank or a line feed
      assert !IsWhitespace(t[0]) && !IsWhitespace(t[1]) && !IsWhitespace(t[2]);
      assert |e| >= 3;
      assert e[..3] == t[..3];
      assert |f| >= 3;
      assert f[..3] == t[..3];
      assert l[..3] == "yes";
    }
    if StartsWith(l, "yes") {
      assert l[0] == 'y' && l[1] == 'e' && l[2] == 's';
      assert f[..3] == e[..3] == t[..3];
    }
  }

  /**
    The verdict, stated without the trimming and splitting machinery: after the leading whitespace,
    the reply starts with `y`, `e`, `s` in any letter case.
   */
  lemma VerdictIsYesPrefix(aiReply: string)
    ensures IsCorrect(aiReply) <==> YesPrefix(TrimStart(aiReply))
  {
    YesPrefixSurvivesCut(TrimStart(aiReply));
  }

  /** Leading whitespace, line feeds included, is trimmed before the first line is taken. */
  lemma VerdictSkipsLeadingWhitespace(w: string, aiReply: string)
    requires AllWhitespace(w)
    ensures IsCorrect(w + aiReply) == IsCorrect(aiReply)
  {
    VerdictIsYesPrefix(w + aiReply);
    VerdictIsYesPrefix(aiReply);
    TrimStartSkipsWhitespace(w, aiReply);
  }

  /** Nothing after the first non-blank line changes the verdict. */
  lemma VerdictReadsFirstLineOnly(line: string, rest: string)
    requires !AllWhitespace(line)
    ensures IsCorrect(line + "\n" + rest) == IsCorrect(line)
  {
    VerdictIgnoresLaterLines(line, "\n" + rest);
    assert line + ("\n" + rest) == line + "\n" + rest;
  }

  lemma VerdictIgnoresLaterLines(line: string, tail: string)
    requires !AllWhitespace(line)
    requires tail != [] && tail[0] == '\n'
    ensures IsCorrect(line + tail) == IsCorrect(line)
  {
    VerdictIsYesPrefix(line + tail);
    VerdictIsYesPrefix(line);
    TrimStartAppend(line, tail);
    YesPrefixStopsAtLineFeed(TrimStart(line), tail);
  }

  lemma YesPrefixStopsAtLineFeed(t: string, tail: string)
    requires tail != [] && tail[0] == '\n'
    ensures YesPrefix(t + tail) == YesPrefix(t)
  {
    var u := t + tail;
    if |t| < 3 {
      assert u[|t|] == '\n';
    } else {
      assert u[0] == t[0] && u[1] == t[1] && u[2] == t[2];
    }
  }

  /** Two strings that differ only in the letter case of Basic Latin letters. */
  predicate SameIgnoringCase(a: string, b: string) {
    |a| == |b| && forall i :: 0 <= i < |a| ==> LowerChar(a[i]) == LowerChar(b[i])
  }

  lemma {:induction false} TrimStartIgnoresCase(a: string, b: string)
    requires SameIgnoringCase(a, b)
    ensures SameIgnoringCase(TrimStart(a), TrimStart(b))
  {
    if a != [] {
      assert IsWhitespace(a[0]) <==> IsWhitespace(b[0]);
      assert SameIgnoringCase(a[1..], b[1..]) by {
        forall i | 0 <= i < |a| - 1 ensures LowerChar(a[1..][i]) == LowerChar(b[1..][i]) {
          assert a[1..][i] == a[i + 1] && b[1..][i] == b[i + 1];
        }
      }
      TrimStartIgnoresCase(a[1..], b[1..]);
    }
  }

  /** The verdict does not depend on letter case: `YES`, `Yes` and `yes` all grade as correct. */
  lemma VerdictIgnoresCase(a: string, b: string)
    requires SameIgnoringCase(a, b)
    ensures IsCorrect(a) == IsCorrect(b)
  {
    VerdictIsYesPrefix(a);
    VerdictIsYesPrefix(b);
    TrimStartIgnoresCase(a, b);
  }

  /** Replies that grade as correct. */
  lemma VerdictAcceptsYes()
    ensures IsCorrect("Yes, that's correct.")
    ensures IsCorrect("YES")
  {
    var s := "Yes, that's correct.";
    assert s[0] == 'Y';
    assert TrimStart(s) == s;
    VerdictIsYesPrefix(s);
    var t := "YES";
    assert t[0] == 'Y';
    assert TrimStart(t) == t;
    VerdictIsYesPrefix(t);
  }

  /** Replies that grade as incorrect. */
  lemma VerdictRejectsOthers()
    ensures !IsCorrect("No.")
    ensures !IsCorrect("")
  {
    var s := "No.";
    assert s[0] == 'N';
    assert TrimStart(s) == s;
    VerdictIsYesPrefix(s);
    VerdictIsYesPrefix("");
  }

  /** A reply whose first line is `no` is incorrect whatever follows, `yes` included. */
  lemma VerdictIgnoresLaterYes(rest: string)
    ensures !IsCorrect("no\n" + rest)
  {
    var s := "no\n" + rest;
    assert s[0] == 'n';
    assert TrimStart(s) == s;
    VerdictIsYesPrefix(s);
  }

  /** The `catch` block's message: an Error's message, a string itself, an object's `message`, else `Unknown error`. */
  function ErrorMessage(error: JsValue): (message: JsValue)
    ensures error.JsError? ==> message == JsString(error.message)
    ensures error.JsString? ==> message == error
    ensures error.JsObject? && "message" in error.fields ==> message == error.fields["message"]
    ensures !error.JsError? && !error.JsString? && !(error.JsObject? && "message" in error.fields) ==>
      message == JsString(UnknownErrorMessage)
    ensures message.JsString? || (error.JsObject? && "message" in error.fields)
  {
    match error
    case JsError(m) => JsString(m)
    case JsString(s) => JsString(s)
    case JsObject(fields) =>
      if "message" in fields then fields["message"] else JsString(UnknownErrorMessage)
    case _ => JsString(UnknownErrorMessage)
  }

  /** The route handler, with `process.env.OPENROUTER_API_KEY` as `apiKey` and the upstream call as `fetch`. */
  function Post(req: GradeRequest, apiKey: Option<string>, fetch: (string, string) -> Upstream): (resp: Response)
    ensures resp.status == 200 || resp.status == 500
    ensures resp.status == 200 <==> resp.body.GradeOk?
    ensures apiKey == None || apiKey == Some("") ==>
      resp == Response(500, GradeError(JsString(MissingKeyMessage)))
    ensures resp.body.GradeOk? ==>
      apiKey.Some? && fetch(apiKey.value, Prompt(req)).Answered? &&
      resp.body.aiReply == ReplyContent(fetch(apiKey.value, Prompt(req)).data) &&
      resp.body.isCorrect == IsCorrect(resp.body.aiReply)
    ensures apiKey.Some? && apiKey.value != "" && fetch(apiKey.value, Prompt(req)).Answered? ==>
      resp == Response(200, GradeOk(IsCorrect(ReplyContent(fetch(apiKey.value, Prompt(req)).data)),
                                    ReplyContent(fetch(apiKey.value, Prompt(req)).data)))
    ensures apiKey.Some? && apiKey.value != "" && fetch(apiKey.value, Prompt(req)).Threw? ==>
      resp == Response(500, GradeError(ErrorMessage(fetch(apiKey.value, Prompt(req)).error)))
  {
    var prompt := Prompt(req);
    if apiKey.None? || apiKey.value == "" then
      Response(500, GradeError(JsString(MissingKeyMessage)))
    else
      match fetch(apiKey.value, prompt)
      case Threw(e) => Response(500, GradeError(ErrorMessage(e)))
      case Answered(data) =>
        var aiReply := ReplyContent(data);
        Response(200, GradeOk(IsCorrect(aiReply), aiReply))
  }

  /** Without a key the model is never consulted: the answer is the same whatever `fetch` would do. */
  lemma MissingKeyGradesNothing(req: GradeRequest, f: (string, string) -> Upstream, g: (string, string) -> Upstream)
    ensures Post(req, None, f) == Post(req, None, g)
    ensures Post(req, Some(""), f) == Post(req, Some(""), g)
  {
  }

  /** A reply with no usable content is the empty string and grades as incorrect. */
  lemma MissingReplyIsIncorrect(data: Completion)
    requires data.choices.None? || |data.choices.value| == 0 ||
      data.choices.value[0].message.None? || data.choices.value[0].message.value.content.None? ||
      data.choices.value[0].message.value.content == Some("")
    ensures ReplyContent(data) == ""
    ensures !IsCorrect(ReplyContent(data))
  {
    VerdictIsYesPrefix("");
  }
}
