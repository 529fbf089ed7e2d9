/**
 * The deterministic parts of the exercise generator and the answer checker.
 * The chat-completion request is an oracle: its outcome is an `ApiReply`
 * handed in by the caller, and `json.loads` is a parser handed in likewise.
 */
module AiService {
  import opened Wrappers
  import opened PyStr
  import opened Models

  /** What the completion request yields: a failure of any kind, or the reply text. */
  datatype ApiReply = ApiFailure | Reply(text: string)

  datatype ValueErrorCause = UnknownTaskType | InvalidJson

  /** The two exceptions the service raises. */
  datatype AiError = ValueError(cause: ValueErrorCause) | RuntimeError

  /** The checker's answer as the handler reads it with `dict.get`: either key may be missing. */
  datatype Verdict = Verdict(isCorrect: Option<bool>, feedback: Option<string>)

  const FenceOpen: string := "```json"
  const FenceClose: string := "```"

  /**
   * The cleanup before `json.loads`: strip the reply; if it then starts with the
   * json fence, remove every opening and closing fence and strip again.
   */
  function StripFence(reply: string): (r: string)
    ensures Stripped(r)
    ensures !StartsWith(Strip(reply), FenceOpen) ==> r == Strip(reply)
    ensures |r| <= |reply|
  {
    var c := Strip(reply);
    if StartsWith(c, FenceOpen) then
      var unfenced := RemoveAll(RemoveAll(c, FenceOpen), FenceClose);
      assert |unfenced| <= |c| <= |reply|;
      Strip(unfenced)
    else c
  }

  /** Once the reply is recognised as fenced, neither fence survives the cleanup. */
  lemma {:induction false} FencesRemoved(reply: string)
    requires StartsWith(Strip(reply), FenceOpen)
    ensures !Contains(StripFence(reply), FenceClose)
    ensures !Contains(StripFence(reply), FenceOpen)
  {
    var unfenced := RemoveAll(RemoveAll(Strip(reply), FenceOpen), FenceClose);
    assert FenceClose == ['`', '`', '`'];
    RemoveAllTripleGone(RemoveAll(Strip(reply), FenceOpen), '`');
    NotContainsStrip(unfenced, FenceClose);
    var r := StripFence(reply);
    forall i | 0 <= i <= |r|
      ensures !StartsWith(r[i..], FenceOpen)
    {
      assert !StartsWith(r[i..], FenceClose);
      assert FenceOpen[..|FenceClose|] == FenceClose;
    }
  }

  /** A fenced reply whose body holds no backtick yields exactly the stripped body. */
  lemma {:induction false} FencedBodyRecovered(reply: string, body: string)
    requires Strip(reply) == FenceOpen + body + FenceClose
    requires '`' !in body
    ensures StripFence(reply) == Strip(body)
  {
    var c := Strip(reply);
    assert StartsWith(c, FenceOpen);
    assert c[|FenceOpen|..] == body + FenceClose;
    assert RemoveAll(c, FenceOpen) == RemoveAll(body + FenceClose, FenceOpen);
    RemoveAllSkipsPrefix(body, FenceClose, FenceOpen);
    assert RemoveAll(FenceClose, FenceOpen) == FenceClose;
    RemoveAllSkipsPrefix(body, FenceClose, FenceClose);
    assert StartsWith(FenceClose, FenceClose);
    assert RemoveAll(FenceClose, FenceClose) == [];
    assert body + [] == body;
  }

  /** The four `task_type` values the generator accepts. */
  predicate KnownTaskType(taskType: string) {
    ParseKind(taskType).Some?
  }

  /**
   * `generate_task`: an unknown type is rejected before any request; a failed
   * request is a `RuntimeError`; unparsable JSON is a `ValueError`.
   */
  function GenerateTask(taskType: string, reply: ApiReply, parse: string -> Option<Content>): (r: Result<Content, AiError>)
    ensures !KnownTaskType(taskType) ==> r == Failure(ValueError(UnknownTaskType))
    ensures r == Failure(RuntimeError) <==> KnownTaskType(taskType) && reply.ApiFailure?
    ensures r == Failure(ValueError(InvalidJson))
            <==> KnownTaskType(taskType) && reply.Reply? && parse(StripFence(reply.text)).None?
    ensures r.Success? <==> KnownTaskType(taskType) && reply.Reply? && parse(StripFence(reply.text)).Some?
    ensures r.Success? ==> r.value == parse(StripFence(reply.text)).value
  {
    if !KnownTaskType(taskType) then Failure(ValueError(UnknownTaskType))
    else match reply
      case ApiFailure => Failure(RuntimeError)
      case Reply(text) =>
        match parse(StripFence(text))
        case None => Failure(ValueError(InvalidJson))
        case Some(content) => Success(content)
  }

  /** Every kind the scheduler draws from passes the type check. */
  lemma {:induction false} SchedulerKindsKnown(k: TaskKind, reply: ApiReply, parse: string -> Option<Content>)
    ensures KnownTaskType(KindName(k))
    ensures GenerateTask(KindName(k), reply, parse) != Failure(ValueError(UnknownTaskType))
  {
    KindNameRoundTrip(KindName(k), k);
  }

  /** The two kinds graded by the language model. */
  predicate IsTranslation(taskType: Option<string>) {
    taskType == Some(KindName(TranslationToEn)) || taskType == Some(KindName(TranslationToRu))
  }

  /** The closed-form comparison: equal after `strip().lower()` on both sides. */
  predicate ExactMatch(userAnswer: string, correctAnswer: string) {
    Lower(Strip(userAnswer)) == Lower(Strip(correctAnswer))
  }

  /** The comparison is symmetric and ignores surrounding whitespace and letter case of an answer. */
  lemma {:induction false} ExactMatchIgnoresCaseAndSpace(a: string, b: string)
    ensures ExactMatch(a, b) <==> ExactMatch(b, a)
    ensures ExactMatch(Strip(a), b) <==> ExactMatch(a, b)
    ensures ExactMatch(Lower(a), b) <==> ExactMatch(a, b)
  {
    var n := Lower(Strip(a));
    StripIdempotent(a);
    assert Lower(Strip(Strip(a))) == n;
    StripLowerCommute(a);
    LowerIdempotent(Strip(a));
    assert Lower(Strip(Lower(a))) == n;
  }

  /** An answer matches its own normal form. */
  lemma {:induction false} ExactMatchNormalForm(a: string)
    ensures ExactMatch(a, Lower(Strip(a)))
  {
    NormalizeIdempotent(a);
  }

  function ExactFeedback(isCorrect: bool, correctAnswer: string): string {
    if isCorrect then "Правильно!" else "Правильный ответ: " + correctAnswer
  }

  /**
   * `check_answer`.  Translation kinds go to the model (`reply`); every other kind
   * is graded by `ExactMatch` without any request.
   */
  function CheckAnswer(content: Content, userAnswer: string, correctAnswer: string,
                       reply: ApiReply, parse: string -> Option<Verdict>): (r: Result<Verdict, AiError>)
    ensures !IsTranslation(content.taskType)
            ==> r.Success?
                && r.value.isCorrect == Some(ExactMatch(userAnswer, correctAnswer))
                && r.value.feedback == Some(ExactFeedback(ExactMatch(userAnswer, correctAnswer), correctAnswer))
    ensures IsTranslation(content.taskType)
            ==> (r.Success? <==> reply.Reply? && parse(StripFence(reply.text)).Some?)
                && (r.Success? ==> r.value == parse(StripFence(reply.text)).value)
                && (reply.ApiFailure? ==> r == Failure(RuntimeError))
                && (reply.Reply? && r.Failure? ==> r == Failure(ValueError(InvalidJson)))
  {
    if !IsTranslation(content.taskType) then
      var ok := ExactMatch(userAnswer, correctAnswer);
      Success(Verdict(Some(ok), Some(ExactFeedback(ok, correctAnswer))))
    else match reply
      case ApiFailure => Failure(RuntimeError)
      case Reply(text) =>
        match parse(StripFence(text))
        case None => Failure(ValueError(InvalidJson))
        case Some(v) => Success(v)
  }

  /** Closed-form grading makes no request: the reply has no influence on the verdict. */
  lemma {:induction false} ExactGradingIgnoresReply(content: Content, userAnswer: string, correctAnswer: string,
                                                    r1: ApiReply, r2: ApiReply, parse: string -> Option<Verdict>)
    requires !IsTranslation(content.taskType)
    ensures CheckAnswer(content, userAnswer, correctAnswer, r1, parse)
            == CheckAnswer(content, userAnswer, correctAnswer, r2, parse)
  {
  }
}
