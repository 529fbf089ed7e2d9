/**
 * The two answer handlers: a free-text answer to a translation exercise and a
 * button press on a multiple-choice exercise.  Each reads the task, then writes
 * the task row and then the progress row, with early returns in between.
 */
module Answers {
  import opened Wrappers
  import opened PyStr
  import opened Models
  import opened Crud
  import opened AiService
  import Keyboards

  // ---------------------------------------------------------------- free text

  /** The menu labels the text handler's filter excludes. */
  const MenuLabels: seq<string> := [
    "🌅 Я проснулся", "😴 Лег спать", "⏸ Не беспокоить", "➕ Добавить слово", "📊 Моя статистика"
  ]

  /** The text handler's filter: non-empty text that is neither a command nor a menu label. */
  predicate IsAnswerText(text: string) {
    |text| > 0 && !StartsWith(text, "/") && text !in MenuLabels
  }

  /** Pressing a menu button is never taken for an answer. */
  lemma MenuPressIsNotAnswer(b: Keyboards.MenuButton)
    ensures !IsAnswerText(Keyboards.Label(b))
  {
    assert Keyboards.Label(b) in MenuLabels;
  }

  /** How an f-string renders an optional string. */
  function OptionText(o: Option<string>): string {
    match o
    case Some(s) => s
    case None => "None"
  }

  /** The reference answer handed to the checker: the English one for `translation_to_en`, else the Russian one. */
  function ReferenceAnswer(c: Content): (r: string)
    ensures c.taskType == Some(KindName(TranslationToEn)) ==> r == OptionText(c.correctAnswerEn)
    ensures c.taskType == Some(KindName(TranslationToRu)) ==> r == OptionText(c.correctAnswerRu)
  {
    if c.taskType == Some(KindName(TranslationToEn)) then OptionText(c.correctAnswerEn)
    else OptionText(c.correctAnswerRu)
  }

  /** Python truthiness of the stored outcome: only `True` counts as a right answer. */
  function Truthy(o: Option<bool>): bool {
    o == Some(true)
  }

  datatype TextReply =
    | NoActiveTask
    | ChoiceExpected
    | Graded(verdict: Verdict, knowledge: int)
    | CheckFailed

  /** What a handler leaves behind: its reply and the task and progress tables. */
  datatype Effect<R> = Effect(reply: R, tasks: seq<Task>, progress: seq<Progress>)

  /**
   * The effect of `handle_text_answer` for the user `userId` once that user exists.
   * The checker is the oracle `grade`, called with the task content, the answer and
   * the reference answer; `parse` stands for `json.loads`.
   */
  function TextAnswerEffect(tasks: seq<Task>, progress: seq<Progress>, userId: nat, text: string,
                            grade: (Content, string, string) -> ApiReply,
                            parse: string -> Option<Verdict>, now: int): Effect<TextReply>
  {
    match LastPendingTask(tasks, userId)
    case None => Effect(NoActiveTask, tasks, progress)
    case Some(t) =>
      if !IsTranslation(t.content.taskType) then Effect(ChoiceExpected, tasks, progress)
      else
        var answer := ReferenceAnswer(t.content);
        match CheckAnswer(t.content, text, answer, grade(t.content, text, answer), parse)
        case Failure(_) => Effect(CheckFailed, tasks, progress)
        case Success(v) =>
          var answered := TasksAfterAnswer(tasks, t.id, text, v.isCorrect, v.feedback);
          match FindProgress(progress, userId, t.wordId)
          case None => Effect(CheckFailed, answered, progress)
          case Some(row) =>
            Effect(Graded(v, ApplyReview(row, Truthy(v.isCorrect), now).knowledgePercent),
                   answered, ProgressAfterReview(progress, row.id, Truthy(v.isCorrect), now))
  }

  /**
   * Without a pending task, or with a pending multiple-choice task, or when the
   * checker fails, the handler only replies: both tables stay as they were, so the
   * pending task is still pending.
   */
  lemma {:induction false} TextAnswerGuards(tasks: seq<Task>, progress: seq<Progress>, userId: nat, text: string,
                                            grade: (Content, string, string) -> ApiReply,
                                            parse: string -> Option<Verdict>, now: int)
    ensures var e := TextAnswerEffect(tasks, progress, userId, text, grade, parse, now);
            && (LastPendingTask(tasks, userId).None? <==> e.reply == NoActiveTask)
            && (e.reply == NoActiveTask || e.reply == ChoiceExpected
                ==> e.tasks == tasks && e.progress == progress)
            && (e.reply == ChoiceExpected
                <==> LastPendingTask(tasks, userId).Some?
                     && !IsTranslation(LastPendingTask(tasks, userId).value.content.taskType))
            && (e.progress == progress || e.reply.Graded?)
            && (e.tasks == tasks ==> LastPendingTask(e.tasks, userId) == LastPendingTask(tasks, userId))
            && (LastPendingTask(tasks, userId).Some?
                && IsTranslation(LastPendingTask(tasks, userId).value.content.taskType)
                ==> var t := LastPendingTask(tasks, userId).value;
                    var answer := ReferenceAnswer(t.content);
                    CheckAnswer(t.content, text, answer, grade(t.content, text, answer), parse).Failure?
                    ==> e == Effect(CheckFailed, tasks, progress))
  {
  }

  /**
   * A graded answer: the newest pending task records the answer, the verdict and
   * the feedback, and stops being pending exactly when the verdict has an outcome;
   * the user's progress row for the task's word is updated once, and a missing or
   * non-true outcome counts as a wrong answer.
   */
  lemma {:induction false} TextAnswerGraded(tasks: seq<Task>, progress: seq<Progress>, userId: nat, text: string,
                                            grade: (Content, string, string) -> ApiReply,
                                            parse: string -> Option<Verdict>, now: int,
                                            userCount: nat, wordCount: nat)
    requires TasksWellFormed(tasks, userCount, wordCount)
    requires TextAnswerEffect(tasks, progress, userId, text, grade, parse, now).reply.Graded?
    ensures var e := TextAnswerEffect(tasks, progress, userId, text, grade, parse, now);
            var t := LastPendingTask(tasks, userId).value;
            var v := e.reply.verdict;
            var row := FindProgress(progress, userId, t.wordId);
            && IsTranslation(t.content.taskType)
            && TaskById(e.tasks, t.id) == Some(Answered(t, text, v.isCorrect, v.feedback))
            && (Pending(TaskById(e.tasks, t.id).value) <==> v.isCorrect.None?)
            && |e.tasks| == |tasks|
            && (forall i :: 0 <= i < |tasks| && i != t.id - 1 ==> e.tasks[i] == tasks[i])
            && row.Some?
            && e.progress == ProgressAfterReview(progress, row.value.id, v.isCorrect == Some(true), now)
            && e.reply.knowledge == NewKnowledge(row.value.knowledgePercent, v.isCorrect == Some(true))
  {
    var t := LastPendingTask(tasks, userId).value;
    TaskAt(tasks, t, userCount, wordCount);
  }

  /**
   * The part of `handle_text_answer` after the user `userId` is known.  The task
   * row is committed before the progress row is looked up, so a missing progress
   * row turns into an error reply after the task has been answered.
   */
  method AnswerText(db: Database, userId: nat, text: string,
                    grade: (Content, string, string) -> ApiReply,
                    parse: string -> Option<Verdict>, now: int)
    returns (reply: TextReply)
    requires db.Consistent()
    modifies db
    ensures db.Consistent()
    ensures db.users == old(db.users) && db.words == old(db.words)
    ensures var e := TextAnswerEffect(old(db.tasks), old(db.progress), userId, text, grade, parse, now);
            reply == e.reply && db.tasks == e.tasks && db.progress == e.progress
  {
    ghost var e := TextAnswerEffect(db.tasks, db.progress, userId, text, grade, parse, now);
    var pending := LastPendingTask(db.tasks, userId);
    if pending.None? {
      return NoActiveTask;
    }
    var task := pending.value;
    if !IsTranslation(task.content.taskType) {
      return ChoiceExpected;
    }
    var correctAnswer := ReferenceAnswer(task.content);
    var check := CheckAnswer(task.content, text, correctAnswer, grade(task.content, text, correctAnswer), parse);
    if check.Failure? {
      return CheckFailed;
    }
    var verdict := check.value;
    db.UpdateTaskHistoryAnswer(task.id, text, verdict.isCorrect, verdict.feedback);
    assert db.tasks == e.tasks;
    var progress := FindProgress(db.progress, userId, task.wordId);
    if progress.None? {
      // refreshing a missing row raises; the handler reports a checking error
      return CheckFailed;
    }
    ProgressAt(db.progress, progress.value, |db.users|, |db.words|);
    db.UpdateWordProgress(progress.value.id, Truthy(verdict.isCorrect), now);
    reply := Graded(verdict, db.progress[progress.value.id - 1].knowledgePercent);
  }

  /** `handle_text_answer`: the user row is ensured first; the rest is `TextAnswerEffect`. */
  method HandleTextAnswer(db: Database, telegramId: int, text: string,
                          grade: (Content, string, string) -> ApiReply,
                          parse: string -> Option<Verdict>, now: int)
    returns (reply: TextReply)
    requires db.Consistent()
    requires IsAnswerText(text)
    modifies db
    ensures db.Consistent()
    ensures db.users == WithUser(old(db.users), telegramId) && db.words == old(db.words)
    ensures FindUserByTelegramId(db.users, telegramId).Some?
    ensures var e := TextAnswerEffect(old(db.tasks), old(db.progress),
                                      FindUserByTelegramId(db.users, telegramId).value.id,
                                      text, grade, parse, now);
            reply == e.reply && db.tasks == e.tasks && db.progress == e.progress
  {
    var user := db.GetOrCreateUser(telegramId);
    reply := AnswerText(db, user.id, text, grade, parse, now);
  }

  // ---------------------------------------------------------------- multiple choice

  /** Python indexing `s[i]`: negative positions count from the end; outside the range it raises. */
  function PyIndex<T>(s: seq<T>, i: int): (r: Option<T>)
    ensures r.Some? <==> -|s| <= i < |s|
    ensures 0 <= i < |s| ==> r == Some(s[i])
    ensures -|s| <= i < 0 ==> r == Some(s[|s| + i])
  {
    if 0 <= i < |s| then Some(s[i])
    else if -|s| <= i < 0 then Some(s[|s| + i])
    else None
  }

  /** `parts = data.split("_")`, then `int(parts[1])` and `int(parts[2])`; `None` where Python raises. */
  function ParseAnswerCallback(data: string): Option<(int, int)> {
    var parts := Split(data, '_');
    if |parts| < 3 then None
    else match (ParseInt(parts[1]), ParseInt(parts[2]))
      case (Some(taskId), Some(index)) => Some((taskId, index))
      case _ => None
  }

  lemma DigitsHaveNoUnderscore(s: string)
    requires IsDigits(s)
    ensures '_' !in s
  {
    forall i | 0 <= i < |s|
      ensures s[i] != '_'
    {
      assert IsDigit(s[i]);
    }
  }

  /** Decoding the data of a keyboard button gives back its task id and option position. */
  lemma {:induction false} AnswerCallbackRoundTrip(taskId: nat, index: nat)
    ensures StartsWith(Keyboards.AnswerCallbackData(taskId, index), "answer_")
    ensures ParseAnswerCallback(Keyboards.AnswerCallbackData(taskId, index)) == Some((taskId, index))
  {
    var a := NatToString(taskId);
    var b := NatToString(index);
    var data := Keyboards.AnswerCallbackData(taskId, index);
    DigitsHaveNoUnderscore(a);
    DigitsHaveNoUnderscore(b);
    var parts := ["answer", a, b];
    assert parts[1..] == [a, b] && parts[1..][1..] == [b];
    assert Join(parts[1..], '_') == a + ['_'] + b;
    assert Join(parts, '_') == "answer" + ['_'] + (a + ['_'] + b);
    assert "answer" + ['_'] + (a + ['_'] + b) == data;
    SplitJoin(parts, '_');
    ParseIntOfNatToString(taskId);
    ParseIntOfNatToString(index);
  }

  /** Every button of a multiple-choice keyboard reaches this handler and names its own task and option. */
  lemma {:induction false} KeyboardAnswersRoundTrip(options: seq<string>, taskId: nat, i: nat)
    requires i < |options|
    ensures var button := Keyboards.MultipleChoiceKeyboard(options, taskId)[i];
            && button.text == options[i]
            && StartsWith(button.callbackData, "answer_")
            && ParseAnswerCallback(button.callbackData) == Some((taskId, i))
            && PyIndex(options, i) == Some(button.text)
  {
    AnswerCallbackRoundTrip(taskId, i);
  }

  function ChoiceFeedback(isCorrect: bool, correctAnswer: string): string {
    if isCorrect then "Правильно! ✅" else "Неправильно. Правильный ответ: " + correctAnswer
  }

  datatype ChoiceReply =
    | Crashed
    | TaskNotFound
    | AlreadyAnswered
    | Feedback(isCorrect: bool, feedback: string, knowledge: int)

  /**
   * The effect of `handle_multiple_choice_answer` for option `index` of task
   * `taskId`, answered by the user `userId` once that user exists.  Nothing checks
   * that the task belongs to that user; the progress row updated is the answering
   * user's.
   */
  function ChoiceAnswerEffect(tasks: seq<Task>, progress: seq<Progress>, userId: nat,
                              taskId: int, index: int, now: int): Effect<ChoiceReply>
  {
    match TaskById(tasks, taskId)
    case None => Effect(TaskNotFound, tasks, progress)
    case Some(t) =>
      if !Pending(t) then Effect(AlreadyAnswered, tasks, progress)
      else
        var options := t.content.options;
        var chosen := PyIndex(options, index);
        var right := if t.content.correctIndex.Some? then PyIndex(options, t.content.correctIndex.value) else None;
        if chosen.None? || right.None? then Effect(Crashed, tasks, progress)
        else
          var ok := t.content.correctIndex == Some(index);
          var feedback := ChoiceFeedback(ok, right.value);
          var answered := TasksAfterAnswer(tasks, t.id, chosen.value, Some(ok), Some(feedback));
          match FindProgress(progress, userId, t.wordId)
          case None => Effect(Crashed, answered, progress)
          case Some(row) =>
            Effect(Feedback(ok, feedback, ApplyReview(row, ok, now).knowledgePercent),
                   answered, ProgressAfterReview(progress, row.id, ok, now))
  }

  /** An unknown task id or an answered task only alerts: both tables stay as they were. */
  lemma {:induction false} ChoiceAnswerGuards(tasks: seq<Task>, progress: seq<Progress>, userId: nat,
                                              taskId: int, index: int, now: int)
    ensures var e := ChoiceAnswerEffect(tasks, progress, userId, taskId, index, now);
            && (e.reply == TaskNotFound <==> TaskById(tasks, taskId).None?)
            && (e.reply == AlreadyAnswered
                <==> TaskById(tasks, taskId).Some? && !Pending(TaskById(tasks, taskId).value))
            && (e.reply == TaskNotFound || e.reply == AlreadyAnswered ==> e.tasks == tasks && e.progress == progress)
  {
  }

  /**
   * A graded choice: correct exactly when the chosen position equals the stored
   * correct index; the task records the chosen option, the outcome and the
   * feedback and is no longer pending; the answering user's progress row for the
   * word is updated once with the same outcome.
   */
  lemma {:induction false} ChoiceAnswerGraded(tasks: seq<Task>, progress: seq<Progress>, userId: nat,
                                              taskId: int, index: int, now: int,
                                              userCount: nat, wordCount: nat)
    requires TasksWellFormed(tasks, userCount, wordCount)
    requires ChoiceAnswerEffect(tasks, progress, userId, taskId, index, now).reply.Feedback?
    ensures var e := ChoiceAnswerEffect(tasks, progress, userId, taskId, index, now);
            var t := TaskById(tasks, taskId).value;
            var row := FindProgress(progress, userId, t.wordId);
            && Pending(t)
            && (e.reply.isCorrect <==> t.content.correctIndex == Some(index))
            && TaskById(e.tasks, taskId).Some?
            && TaskById(e.tasks, taskId).value.userAnswer == PyIndex(t.content.options, index)
            && TaskById(e.tasks, taskId).value.isCorrect == Some(e.reply.isCorrect)
            && !Pending(TaskById(e.tasks, taskId).value)
            && row.Some?
            && e.progress == ProgressAfterReview(progress, row.value.id, e.reply.isCorrect, now)
  {
  }

  /** Once a choice has been recorded, any further press on the same task alerts and changes nothing. */
  lemma {:induction false} ChoiceAnsweredOnce(tasks: seq<Task>, progress: seq<Progress>, userId: nat,
                                              taskId: int, index: int, now: int,
                                              userId2: nat, index2: int, now2: int,
                                              userCount: nat, wordCount: nat)
    requires TasksWellFormed(tasks, userCount, wordCount)
    requires ChoiceAnswerEffect(tasks, progress, userId, taskId, index, now).tasks != tasks
    ensures var e := ChoiceAnswerEffect(tasks, progress, userId, taskId, index, now);
            var again := ChoiceAnswerEffect(e.tasks, e.progress, userId2, taskId, index2, now2);
            again == Effect(AlreadyAnswered, e.tasks, e.progress)
  {
    var t := TaskById(tasks, taskId).value;
    assert t.id == taskId;
  }

  /**
   * The part of `handle_multiple_choice_answer` after the answering user `userId`
   * is known: look the task up, guard, grade, then write the task row and then the
   * progress row.
   */
  method AnswerChoice(db: Database, userId: nat, taskId: int, selectedIndex: int, now: int)
    returns (reply: ChoiceReply)
    requires db.Consistent()
    modifies db
    ensures db.Consistent()
    ensures db.users == old(db.users) && db.words == old(db.words)
    ensures var e := ChoiceAnswerEffect(old(db.tasks), old(db.progress), userId, taskId, selectedIndex, now);
            reply == e.reply && db.tasks == e.tasks && db.progress == e.progress
  {
    ghost var e := ChoiceAnswerEffect(db.tasks, db.progress, userId, taskId, selectedIndex, now);
    var found := TaskById(db.tasks, taskId);
    if found.None? {
      return TaskNotFound;
    }
    var task := found.value;
    if task.isCorrect.Some? {
      return AlreadyAnswered;
    }
    var options := task.content.options;
    var correctIndex := task.content.correctIndex;
    var isCorrect := correctIndex == Some(selectedIndex);
    var userAnswer := PyIndex(options, selectedIndex);
    if userAnswer.None? || correctIndex.None? {
      return Crashed;
    }
    var correctAnswer := PyIndex(options, correctIndex.value);
    if correctAnswer.None? {
      return Crashed;
    }
    var feedback := ChoiceFeedback(isCorrect, correctAnswer.value);
    db.UpdateTaskHistoryAnswer(task.id, userAnswer.value, Some(isCorrect), Some(feedback));
    assert db.tasks == e.tasks;
    var progress := FindProgress(db.progress, userId, task.wordId);
    if progress.None? {
      return Crashed;
    }
    ProgressAt(db.progress, progress.value, |db.users|, |db.words|);
    db.UpdateWordProgress(progress.value.id, isCorrect, now);
    reply := Feedback(isCorrect, feedback, db.progress[progress.value.id - 1].knowledgePercent);
  }

  /**
   * `handle_multiple_choice_answer`.  Malformed data raises before anything is
   * stored; otherwise the user row is ensured first and the rest is
   * `ChoiceAnswerEffect`.
   */
  method HandleMultipleChoiceAnswer(db: Database, telegramId: int, data: string, now: int)
    returns (reply: ChoiceReply)
    requires db.Consistent()
    requires StartsWith(data, "answer_")
    modifies db
    ensures db.Consistent()
    ensures db.words == old(db.words)
    ensures ParseAnswerCallback(data).None?
            ==> reply == Crashed && db.users == old(db.users)
                && db.tasks == old(db.tasks) && db.progress == old(db.progress)
    ensures ParseAnswerCallback(data).Some?
            ==> db.users == WithUser(old(db.users), telegramId)
                && FindUserByTelegramId(db.users, telegramId).Some?
    ensures ParseAnswerCallback(data).Some?
            ==> var e := ChoiceAnswerEffect(old(db.tasks), old(db.progress),
                                            FindUserByTelegramId(db.users, telegramId).value.id,
                                            ParseAnswerCallback(data).value.0,
                                            ParseAnswerCallback(data).value.1, now);
                reply == e.reply && db.tasks == e.tasks && db.progress == e.progress
  {
    var parsed := ParseAnswerCallback(data);
    if parsed.None? {
      return Crashed;
    }
    var user := db.GetOrCreateUser(telegramId);
    reply := AnswerChoice(db, user.id, parsed.value.0, parsed.value.1, now);
  }
}
