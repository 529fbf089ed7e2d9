/**
 * Record shapes of the four tables.  Timestamps are integer minutes; `None`
 * stands for SQL NULL.  Ids are assigned by the database (see `Crud.Database`).
 */
module Models {
  import opened Wrappers
  import LearningConfig

  datatype User = User(
    id: nat,
    telegramId: int,
    isActive: bool,
    intervalMinutes: int,
    doNotDisturbUntil: Option<int>)

  /** The row `create_user` inserts: inactive, the default interval, no do-not-disturb window. */
  function NewUser(id: nat, telegramId: int): User {
    User(id, telegramId, false, LearningConfig.DefaultIntervalMinutes, None)
  }

  datatype Word = Word(id: nat, wordEn: string, wordRu: string)

  datatype Progress = Progress(
    id: nat,
    userId: nat,
    wordId: nat,
    knowledgePercent: int,
    lastReviewedAt: Option<int>,
    nextReviewAt: int,
    correctAnswersCount: nat,
    totalAnswersCount: nat)

  /** The row `create_user_word_progress` inserts: unknown, never reviewed, due right away. */
  function NewProgress(id: nat, userId: nat, wordId: nat, now: int): Progress {
    Progress(id, userId, wordId, 0, None, now, 0, 0)
  }

  /** The four kinds of exercise the scheduler chooses from. */
  datatype TaskKind = TranslationToEn | TranslationToRu | MultipleChoiceEnToRu | MultipleChoiceRuToEn

  /** The `task_type` string of each kind. */
  function KindName(k: TaskKind): string {
    match k
    case TranslationToEn => "translation_to_en"
    case TranslationToRu => "translation_to_ru"
    case MultipleChoiceEnToRu => "multiple_choice_en_to_ru"
    case MultipleChoiceRuToEn => "multiple_choice_ru_to_en"
  }

  /** The kind a `task_type` string names, if any. */
  function ParseKind(s: string): Option<TaskKind> {
    if s == "translation_to_en" then Some(TranslationToEn)
    else if s == "translation_to_ru" then Some(TranslationToRu)
    else if s == "multiple_choice_en_to_ru" then Some(MultipleChoiceEnToRu)
    else if s == "multiple_choice_ru_to_en" then Some(MultipleChoiceRuToEn)
    else None
  }

  /** `KindName` and `ParseKind` are inverse: a string parses to a kind exactly when it is that kind's name. */
  lemma KindNameRoundTrip(s: string, k: TaskKind)
    ensures ParseKind(s) == Some(k) <==> s == KindName(k)
  {
  }

  /** The scheduler's list of task types, in the source's order. */
  const AllKinds: seq<TaskKind> := [TranslationToEn, TranslationToRu, MultipleChoiceEnToRu, MultipleChoiceRuToEn]

  /**
   * The generated exercise, as the JSON object the generator returned.  Each field
   * is what `dict.get` yields (`None` when absent); `options` defaults to `[]`.
   */
  datatype Content = Content(
    taskType: Option<string>,
    correctAnswerEn: Option<string>,
    correctAnswerRu: Option<string>,
    options: seq<string>,
    correctIndex: Option<int>)

  datatype Task = Task(
    id: nat,
    userId: nat,
    wordId: nat,
    taskType: string,
    content: Content,
    userAnswer: Option<string>,
    isCorrect: Option<bool>,
    aiFeedback: Option<string>,
    createdAt: int)

  /** A task is pending while its outcome is unset. */
  predicate Pending(t: Task) {
    t.isCorrect.None?
  }
}
