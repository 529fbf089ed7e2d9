/**
 * The per-user job registry and the scheduled tick.  The timer itself is not
 * modelled: a tick is an explicit call at time `now`, the random task kind is the
 * parameter `kind`, and the generator's completion request is the oracle
 * `generate`, called with the word's English and Russian forms and the task type.
 */
module Scheduler {
  import opened Wrappers
  import opened PyStr
  import opened Models
  import opened Crud
  import opened AiService
  import opened Keyboards
  import ReviewQueue

  // ---------------------------------------------------------------- the registry

  /** A periodic job: it calls the tick for `userId` / `telegramId` every `intervalMinutes`. */
  datatype Job = Job(userId: nat, telegramId: int, intervalMinutes: int)

  /** `f"user_{user_id}"`. */
  function JobId(userId: nat): string {
    "user_" + NatToString(userId)
  }

  /** Different users get different job ids. */
  lemma {:induction false} JobIdInjective(a: nat, b: nat)
    requires JobId(a) == JobId(b)
    ensures a == b
  {
    assert JobId(a)[5..] == NatToString(a);
    assert JobId(b)[5..] == NatToString(b);
    NatToStringInjective(a, b);
  }

  /** Every job is filed under its own user's id. */
  ghost predicate KeysMatch(jobs: map<string, Job>) {
    forall id :: id in jobs ==> id == JobId(jobs[id].userId)
  }

  /** Jobs of `userId` in the registry: with matching keys there is at most one, under `JobId(userId)`. */
  lemma {:induction false} AtMostOneJobPerUser(jobs: map<string, Job>, userId: nat)
    requires KeysMatch(jobs)
    ensures forall id :: id in jobs && jobs[id].userId == userId ==> id == JobId(userId)
  {
  }

  /**
   * Starting a user's job leaves exactly one job of that user, with the new
   * settings, and the jobs of every other user untouched.
   */
  lemma {:induction false} StartLeavesOneJob(jobs: map<string, Job>, userId: nat, telegramId: int, interval: int)
    requires KeysMatch(jobs)
    ensures var after := jobs[JobId(userId) := Job(userId, telegramId, interval)];
            && KeysMatch(after)
            && (forall id :: id in after && after[id].userId == userId ==> id == JobId(userId))
            && after[JobId(userId)] == Job(userId, telegramId, interval)
            && (forall id :: id in jobs && jobs[id].userId != userId ==> id in after && after[id] == jobs[id])
  {
    forall id | id in jobs && jobs[id].userId != userId
      ensures id != JobId(userId)
    {
      if id == JobId(userId) {
        JobIdInjective(jobs[id].userId, userId);
      }
    }
  }

  /** Stopping removes the user's job, if any, and no other. */
  lemma {:induction false} StopRemovesOnlyThatUser(jobs: map<string, Job>, userId: nat)
    requires KeysMatch(jobs)
    ensures var after := jobs - {JobId(userId)};
            && KeysMatch(after)
            && (forall id :: id in after ==> after[id].userId != userId)
            && (forall id :: id in jobs && jobs[id].userId != userId ==> id in after && after[id] == jobs[id])
            && (JobId(userId) !in jobs ==> after == jobs)
  {
    forall id | id in jobs && jobs[id].userId != userId
      ensures id != JobId(userId)
    {
      if id == JobId(userId) {
        JobIdInjective(jobs[id].userId, userId);
      }
    }
  }

  /** The module-level scheduler: its jobs by id. */
  class JobRegistry {
    var jobs: map<string, Job>

    ghost predicate Valid()
      reads this
    {
      KeysMatch(jobs)
    }

    constructor ()
      ensures Valid() && jobs == map[]
    {
      jobs := map[];
    }
  }

  // ---------------------------------------------------------------- the tick

  /** What the tick sends to the user. */
  datatype Notice =
    | TranslationPrompt(kind: TaskKind)
    | ChoicePrompt(kind: TaskKind, keyboard: seq<InlineButton>)
    | AllReviewed
    | GenerationError

  /**
   * `_send_task_message`: dispatches on the `task_type` inside the generated content;
   * content of any other type sends nothing.
   */
  function TaskMessage(content: Content, taskId: nat): (r: Option<Notice>)
    ensures r.Some? <==> content.taskType.Some? && KnownTaskType(content.taskType.value)
    ensures r.Some? && r.value.ChoicePrompt? ==> r.value.keyboard == MultipleChoiceKeyboard(content.options, taskId)
    ensures r.Some? ==> (r.value.TranslationPrompt? || r.value.ChoicePrompt?)
    ensures r.Some? && r.value.TranslationPrompt? ==> content.taskType == Some(KindName(r.value.kind))
                                                      && IsTranslation(content.taskType)
    ensures r.Some? && r.value.ChoicePrompt? ==> content.taskType == Some(KindName(r.value.kind))
                                                 && !IsTranslation(content.taskType)
  {
    match content.taskType
    case None => None
    case Some(name) =>
      match ParseKind(name)
      case None => None
      case Some(k) =>
        KindNameRoundTrip(name, k);
        if k == TranslationToEn || k == TranslationToRu then Some(TranslationPrompt(k))
        else Some(ChoicePrompt(k, MultipleChoiceKeyboard(content.options, taskId)))
  }

  /** The gate: an active user outside any do-not-disturb window. */
  predicate Eligible(user: Option<User>, now: int) {
    && user.Some?
    && user.value.isActive
    && (user.value.doNotDisturbUntil.None? || now >= user.value.doNotDisturbUntil.value)
  }

  /** The decision one tick takes. */
  datatype TickPlan =
    | Skip
    | ReportAllReviewed
    | ReportGenerationError
    | Issue(row: Progress, word: Word, content: Content)

  /** Every progress row refers to a word of the table. */
  predicate WordsResolve(words: seq<Word>, rows: seq<Progress>) {
    forall i :: 0 <= i < |rows| ==> 0 < rows[i].wordId <= |words|
  }

  lemma ResolveMember(words: seq<Word>, rows: seq<Progress>, p: Progress)
    requires WordsResolve(words, rows) && p in rows
    ensures 0 < p.wordId <= |words|
  {
  }

  /**
   * `send_task_to_user` as a decision: `user` is the row found by Telegram id,
   * `rows` the progress table, `userId` the id the job was started with.
   */
  function PlanTick(user: Option<User>, words: seq<Word>, rows: seq<Progress>, userId: nat, now: int,
                    kind: TaskKind, generate: (string, string, string) -> ApiReply,
                    parse: string -> Option<Content>): TickPlan
    requires WordsResolve(words, rows)
  {
    if !Eligible(user, now) then Skip
    else
      var due := ReviewQueue.WordsForReview(rows, userId, now, 1);
      if due == [] then ReportAllReviewed
      else
        var row := due[0];
        ResolveMember(words, rows, row);
        var word := words[row.wordId - 1];
        match GenerateTask(KindName(kind), generate(word.wordEn, word.wordRu, KindName(kind)), parse)
        case Failure(_) => ReportGenerationError
        case Success(content) => Issue(row, word, content)
  }

  /** A missing or inactive user, or a tick inside the do-not-disturb window, does nothing; any other tick proceeds. */
  lemma {:induction false} TickGating(user: Option<User>, words: seq<Word>, rows: seq<Progress>, userId: nat, now: int,
                                      kind: TaskKind, generate: (string, string, string) -> ApiReply,
                                      parse: string -> Option<Content>)
    requires WordsResolve(words, rows)
    ensures user.None? || !user.value.isActive ==> PlanTick(user, words, rows, userId, now, kind, generate, parse) == Skip
    ensures user.Some? && user.value.doNotDisturbUntil.Some? && now < user.value.doNotDisturbUntil.value
            ==> PlanTick(user, words, rows, userId, now, kind, generate, parse) == Skip
    ensures PlanTick(user, words, rows, userId, now, kind, generate, parse) == Skip <==> !Eligible(user, now)
  {
  }

  /** An eligible tick reports "all reviewed" exactly when none of the user's rows is due. */
  lemma {:induction false} TickAllReviewed(user: Option<User>, words: seq<Word>, rows: seq<Progress>, userId: nat, now: int,
                                           kind: TaskKind, generate: (string, string, string) -> ApiReply,
                                           parse: string -> Option<Content>)
    requires WordsResolve(words, rows)
    requires Eligible(user, now)
    ensures PlanTick(user, words, rows, userId, now, kind, generate, parse) == ReportAllReviewed
            <==> forall p :: p in rows ==> !ReviewQueue.IsDue(p, userId, now)
  {
    ReviewQueue.NothingSelectedIffNoneDue(rows, userId, now, 1);
  }

  /**
   * An issued task is for the most urgent due row: the first of
   * `get_words_for_review(limit=1)`, ranked no later than any other due row, a
   * never-reviewed one whenever one is due, and about that row's word.
   */
  lemma {:induction false} TickIssuesMostUrgent(user: Option<User>, words: seq<Word>, rows: seq<Progress>, userId: nat,
                                                now: int, kind: TaskKind,
                                                generate: (string, string, string) -> ApiReply,
                                                parse: string -> Option<Content>)
    requires WordsResolve(words, rows)
    requires PlanTick(user, words, rows, userId, now, kind, generate, parse).Issue?
    ensures var plan := PlanTick(user, words, rows, userId, now, kind, generate, parse);
            && Eligible(user, now)
            && ReviewQueue.WordsForReview(rows, userId, now, 1) == [plan.row]
            && plan.row in rows && ReviewQueue.IsDue(plan.row, userId, now)
            && (forall p :: p in rows && ReviewQueue.IsDue(p, userId, now) ==> ReviewQueue.Before(plan.row, p))
            && ((exists p :: p in rows && ReviewQueue.IsDue(p, userId, now) && p.lastReviewedAt.None?)
                ==> plan.row.lastReviewedAt.None?)
            && plan.word == words[plan.row.wordId - 1]
            && GenerateTask(KindName(kind), generate(plan.word.wordEn, plan.word.wordRu, KindName(kind)), parse)
               == Success(plan.content)
  {
    var plan := PlanTick(user, words, rows, userId, now, kind, generate, parse);
    var r := ReviewQueue.WordsForReview(rows, userId, now, 1);
    var due := ReviewQueue.DueRows(rows, userId, now);
    assert r == [r[0]];
    forall p | p in rows && ReviewQueue.IsDue(p, userId, now)
      ensures ReviewQueue.Before(plan.row, p)
    {
      assert p in due;
      if p == plan.row {
        ReviewQueue.BeforeTotalPreorder(p, p, p);
      } else {
        assert p in multiset(due) - multiset(r);
      }
    }
    if exists p :: p in rows && ReviewQueue.IsDue(p, userId, now) && p.lastReviewedAt.None? {
      var p :| p in rows && ReviewQueue.IsDue(p, userId, now) && p.lastReviewedAt.None?;
      ReviewQueue.NewWordsFirst(rows, userId, now, p);
    }
  }

  /**
   * A do-not-disturb window of `minutes > 0` set at `start` silences every tick
   * before `start + minutes`, and an active user is served again from then on.
   */
  lemma {:induction false} DndSuppressesTicks(u: User, start: int, minutes: int, words: seq<Word>, rows: seq<Progress>,
                                              userId: nat, now: int, kind: TaskKind,
                                              generate: (string, string, string) -> ApiReply,
                                              parse: string -> Option<Content>)
    requires WordsResolve(words, rows)
    ensures var paused := u.(doNotDisturbUntil := Some(start + minutes));
            && (start <= now < start + minutes
                ==> PlanTick(Some(paused), words, rows, userId, now, kind, generate, parse) == Skip)
            && (u.isActive && now >= start + minutes
                ==> PlanTick(Some(paused), words, rows, userId, now, kind, generate, parse) != Skip)
  {
  }

  /** The task table after a tick: an issued task is appended, pending, and nothing else changes. */
  function TickTasks(tasks: seq<Task>, plan: TickPlan, userId: nat, kind: TaskKind, now: int): (r: seq<Task>)
    ensures plan.Issue? ==> |r| == |tasks| + 1 && r[..|tasks|] == tasks
                            && Pending(r[|tasks|]) && r[|tasks|].userId == userId
                            && r[|tasks|].content == plan.content
    ensures !plan.Issue? ==> r == tasks
  {
    if plan.Issue? then
      tasks + [Task(|tasks| + 1, userId, plan.word.id, KindName(kind), plan.content, None, None, None, now)]
    else tasks
  }

  /**
   * The tick does not look for a pending task: with one already waiting, an issued
   * task is a second pending task of the same user.
   */
  lemma {:induction false} TickIgnoresPendingTask(tasks: seq<Task>, plan: TickPlan, userId: nat, kind: TaskKind,
                                                  now: int, older: Task, userCount: nat, wordCount: nat)
    requires TasksWellFormed(tasks, userCount, wordCount)
    requires plan.Issue?
    requires older in tasks && Pending(older) && older.userId == userId
    ensures var after := TickTasks(tasks, plan, userId, kind, now);
            && older in after && after[|tasks|] != older
            && Pending(after[|tasks|]) && after[|tasks|].userId == userId
  {
    var after := TickTasks(tasks, plan, userId, kind, now);
    TaskAt(tasks, older, userCount, wordCount);
    assert after[older.id - 1] == older;
    assert after[|tasks|].id == |tasks| + 1;
  }

  /** The message a tick sends, given the id the new task received. */
  function TickNotice(plan: TickPlan, taskId: nat): Option<Notice> {
    match plan
    case Skip => None
    case ReportAllReviewed => Some(AllReviewed)
    case ReportGenerationError => Some(GenerationError)
    case Issue(_, _, content) => TaskMessage(content, taskId)
  }

  /**
   * The checks of `send_task_to_user`, step by step with its early returns: the
   * gate, the one most urgent due row, its word and the generation request.
   */
  method DecideTick(user: Option<User>, words: seq<Word>, rows: seq<Progress>, userId: nat, now: int,
                    kind: TaskKind, generate: (string, string, string) -> ApiReply,
                    parse: string -> Option<Content>)
    returns (plan: TickPlan)
    requires WordsResolve(words, rows)
    ensures plan == PlanTick(user, words, rows, userId, now, kind, generate, parse)
  {
    ghost var spec := PlanTick(user, words, rows, userId, now, kind, generate, parse);
    if user.None? || !user.value.isActive {
      return Skip;
    }
    if user.value.doNotDisturbUntil.Some? {
      if now < user.value.doNotDisturbUntil.value {
        return Skip;
      }
    }
    var wordsProgress := ReviewQueue.WordsForReview(rows, userId, now, 1);
    assert Eligible(user, now);
    if wordsProgress == [] {
      return ReportAllReviewed;
    }
    var progress := wordsProgress[0];
    ResolveMember(words, rows, progress);
    var word := words[progress.wordId - 1];
    var taskType := KindName(kind);
    var taskData := GenerateTask(taskType, generate(word.wordEn, word.wordRu, taskType), parse);
    assert spec == (if taskData.Failure? then ReportGenerationError else Issue(progress, word, taskData.value));
    if taskData.Failure? {
      return ReportGenerationError;
    }
    plan := Issue(progress, word, taskData.value);
  }

  /** An issued plan is about a due row of `userId` and the word that row refers to. */
  lemma {:induction false} IssuedRowResolves(user: Option<User>, words: seq<Word>, rows: seq<Progress>, userId: nat,
                                             now: int, kind: TaskKind,
                                             generate: (string, string, string) -> ApiReply,
                                             parse: string -> Option<Content>)
    requires WordsResolve(words, rows)
    requires PlanTick(user, words, rows, userId, now, kind, generate, parse).Issue?
    ensures var plan := PlanTick(user, words, rows, userId, now, kind, generate, parse);
            && plan.row in rows && plan.row.userId == userId
            && 0 < plan.row.wordId <= |words| && plan.word == words[plan.row.wordId - 1]
  {
    var r := ReviewQueue.WordsForReview(rows, userId, now, 1);
    assert r[0] in r;
  }

  /**
   * `send_task_to_user`.  Only the task table changes, as `PlanTick` decides; a
   * failed generation stores nothing.
   */
  method SendTaskToUser(db: Database, userId: nat, telegramId: int, now: int, kind: TaskKind,
                        generate: (string, string, string) -> ApiReply, parse: string -> Option<Content>)
    returns (notice: Option<Notice>)
    requires db.Consistent()
    modifies db
    ensures db.Consistent()
    ensures db.users == old(db.users) && db.words == old(db.words) && db.progress == old(db.progress)
    ensures var plan := PlanTick(FindUserByTelegramId(db.users, telegramId), db.words, db.progress,
                                 userId, now, kind, generate, parse);
            && db.tasks == TickTasks(old(db.tasks), plan, userId, kind, now)
            && notice == TickNotice(plan, |old(db.tasks)| + 1)
  {
    assert WordsResolve(db.words, db.progress);
    var user := FindUserByTelegramId(db.users, telegramId);
    var plan := DecideTick(user, db.words, db.progress, userId, now, kind, generate, parse);
    if plan.Issue? {
      IssuedRowResolves(user, db.words, db.progress, userId, now, kind, generate, parse);
      ProgressAt(db.progress, plan.row, |db.users|, |db.words|);
      WordAt(db.words, plan.word);
      ghost var before := db.tasks;
      notice := IssueTask(db, userId, plan.word.id, kind, plan.content, now);
      assert db.tasks == TickTasks(before, plan, userId, kind, now);
    } else {
      notice := TickNotice(plan, |db.tasks| + 1);
    }
  }

  /** The last step of an issuing tick: store the task, then build its message. */
  method IssueTask(db: Database, userId: nat, wordId: nat, kind: TaskKind, content: Content, now: int)
    returns (notice: Option<Notice>)
    requires db.Consistent()
    requires 0 < userId <= |db.users| && 0 < wordId <= |db.words|
    modifies db
    ensures db.Consistent()
    ensures db.users == old(db.users) && db.words == old(db.words) && db.progress == old(db.progress)
    ensures db.tasks == old(db.tasks) + [Task(|old(db.tasks)| + 1, userId, wordId, KindName(kind), content,
                                              None, None, None, now)]
    ensures notice == TaskMessage(content, |old(db.tasks)| + 1)
  {
    var task := db.CreateTaskHistory(userId, wordId, KindName(kind), content, now);
    notice := TaskMessage(content, task.id);
  }

  /**
   * The registry half of `start_user_scheduler`: remove the user's job if there is
   * one, then add the new one under the same id.
   */
  method ReplaceJob(registry: JobRegistry, userId: nat, telegramId: int, intervalMinutes: int)
    requires registry.Valid()
    modifies registry
    ensures registry.Valid()
    ensures registry.jobs == old(registry.jobs)[JobId(userId) := Job(userId, telegramId, intervalMinutes)]
  {
    var jobId := JobId(userId);
    StartLeavesOneJob(registry.jobs, userId, telegramId, intervalMinutes);
    if jobId in registry.jobs {
      registry.jobs := registry.jobs - {jobId};
    }
    registry.jobs := registry.jobs[jobId := Job(userId, telegramId, intervalMinutes)];
  }

  /**
   * `start_user_scheduler`: replaces the user's job with one at the given interval,
   * then runs one tick at once, gated like every other tick.
   */
  method StartUserScheduler(registry: JobRegistry, db: Database, userId: nat, telegramId: int, intervalMinutes: int,
                            now: int, kind: TaskKind,
                            generate: (string, string, string) -> ApiReply, parse: string -> Option<Content>)
    returns (notice: Option<Notice>)
    requires registry.Valid() && db.Consistent()
    modifies registry, db
    ensures registry.Valid() && db.Consistent()
    ensures registry.jobs == old(registry.jobs)[JobId(userId) := Job(userId, telegramId, intervalMinutes)]
    ensures db.users == old(db.users) && db.words == old(db.words) && db.progress == old(db.progress)
    ensures var plan := PlanTick(FindUserByTelegramId(db.users, telegramId), db.words, db.progress,
                                 userId, now, kind, generate, parse);
            && db.tasks == TickTasks(old(db.tasks), plan, userId, kind, now)
            && notice == TickNotice(plan, |old(db.tasks)| + 1)
  {
    ReplaceJob(registry, userId, telegramId, intervalMinutes);
    notice := SendTaskToUser(db, userId, telegramId, now, kind, generate, parse);
  }

  /** `stop_user_scheduler`: removes the user's job if there is one. */
  method StopUserScheduler(registry: JobRegistry, userId: nat)
    requires registry.Valid()
    modifies registry
    ensures registry.Valid()
    ensures registry.jobs == old(registry.jobs) - {JobId(userId)}
  {
    var jobId := JobId(userId);
    StopRemovesOnlyThatUser(registry.jobs, userId);
    if jobId in registry.jobs {
      registry.jobs := registry.jobs - {jobId};
    }
  }
}
