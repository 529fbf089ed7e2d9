/**
 * The database layer: the four tables as sequences inside `Database`, the
 * queries as functions over those sequences, and the inserts and updates as
 * methods.  Rows are never deleted and ids are autoincremented, so the row
 * with id `n` is element `n - 1` of its table.
 */
module Crud {
  import opened Wrappers
  import opened PyStr
  import opened Models
  import opened LearningConfig
  import ReviewQueue

  /** A `UNIQUE` constraint rejected an insert. */
  datatype DbError = IntegrityError

  // ------------------------------------------------------------ table invariants

  /** Ids are 1, 2, ...; `telegram_id` is unique. */
  ghost predicate UsersWellFormed(users: seq<User>) {
    && (forall i :: 0 <= i < |users| ==> users[i].id == i + 1)
    && (forall i, j :: 0 <= i < j < |users| ==> users[i].telegramId != users[j].telegramId)
  }

  /** Ids are 1, 2, ...; `word_en` is unique. */
  ghost predicate WordsWellFormed(words: seq<Word>) {
    && (forall i :: 0 <= i < |words| ==> words[i].id == i + 1)
    && (forall i, j :: 0 <= i < j < |words| ==> words[i].wordEn != words[j].wordEn)
  }

  /** Ids are 1, 2, ...; each row references a user and a word; knowledge stays in 0..100. */
  ghost predicate ProgressWellFormed(ps: seq<Progress>, userCount: nat, wordCount: nat) {
    forall i :: 0 <= i < |ps| ==>
      && ps[i].id == i + 1
      && 0 < ps[i].userId <= userCount
      && 0 < ps[i].wordId <= wordCount
      && MinKnowledge <= ps[i].knowledgePercent <= MaxKnowledge
  }

  /** Ids are 1, 2, ...; each task references a user and a word. */
  ghost predicate TasksWellFormed(ts: seq<Task>, userCount: nat, wordCount: nat) {
    forall i :: 0 <= i < |ts| ==>
      && ts[i].id == i + 1
      && 0 < ts[i].userId <= userCount
      && 0 < ts[i].wordId <= wordCount
  }

  /**
   * At most one progress row per (user, word).  The schema does not enforce this;
   * every caller of `create_user_word_progress` checks first.
   */
  ghost predicate ProgressUnique(ps: seq<Progress>) {
    forall i, j :: 0 <= i < j < |ps| ==> !(ps[i].userId == ps[j].userId && ps[i].wordId == ps[j].wordId)
  }

  lemma UserAt(users: seq<User>, u: User)
    requires UsersWellFormed(users) && u in users
    ensures 0 < u.id <= |users| && users[u.id - 1] == u
  {
  }

  lemma WordAt(words: seq<Word>, w: Word)
    requires WordsWellFormed(words) && w in words
    ensures 0 < w.id <= |words| && words[w.id - 1] == w
  {
  }

  lemma ProgressAt(ps: seq<Progress>, p: Progress, userCount: nat, wordCount: nat)
    requires ProgressWellFormed(ps, userCount, wordCount) && p in ps
    ensures 0 < p.id <= |ps| && ps[p.id - 1] == p
  {
  }

  lemma TaskAt(ts: seq<Task>, t: Task, userCount: nat, wordCount: nat)
    requires TasksWellFormed(ts, userCount, wordCount) && t in ts
    ensures 0 < t.id <= |ts| && ts[t.id - 1] == t
  {
  }

  // ------------------------------------------------------------ lookups

  /** `get_user_by_telegram_id`. */
  function FindUserByTelegramId(users: seq<User>, telegramId: int): (r: Option<User>)
    ensures r.Some? ==> r.value in users && r.value.telegramId == telegramId
    ensures r.None? ==> forall u :: u in users ==> u.telegramId != telegramId
  {
    if users == [] then None
    else if users[0].telegramId == telegramId then Some(users[0])
    else FindUserByTelegramId(users[1..], telegramId)
  }

  /** The form in which English words are stored and looked up: `lower().strip()`. */
  function NormalizeEn(s: string): string {
    Strip(Lower(s))
  }

  /** `get_word_by_en`: the lookup normalises its argument the same way `create_word` does. */
  function FindWordByEn(words: seq<Word>, wordEn: string): (r: Option<Word>)
    ensures r.Some? ==> r.value in words && r.value.wordEn == NormalizeEn(wordEn)
    ensures r.None? ==> forall w :: w in words ==> w.wordEn != NormalizeEn(wordEn)
  {
    if words == [] then None
    else if words[0].wordEn == NormalizeEn(wordEn) then Some(words[0])
    else FindWordByEn(words[1..], wordEn)
  }

  /** `get_user_word_progress`. */
  function FindProgress(ps: seq<Progress>, userId: nat, wordId: nat): (r: Option<Progress>)
    ensures r.Some? ==> r.value in ps && r.value.userId == userId && r.value.wordId == wordId
    ensures r.None? ==> forall p :: p in ps ==> !(p.userId == userId && p.wordId == wordId)
  {
    if ps == [] then None
    else if ps[0].userId == userId && ps[0].wordId == wordId then Some(ps[0])
    else FindProgress(ps[1..], userId, wordId)
  }

  /** `session.get(TaskHistory, id)`. */
  function TaskById(ts: seq<Task>, id: int): Option<Task> {
    if 0 < id <= |ts| then Some(ts[id - 1]) else None
  }

  /** The user table after `get_or_create_user(telegramId)`. */
  function WithUser(users: seq<User>, telegramId: int): seq<User> {
    if FindUserByTelegramId(users, telegramId).Some? then users
    else users + [NewUser(|users| + 1, telegramId)]
  }

  /**
   * `get_or_create_user` is idempotent: after the first call the user exists, and
   * a second call neither creates a row nor picks a different one.
   */
  lemma {:induction false} WithUserIdempotent(users: seq<User>, telegramId: int)
    ensures FindUserByTelegramId(WithUser(users, telegramId), telegramId).Some?
    ensures WithUser(WithUser(users, telegramId), telegramId) == WithUser(users, telegramId)
    ensures FindUserByTelegramId(users, telegramId).None?
            ==> FindUserByTelegramId(WithUser(users, telegramId), telegramId)
                == Some(NewUser(|users| + 1, telegramId))
  {
    if FindUserByTelegramId(users, telegramId).None? {
      FindUserAfterAppend(users, NewUser(|users| + 1, telegramId));
    }
  }

  /** The word table after `get_or_create_word(wordEn, wordRu)`. */
  function WithWord(words: seq<Word>, wordEn: string, wordRu: string): seq<Word> {
    if FindWordByEn(words, wordEn).Some? then words
    else words + [Word(|words| + 1, NormalizeEn(wordEn), Strip(wordRu))]
  }

  /**
   * `get_or_create_word` is idempotent, and a word that already exists keeps its
   * stored translation whatever translation is offered.
   */
  lemma {:induction false} WithWordIdempotent(words: seq<Word>, wordEn: string, wordRu: string, otherRu: string)
    ensures FindWordByEn(WithWord(words, wordEn, wordRu), wordEn).Some?
    ensures WithWord(WithWord(words, wordEn, wordRu), wordEn, otherRu) == WithWord(words, wordEn, wordRu)
    ensures FindWordByEn(words, wordEn).Some? ==> WithWord(words, wordEn, otherRu) == words
    ensures FindWordByEn(words, wordEn).None?
            ==> FindWordByEn(WithWord(words, wordEn, wordRu), wordEn).value.wordRu == Strip(wordRu)
  {
    if FindWordByEn(words, wordEn).None? {
      FindWordAfterAppend(words, Word(|words| + 1, NormalizeEn(wordEn), Strip(wordRu)), wordEn);
    }
  }

  /** Looking a word up by any spelling with the same normal form finds the same row. */
  lemma {:induction false} FindWordByNormalForm(words: seq<Word>, wordEn: string)
    ensures FindWordByEn(words, NormalizeEn(wordEn)) == FindWordByEn(words, wordEn)
  {
    NormalizeTwice(wordEn);
    FindWordSameKey(words, NormalizeEn(wordEn), wordEn);
  }

  // ------------------------------------------------------------ mastery update

  function Min(a: int, b: int): int { if a <= b then a else b }
  function Max(a: int, b: int): int { if a >= b then a else b }

  /** The knowledge score after one answer. */
  function NewKnowledge(k: int, isCorrect: bool): (r: int)
    ensures MinKnowledge <= k <= MaxKnowledge ==> MinKnowledge <= r <= MaxKnowledge
    ensures isCorrect ==> r <= MaxKnowledge && r <= k + CorrectAnswerBoost
    ensures isCorrect && k <= MaxKnowledge ==> k <= r
    ensures !isCorrect ==> r >= MinKnowledge && r >= k - IncorrectAnswerPenalty
    ensures !isCorrect && k >= MinKnowledge ==> r <= k
    ensures isCorrect && k + CorrectAnswerBoost <= MaxKnowledge ==> r == k + CorrectAnswerBoost
    ensures isCorrect && k + CorrectAnswerBoost > MaxKnowledge ==> r == MaxKnowledge
    ensures !isCorrect && k - IncorrectAnswerPenalty >= MinKnowledge ==> r == k - IncorrectAnswerPenalty
    ensures !isCorrect && k - IncorrectAnswerPenalty < MinKnowledge ==> r == MinKnowledge
  {
    if isCorrect then Min(MaxKnowledge, k + CorrectAnswerBoost)
    else Max(MinKnowledge, k - IncorrectAnswerPenalty)
  }

  /** The row `update_word_progress` leaves behind after an answer at time `now`. */
  function ApplyReview(p: Progress, isCorrect: bool, now: int): (r: Progress)
    ensures r.id == p.id && r.userId == p.userId && r.wordId == p.wordId
    ensures r.totalAnswersCount == p.totalAnswersCount + 1
    ensures r.correctAnswersCount == p.correctAnswersCount + (if isCorrect then 1 else 0)
    ensures MinKnowledge <= p.knowledgePercent <= MaxKnowledge
            ==> MinKnowledge <= r.knowledgePercent <= MaxKnowledge
    ensures r.knowledgePercent == NewKnowledge(p.knowledgePercent, isCorrect)
    ensures r.lastReviewedAt == Some(now)
    ensures r.nextReviewAt == now + ReviewIntervalMinutes(r.knowledgePercent)
    ensures r.nextReviewAt > now
  {
    var k := NewKnowledge(p.knowledgePercent, isCorrect);
    p.(totalAnswersCount := p.totalAnswersCount + 1,
       correctAnswersCount := p.correctAnswersCount + (if isCorrect then 1 else 0),
       knowledgePercent := k,
       lastReviewedAt := Some(now),
       nextReviewAt := now + ReviewIntervalMinutes(k))
  }

  /**
   * The due time `update_word_progress` sets, by the band the new score falls in:
   * half an hour, four hours, a day, three days or a week after the answer.
   */
  lemma {:induction false} ReviewDueByBand(p: Progress, isCorrect: bool, now: int)
    requires MinKnowledge <= p.knowledgePercent <= MaxKnowledge
    ensures var r := ApplyReview(p, isCorrect, now);
            var k := r.knowledgePercent;
            && (k <= 20 ==> r.nextReviewAt == now + 30)
            && (21 <= k <= 50 ==> r.nextReviewAt == now + 240)
            && (51 <= k <= 70 ==> r.nextReviewAt == now + 1440)
            && (71 <= k <= 89 ==> r.nextReviewAt == now + 4320)
            && (90 <= k ==> r.nextReviewAt == now + 10080)
  {
    ReviewIntervalByBand(ApplyReview(p, isCorrect, now).knowledgePercent);
  }

  /**
   * A fresh word answered correctly: knowledge 15, still in the lowest band, so
   * due again 30 minutes later, with one answer of which one right.
   */
  lemma {:induction false} FirstCorrectAnswer(id: nat, userId: nat, wordId: nat, created: int, now: int)
    ensures var r := ApplyReview(NewProgress(id, userId, wordId, created), true, now);
            && r.knowledgePercent == 15
            && r.nextReviewAt == now + 30
            && r.totalAnswersCount == 1 && r.correctAnswersCount == 1
            && r.lastReviewedAt == Some(now)
  {
    ReviewIntervalByBand(15);
  }

  /** A fresh word answered wrongly stays at 0 and is due again after 30 minutes. */
  lemma {:induction false} FirstWrongAnswer(id: nat, userId: nat, wordId: nat, created: int, now: int)
    ensures var r := ApplyReview(NewProgress(id, userId, wordId, created), false, now);
            && r.knowledgePercent == 0
            && r.nextReviewAt == now + 30
            && r.totalAnswersCount == 1 && r.correctAnswersCount == 0
  {
    ReviewIntervalByBand(0);
  }

  /** The outcome fields `update_task_history_answer` writes; nothing else of the task changes. */
  function Answered(t: Task, answer: string, isCorrect: Option<bool>, feedback: Option<string>): Task {
    t.(userAnswer := Some(answer), isCorrect := isCorrect, aiFeedback := feedback)
  }

  /** The progress table after `update_word_progress(progressId, ...)`: an unknown id changes nothing. */
  function ProgressAfterReview(ps: seq<Progress>, progressId: int, isCorrect: bool, now: int): seq<Progress> {
    if 0 < progressId <= |ps| then ps[progressId - 1 := ApplyReview(ps[progressId - 1], isCorrect, now)] else ps
  }

  /** The task table after `update_task_history_answer(taskId, ...)`: an unknown id changes nothing. */
  function TasksAfterAnswer(ts: seq<Task>, taskId: int, answer: string,
                            isCorrect: Option<bool>, feedback: Option<string>): seq<Task> {
    if 0 < taskId <= |ts| then ts[taskId - 1 := Answered(ts[taskId - 1], answer, isCorrect, feedback)] else ts
  }

  // ------------------------------------------------------------ pending task

  predicate PendingOf(t: Task, userId: nat) {
    t.userId == userId && Pending(t)
  }

  /**
   * `get_last_pending_task`: the user's pending task with the latest `created_at`
   * (among equal timestamps, the later row), or none when the user has none pending.
   */
  function LastPendingTask(ts: seq<Task>, userId: nat): (r: Option<Task>)
    ensures r.None? <==> forall t :: t in ts ==> !PendingOf(t, userId)
    ensures r.Some? ==> r.value in ts && PendingOf(r.value, userId)
    ensures r.Some? ==> forall t :: t in ts && PendingOf(t, userId) ==> t.createdAt <= r.value.createdAt
  {
    if ts == [] then None
    else
      var init := ts[..|ts| - 1];
      var last := ts[|ts| - 1];
      assert ts == init + [last];
      var best := LastPendingTask(init, userId);
      if PendingOf(last, userId) && (best.None? || best.value.createdAt <= last.createdAt) then Some(last)
      else best
  }

  // ------------------------------------------------------------ statistics

  /** The counters of `get_user_statistics` (the average is not modelled). */
  datatype Statistics = Statistics(totalWords: nat, learnedWords: nat, inProgressWords: nat, newWords: nat)

  function RowsOf(ps: seq<Progress>, userId: nat): (r: seq<Progress>)
    ensures forall p :: p in r <==> p in ps && p.userId == userId
  {
    if ps == [] then []
    else if ps[0].userId == userId then [ps[0]] + RowsOf(ps[1..], userId)
    else RowsOf(ps[1..], userId)
  }

  function CountLearned(ps: seq<Progress>): nat {
    if ps == [] then 0 else (if ps[0].knowledgePercent >= 90 then 1 else 0) + CountLearned(ps[1..])
  }

  function CountInProgress(ps: seq<Progress>): nat {
    if ps == [] then 0 else (if 0 < ps[0].knowledgePercent < 90 then 1 else 0) + CountInProgress(ps[1..])
  }

  function CountNew(ps: seq<Progress>): nat {
    if ps == [] then 0 else (if ps[0].knowledgePercent == 0 then 1 else 0) + CountNew(ps[1..])
  }

  /** `get_user_statistics`, counts only. */
  function UserStatistics(ps: seq<Progress>, userId: nat): Statistics {
    var mine := RowsOf(ps, userId);
    Statistics(|mine|, CountLearned(mine), CountInProgress(mine), CountNew(mine))
  }

  lemma {:induction false} CountsPartition(ps: seq<Progress>)
    requires forall p :: p in ps ==> p.knowledgePercent >= MinKnowledge
    ensures CountLearned(ps) + CountInProgress(ps) + CountNew(ps) == |ps|
  {
    if ps != [] {
      assert ps[0] in ps;
      assert forall p :: p in ps[1..] ==> p in ps;
      CountsPartition(ps[1..]);
    }
  }

  /** Learned, in-progress and new words partition the user's rows when no score is negative. */
  lemma {:induction false} StatisticsPartition(ps: seq<Progress>, userId: nat)
    requires forall p :: p in ps ==> p.knowledgePercent >= MinKnowledge
    ensures var s := UserStatistics(ps, userId);
            s.learnedWords + s.inProgressWords + s.newWords == s.totalWords
  {
    CountsPartition(RowsOf(ps, userId));
  }

  // ------------------------------------------------------------ the database

  class Database {
    var users: seq<User>
    var words: seq<Word>
    var progress: seq<Progress>
    var tasks: seq<Task>

    /** The schema's constraints: ids, foreign keys, unique columns, the knowledge range. */
    ghost predicate Valid()
      reads this
    {
      && UsersWellFormed(users)
      && WordsWellFormed(words)
      && ProgressWellFormed(progress, |users|, |words|)
      && TasksWellFormed(tasks, |users|, |words|)
    }

    /** What the application maintains on top of the schema: one progress row per (user, word). */
    ghost predicate Consistent()
      reads this
    {
      Valid() && ProgressUnique(progress)
    }

    constructor ()
      ensures Consistent()
      ensures users == [] && words == [] && progress == [] && tasks == []
    {
      users, words, progress, tasks := [], [], [], [];
    }

    // ---------------------------------------------------------- users

    /** `create_user`: inserts an inactive user; a second user with the same `telegram_id` is rejected. */
    method CreateUser(telegramId: int) returns (r: Result<User, DbError>)
      requires Valid()
      modifies this
      ensures Valid()
      ensures words == old(words) && progress == old(progress) && tasks == old(tasks)
      ensures old(FindUserByTelegramId(users, telegramId)).Some?
              ==> r == Failure(IntegrityError) && users == old(users)
      ensures old(FindUserByTelegramId(users, telegramId)).None?
              ==> r == Success(NewUser(|old(users)| + 1, telegramId)) && users == old(users) + [r.value]
    {
      if FindUserByTelegramId(users, telegramId).Some? {
        return Failure(IntegrityError);
      }
      var u := NewUser(|users| + 1, telegramId);
      users := users + [u];
      r := Success(u);
    }

    /** `get_or_create_user`: the existing user for `telegramId`, else a freshly created one. */
    method GetOrCreateUser(telegramId: int) returns (u: User)
      requires Valid()
      modifies this
      ensures Valid()
      ensures words == old(words) && progress == old(progress) && tasks == old(tasks)
      ensures u.telegramId == telegramId && 0 < u.id <= |users| && users[u.id - 1] == u
      ensures FindUserByTelegramId(users, telegramId) == Some(u)
      ensures users == WithUser(old(users), telegramId)
      ensures old(FindUserByTelegramId(users, telegramId)).Some?
              ==> u == old(FindUserByTelegramId(users, telegramId)).value
    {
      var found := FindUserByTelegramId(users, telegramId);
      if found.Some? {
        u := found.value;
        UserAt(users, u);
      } else {
        var r := CreateUser(telegramId);
        u := r.value;
        FindUserAfterAppend(old(users), u);
      }
    }

    /** `update_user_active_status`: an unknown id updates nothing. */
    method UpdateUserActiveStatus(userId: int, isActive: bool)
      requires Valid()
      modifies this
      ensures Valid()
      ensures words == old(words) && progress == old(progress) && tasks == old(tasks)
      ensures users == if 0 < userId <= |old(users)|
                       then old(users)[userId - 1 := old(users)[userId - 1].(isActive := isActive)]
                       else old(users)
    {
      if 0 < userId <= |users| {
        users := users[userId - 1 := users[userId - 1].(isActive := isActive)];
      }
    }

    /** `set_do_not_disturb`: no task is sent to the user before `now + minutes`. */
    method SetDoNotDisturb(userId: int, minutes: int, now: int)
      requires Valid()
      modifies this
      ensures Valid()
      ensures words == old(words) && progress == old(progress) && tasks == old(tasks)
      ensures users == if 0 < userId <= |old(users)|
                       then old(users)[userId - 1 := old(users)[userId - 1].(doNotDisturbUntil := Some(now + minutes))]
                       else old(users)
    {
      if 0 < userId <= |users| {
        users := users[userId - 1 := users[userId - 1].(doNotDisturbUntil := Some(now + minutes))];
      }
    }

    /** `clear_do_not_disturb`. */
    method ClearDoNotDisturb(userId: int)
      requires Valid()
      modifies this
      ensures Valid()
      ensures words == old(words) && progress == old(progress) && tasks == old(tasks)
      ensures users == if 0 < userId <= |old(users)|
                       then old(users)[userId - 1 := old(users)[userId - 1].(doNotDisturbUntil := None)]
                       else old(users)
    {
      if 0 < userId <= |users| {
        users := users[userId - 1 := users[userId - 1].(doNotDisturbUntil := None)];
      }
    }

    // ---------------------------------------------------------- words

    /** `create_word`: stores `lower().strip()` of the English and `strip()` of the Russian. */
    method CreateWord(wordEn: string, wordRu: string) returns (r: Result<Word, DbError>)
      requires Valid()
      modifies this
      ensures Valid()
      ensures users == old(users) && progress == old(progress) && tasks == old(tasks)
      ensures old(FindWordByEn(words, wordEn)).Some? ==> r == Failure(IntegrityError) && words == old(words)
      ensures old(FindWordByEn(words, wordEn)).None?
              ==> r == Success(Word(|old(words)| + 1, NormalizeEn(wordEn), Strip(wordRu)))
                  && words == old(words) + [r.value]
    {
      if FindWordByEn(words, wordEn).Some? {
        return Failure(IntegrityError);
      }
      var w := Word(|words| + 1, NormalizeEn(wordEn), Strip(wordRu));
      words := words + [w];
      r := Success(w);
    }

    /** `get_or_create_word`: an existing word keeps its stored translation. */
    method GetOrCreateWord(wordEn: string, wordRu: string) returns (w: Word)
      requires Valid()
      modifies this
      ensures Valid()
      ensures users == old(users) && progress == old(progress) && tasks == old(tasks)
      ensures w.wordEn == NormalizeEn(wordEn) && 0 < w.id <= |words| && words[w.id - 1] == w
      ensures FindWordByEn(words, wordEn) == Some(w)
      ensures words == WithWord(old(words), wordEn, wordRu)
      ensures old(FindWordByEn(words, wordEn)).Some?
              ==> w == old(FindWordByEn(words, wordEn)).value
    {
      var found := FindWordByEn(words, wordEn);
      if found.Some? {
        w := found.value;
        WordAt(words, w);
        FindWordUnique(words, wordEn, w);
      } else {
        var r := CreateWord(wordEn, wordRu);
        w := r.value;
        FindWordAfterAppend(old(words), w, wordEn);
      }
    }

    // ---------------------------------------------------------- progress

    /** `create_user_word_progress`: a row that is due at once. It does not check for an existing row. */
    method CreateUserWordProgress(userId: nat, wordId: nat, now: int) returns (p: Progress)
      requires Valid()
      requires 0 < userId <= |users| && 0 < wordId <= |words|
      modifies this
      ensures Valid()
      ensures users == old(users) && words == old(words) && tasks == old(tasks)
      ensures p == NewProgress(|old(progress)| + 1, userId, wordId, now)
      ensures progress == old(progress) + [p]
      ensures ProgressUnique(progress)
              <==> ProgressUnique(old(progress)) && FindProgress(old(progress), userId, wordId).None?
    {
      p := NewProgress(|progress| + 1, userId, wordId, now);
      AppendProgressUnique(progress, p);
      progress := progress + [p];
    }

    /**
     * `update_word_progress`: counts the answer, moves the score by +15 or -10 within
     * 0..100, and schedules the next review.  An unknown id changes nothing.
     */
    method UpdateWordProgress(progressId: int, isCorrect: bool, now: int)
      requires Valid()
      modifies this
      ensures Valid()
      ensures users == old(users) && words == old(words) && tasks == old(tasks)
      ensures progress == ProgressAfterReview(old(progress), progressId, isCorrect, now)
      ensures ProgressUnique(old(progress)) ==> ProgressUnique(progress)
    {
      if !(0 < progressId <= |progress|) {
        return;
      }
      ReviewKeepsInvariants(progress, progressId, isCorrect, now, |users|, |words|);
      var p := ApplyReview(progress[progressId - 1], isCorrect, now);
      progress := progress[progressId - 1 := p];
    }

    // ---------------------------------------------------------- tasks

    /** `create_task_history`: a new pending task. */
    method CreateTaskHistory(userId: nat, wordId: nat, taskType: string, content: Content, now: int)
      returns (t: Task)
      requires Valid()
      requires 0 < userId <= |users| && 0 < wordId <= |words|
      modifies this
      ensures Valid()
      ensures users == old(users) && words == old(words) && progress == old(progress)
      ensures t == Task(|old(tasks)| + 1, userId, wordId, taskType, content, None, None, None, now)
      ensures tasks == old(tasks) + [t]
    {
      t := Task(|tasks| + 1, userId, wordId, taskType, content, None, None, None, now);
      tasks := tasks + [t];
    }

    /** `update_task_history_answer`: records answer, outcome and feedback of one task. */
    method UpdateTaskHistoryAnswer(taskId: int, answer: string, isCorrect: Option<bool>, feedback: Option<string>)
      requires Valid()
      modifies this
      ensures Valid()
      ensures users == old(users) && words == old(words) && progress == old(progress)
      ensures tasks == TasksAfterAnswer(old(tasks), taskId, answer, isCorrect, feedback)
    {
      if 0 < taskId <= |tasks| {
        tasks := tasks[taskId - 1 := Answered(tasks[taskId - 1], answer, isCorrect, feedback)];
      }
    }
  }

  // ------------------------------------------------------------ helper lemmas

  lemma ReviewKeepsInvariants(ps: seq<Progress>, progressId: int, isCorrect: bool, now: int,
                              userCount: nat, wordCount: nat)
    requires ProgressWellFormed(ps, userCount, wordCount)
    ensures ProgressWellFormed(ProgressAfterReview(ps, progressId, isCorrect, now), userCount, wordCount)
    ensures ProgressUnique(ps) ==> ProgressUnique(ProgressAfterReview(ps, progressId, isCorrect, now))
  {
  }

  lemma FindUserAfterAppend(users: seq<User>, u: User)
    requires FindUserByTelegramId(users, u.telegramId).None?
    ensures FindUserByTelegramId(users + [u], u.telegramId) == Some(u)
  {
    if users != [] {
      assert (users + [u])[1..] == users[1..] + [u];
      FindUserAfterAppend(users[1..], u);
    }
  }

  /** With unique Telegram ids, the lookup finds the one row carrying the id. */
  lemma FindUserAt(users: seq<User>, i: nat)
    requires UsersWellFormed(users) && i < |users|
    ensures FindUserByTelegramId(users, users[i].telegramId) == Some(users[i])
  {
    var r := FindUserByTelegramId(users, users[i].telegramId);
    var j :| 0 <= j < |users| && users[j] == r.value;
    assert j == i;
  }

  lemma FindWordAfterAppend(words: seq<Word>, w: Word, wordEn: string)
    requires FindWordByEn(words, wordEn).None? && w.wordEn == NormalizeEn(wordEn)
    ensures FindWordByEn(words + [w], wordEn) == Some(w)
  {
    if words != [] {
      assert (words + [w])[1..] == words[1..] + [w];
      FindWordAfterAppend(words[1..], w, wordEn);
    }
  }

  /** `strip(lower(strip(lower(s))))` is `strip(lower(s))`. */
  lemma NormalizeTwice(s: string)
    ensures NormalizeEn(NormalizeEn(s)) == NormalizeEn(s)
  {
    var n := Strip(Lower(s));
    StripLowerCommute(s);
    LowerIdempotent(Strip(s));
    assert Lower(n) == n;
    StripIdempotent(Lower(s));
  }

  lemma FindWordSameKey(words: seq<Word>, a: string, b: string)
    requires NormalizeEn(a) == NormalizeEn(b)
    ensures FindWordByEn(words, a) == FindWordByEn(words, b)
  {
  }

  lemma FindWordUnique(words: seq<Word>, wordEn: string, w: Word)
    requires WordsWellFormed(words) && FindWordByEn(words, wordEn) == Some(w)
    ensures forall v :: v in words && v.wordEn == NormalizeEn(wordEn) ==> v == w
  {
  }

  lemma AppendProgressUnique(ps: seq<Progress>, p: Progress)
    ensures ProgressUnique(ps + [p])
            <==> ProgressUnique(ps) && FindProgress(ps, p.userId, p.wordId).None?
  {
    var qs := ps + [p];
    if FindProgress(ps, p.userId, p.wordId).Some? {
      var q := FindProgress(ps, p.userId, p.wordId).value;
      var i :| 0 <= i < |ps| && ps[i] == q;
      assert qs[i] == q && qs[|ps|] == p;
    }
    if ProgressUnique(qs) {
      assert forall i, j :: 0 <= i < j < |ps| ==> qs[i] == ps[i] && qs[j] == ps[j];
    }
  }
}
