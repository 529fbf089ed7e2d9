/**
 * `/start`, wake-up and sleep.  `/start` registers the user, seeds an empty
 * dictionary with three words and gives the user a progress row for every word;
 * wake-up and sleep flip the user's active flag and start or stop the user's job.
 * Replies and keyboards are not modelled.
 */
module BasicCommands {
  import opened Wrappers
  import opened PyStr
  import opened Models
  import opened Crud
  import opened AiService
  import opened Scheduler

  // ---------------------------------------------------------------- /start

  /** The English/Russian pairs an empty dictionary is seeded with. */
  const BaseWords: seq<(string, string)> := [("apple", "яблоко"), ("book", "книга"), ("cat", "кот")]

  /** The word table right after seeding an empty one. */
  function SeededWords(): (r: seq<Word>)
    ensures |r| == |BaseWords|
    ensures forall i :: 0 <= i < |r| ==> r[i] == Word(i + 1, BaseWords[i].0, BaseWords[i].1)
  {
    [Word(1, "apple", "яблоко"), Word(2, "book", "книга"), Word(3, "cat", "кот")]
  }

  /** A word of plain lower-case Latin letters is its own normal form. */
  lemma PlainWordIsNormal(s: string)
    requires forall i :: 0 <= i < |s| ==> 'a' <= s[i] <= 'z'
    ensures NormalizeEn(s) == s
  {
    assert Lower(s) == s;
    StripNoOp(s);
  }

  /** The seed pairs are already in the form `create_word` stores. */
  lemma SeedIsNormal(i: nat)
    requires i < |BaseWords|
    ensures NormalizeEn(BaseWords[i].0) == BaseWords[i].0 && Strip(BaseWords[i].1) == BaseWords[i].1
  {
    PlainWordIsNormal(BaseWords[i].0);
    StripNoOp(BaseWords[i].1);
  }

  /** Before round `i` of the seeding loop, the `i`-th English form is not in the table. */
  lemma SeedIsNew(words: seq<Word>, i: nat)
    requires i < |BaseWords| && words == SeededWords()[..i]
    requires NormalizeEn(BaseWords[i].0) == BaseWords[i].0
    ensures FindWordByEn(words, BaseWords[i].0).None?
  {
    var en := BaseWords[i].0;
    if i == 1 {
      assert words == [Word(1, "apple", "яблоко")];
    } else if i == 2 {
      assert words == [Word(1, "apple", "яблоко"), Word(2, "book", "книга")];
    }
    assert forall w :: w in words ==> |w.wordEn| != |en|;
  }

  /**
   * One round of the seeding loop: after the first `i` base words, the next one is
   * not in the table yet, and `create_word` stores it exactly as `SeededWords` lists it.
   */
  lemma SeedStep(words: seq<Word>, i: nat)
    requires i < |BaseWords| && words == SeededWords()[..i]
    ensures FindWordByEn(words, BaseWords[i].0).None?
    ensures Word(|words| + 1, NormalizeEn(BaseWords[i].0), Strip(BaseWords[i].1)) == SeededWords()[i]
    ensures words + [SeededWords()[i]] == SeededWords()[..i + 1]
  {
    SeedIsNormal(i);
    SeedIsNew(words, i);
    SeedPrefix(i);
  }

  lemma SeedPrefix(i: nat)
    requires i < |BaseWords|
    ensures SeededWords()[..i] + [SeededWords()[i]] == SeededWords()[..i + 1]
  {
  }

  /**
   * The seeding loop of `cmd_start`: creates the three base words in order in an
   * empty table.  Each insert succeeds, because the English forms differ.
   */
  method SeedWords(db: Database) returns (created: seq<Word>)
    requires db.Consistent() && db.words == []
    modifies db
    ensures db.Consistent()
    ensures db.users == old(db.users) && db.progress == old(db.progress) && db.tasks == old(db.tasks)
    ensures db.words == SeededWords() && created == SeededWords()
  {
    created := [];
    for i := 0 to |BaseWords|
      invariant db.Consistent()
      invariant db.users == old(db.users) && db.progress == old(db.progress) && db.tasks == old(db.tasks)
      invariant db.words == SeededWords()[..i] && created == db.words
    {
      var (wordEn, wordRu) := BaseWords[i];
      SeedStep(db.words, i);
      var r := db.CreateWord(wordEn, wordRu);
      created := created + [r.value];
    }
  }

  /** `get_user_word_progress` then, when it finds nothing, `create_user_word_progress`. */
  function WithRow(ps: seq<Progress>, userId: nat, w: Word, now: int): seq<Progress> {
    if FindProgress(ps, userId, w.id).Some? then ps else ps + [NewProgress(|ps| + 1, userId, w.id, now)]
  }

  /** The progress table after the loop of `cmd_start` over `ws`, in order. */
  function WithRows(ps: seq<Progress>, userId: nat, ws: seq<Word>, now: int): seq<Progress> {
    if ws == [] then ps else WithRow(WithRows(ps, userId, ws[..|ws| - 1], now), userId, ws[|ws| - 1], now)
  }

  /** A user's lookup still succeeds after rows are appended to the progress table. */
  lemma FindProgressGrows(ps: seq<Progress>, extra: seq<Progress>, userId: nat, wordId: nat)
    requires FindProgress(ps, userId, wordId).Some?
    ensures FindProgress(ps + extra, userId, wordId).Some?
  {
    assert FindProgress(ps, userId, wordId).value in ps + extra;
  }

  /** The rows from `from` on are fresh rows of `userId`, created at `now`. */
  ghost predicate FreshRowsOf(ps: seq<Progress>, from: nat, userId: nat, now: int) {
    forall k :: from <= k < |ps| ==> ps[k] == NewProgress(k + 1, userId, ps[k].wordId, now)
  }

  /** The loop keeps every existing row and appends only fresh rows of the user. */
  lemma {:induction false} WithRowsExtends(ps: seq<Progress>, userId: nat, ws: seq<Word>, now: int)
    ensures var r := WithRows(ps, userId, ws, now);
            |r| >= |ps| && r[..|ps|] == ps && FreshRowsOf(r, |ps|, userId, now)
  {
    if ws != [] {
      var prev := WithRows(ps, userId, ws[..|ws| - 1], now);
      WithRowsExtends(ps, userId, ws[..|ws| - 1], now);
      var r := WithRow(prev, userId, ws[|ws| - 1], now);
      assert r[..|prev|] == prev;
      assert r[..|ps|] == prev[..|ps|];
    }
  }

  /** Afterwards the user has a row for every word of `ws`. */
  lemma {:induction false} WithRowsCovers(ps: seq<Progress>, userId: nat, ws: seq<Word>, now: int)
    ensures forall w :: w in ws ==> FindProgress(WithRows(ps, userId, ws, now), userId, w.id).Some?
  {
    if ws != [] {
      var init := ws[..|ws| - 1];
      var prev := WithRows(ps, userId, init, now);
      WithRowsCovers(ps, userId, init, now);
      var last := ws[|ws| - 1];
      var r := WithRow(prev, userId, last, now);
      forall w | w in ws
        ensures FindProgress(r, userId, w.id).Some?
      {
        if w in init {
          FindProgressGrows(prev, r[|prev|..], userId, w.id);
          assert prev + r[|prev|..] == r;
        } else {
          assert w == last by {
            assert ws == init + [last];
          }
          if FindProgress(prev, userId, w.id).None? {
            assert r[|prev|] in r;
          }
        }
      }
    }
  }

  /** A user who already has a row for every word of `ws` gets nothing new. */
  lemma {:induction false} WithRowsNoOp(ps: seq<Progress>, userId: nat, ws: seq<Word>, now: int)
    requires forall w :: w in ws ==> FindProgress(ps, userId, w.id).Some?
    ensures WithRows(ps, userId, ws, now) == ps
  {
    if ws != [] {
      var init := ws[..|ws| - 1];
      assert forall w :: w in init ==> w in ws;
      WithRowsNoOp(ps, userId, init, now);
      assert ws[|ws| - 1] in ws;
    }
  }

  /**
   * Running the loop a second time, at any later time, adds nothing: `/start`
   * never creates a second row for a (user, word) pair.
   */
  lemma {:induction false} SecondLoopAddsNothing(ps: seq<Progress>, userId: nat, ws: seq<Word>, now: int, later: int)
    ensures WithRows(WithRows(ps, userId, ws, now), userId, ws, later) == WithRows(ps, userId, ws, now)
  {
    WithRowsCovers(ps, userId, ws, now);
    WithRowsNoOp(WithRows(ps, userId, ws, now), userId, ws, later);
  }

  /** The progress loop of `cmd_start`, proved against `WithRows`. */
  method EnsureProgressRows(db: Database, userId: nat, words: seq<Word>, now: int)
    requires db.Consistent() && 0 < userId <= |db.users|
    requires forall w :: w in words ==> 0 < w.id <= |db.words|
    modifies db
    ensures db.Consistent()
    ensures db.users == old(db.users) && db.words == old(db.words) && db.tasks == old(db.tasks)
    ensures db.progress == WithRows(old(db.progress), userId, words, now)
  {
    for i := 0 to |words|
      invariant db.Consistent()
      invariant db.users == old(db.users) && db.words == old(db.words) && db.tasks == old(db.tasks)
      invariant db.progress == WithRows(old(db.progress), userId, words[..i], now)
    {
      assert words[..i + 1][..i] == words[..i];
      var word := words[i];
      assert word in words;
      var progress := FindProgress(db.progress, userId, word.id);
      if progress.None? {
        var _ := db.CreateUserWordProgress(userId, word.id, now);
      }
    }
    assert words[..|words|] == words;
  }

  /**
   * `cmd_start`.  The user is ensured and keeps an existing row as it was (so the
   * active flag is untouched); an empty dictionary is seeded with the three base
   * words and any other is left alone; afterwards the user has a progress row for
   * every word, and the only rows added are fresh rows of this user.
   */
  method CmdStart(db: Database, telegramId: int, now: int)
    requires db.Consistent()
    modifies db
    ensures db.Consistent()
    ensures db.users == WithUser(old(db.users), telegramId) && db.tasks == old(db.tasks)
    ensures db.words == if old(db.words) == [] then SeededWords() else old(db.words)
    ensures FindUserByTelegramId(db.users, telegramId).Some?
    ensures var userId := FindUserByTelegramId(db.users, telegramId).value.id;
            && (forall w :: w in db.words ==> FindProgress(db.progress, userId, w.id).Some?)
            && |db.progress| >= |old(db.progress)| && db.progress[..|old(db.progress)|] == old(db.progress)
            && FreshRowsOf(db.progress, |old(db.progress)|, userId, now)
    ensures (&& old(FindUserByTelegramId(db.users, telegramId)).Some? && old(db.words) != []
             && forall w :: w in old(db.words)
                  ==> old(FindProgress(db.progress, FindUserByTelegramId(db.users, telegramId).value.id, w.id)).Some?)
            ==> db.users == old(db.users) && db.words == old(db.words) && db.progress == old(db.progress)
  {
    var user := db.GetOrCreateUser(telegramId);
    var words := db.words;
    if |words| == 0 {
      var created := SeedWords(db);
      words := words + created;
    }
    assert words == db.words;
    forall w | w in words
      ensures 0 < w.id <= |db.words|
    {
      WordAt(db.words, w);
    }
    ghost var before := db.progress;
    EnsureProgressRows(db, user.id, words, now);
    WithRowsExtends(before, user.id, words, now);
    WithRowsCovers(before, user.id, words, now);
    if forall w :: w in words ==> FindProgress(before, user.id, w.id).Some? {
      WithRowsNoOp(before, user.id, words, now);
    }
  }

  // ---------------------------------------------------------------- wake-up and sleep

  /**
   * The user table after `get_or_create_user` and `update_user_active_status`: the
   * user is ensured, and then that row's active flag, and nothing else, is set.
   */
  ghost predicate ActivatedFrom(users0: seq<User>, users: seq<User>, telegramId: int, isActive: bool) {
    var ensured := WithUser(users0, telegramId);
    && FindUserByTelegramId(users, telegramId).Some?
    && var u := FindUserByTelegramId(users, telegramId).value;
       && u.isActive == isActive
       && 0 < u.id <= |ensured|
       && users == ensured[u.id - 1 := ensured[u.id - 1].(isActive := isActive)]
  }

  /** Ensure the user, then set the active flag; returns the user's row as it now is. */
  method SetActive(db: Database, telegramId: int, isActive: bool) returns (user: User)
    requires db.Consistent()
    modifies db
    ensures db.Consistent()
    ensures db.words == old(db.words) && db.progress == old(db.progress) && db.tasks == old(db.tasks)
    ensures ActivatedFrom(old(db.users), db.users, telegramId, isActive)
    ensures FindUserByTelegramId(db.users, telegramId) == Some(user)
  {
    var u := db.GetOrCreateUser(telegramId);
    ghost var ensured := db.users;
    db.UpdateUserActiveStatus(u.id, isActive);
    assert db.users == ensured[u.id - 1 := u.(isActive := isActive)];
    FindUserAt(db.users, u.id - 1);
    user := u.(isActive := isActive);
  }

  /**
   * `cmd_wake_up`: the user is active, the user's job runs every
   * `interval_minutes`, and the first tick runs at once.
   */
  method CmdWakeUp(registry: JobRegistry, db: Database, telegramId: int, now: int, kind: TaskKind,
                   generate: (string, string, string) -> ApiReply, parse: string -> Option<Content>)
    returns (notice: Option<Notice>)
    requires registry.Valid() && db.Consistent()
    modifies registry, db
    ensures registry.Valid() && db.Consistent()
    ensures ActivatedFrom(old(db.users), db.users, telegramId, true)
    ensures db.words == old(db.words) && db.progress == old(db.progress)
    ensures var u := FindUserByTelegramId(db.users, telegramId).value;
            && registry.jobs == old(registry.jobs)[JobId(u.id) := Job(u.id, telegramId, u.intervalMinutes)]
            && var plan := PlanTick(Some(u), db.words, db.progress, u.id, now, kind, generate, parse);
               && db.tasks == TickTasks(old(db.tasks), plan, u.id, kind, now)
               && notice == TickNotice(plan, |old(db.tasks)| + 1)
  {
    var user := SetActive(db, telegramId, true);
    notice := StartUserScheduler(registry, db, user.id, telegramId, user.intervalMinutes,
                                 now, kind, generate, parse);
  }

  /** `cmd_sleep`: the user is inactive and has no job any more. */
  method CmdSleep(registry: JobRegistry, db: Database, telegramId: int)
    requires registry.Valid() && db.Consistent()
    modifies registry, db
    ensures registry.Valid() && db.Consistent()
    ensures ActivatedFrom(old(db.users), db.users, telegramId, false)
    ensures db.words == old(db.words) && db.progress == old(db.progress) && db.tasks == old(db.tasks)
    ensures var u := FindUserByTelegramId(db.users, telegramId).value;
            registry.jobs == old(registry.jobs) - {JobId(u.id)}
  {
    var user := SetActive(db, telegramId, false);
    StopUserScheduler(registry, user.id);
  }
}
