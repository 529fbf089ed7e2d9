/**
 * The word-adding dialog and the do-not-disturb callback.  The dialog is the
 * per-chat finite-state machine of the bot framework: its state and its stored
 * data are the fields of `AddWordDialog`, and each handler is a method that
 * updates them.  Message texts are not modelled.
 */
module WordManagement {
  import opened Wrappers
  import opened PyStr
  import opened Models
  import opened Crud
  import Keyboards

  // ---------------------------------------------------------------- input validation

  /** What the English step stores: `text.strip().lower()`. */
  function EnglishInput(text: string): string {
    Lower(Strip(text))
  }

  /** `word_en.replace(" ", "").isalpha()`. */
  predicate AcceptsEnglish(wordEn: string) {
    IsAlpha(Remove(wordEn, ' '))
  }

  /** What the Russian step uses: `text.strip()`. */
  function RussianInput(text: string): string {
    Strip(text)
  }

  /** `word_ru.replace(" ", "").replace("-", "").isalpha()`. */
  predicate AcceptsRussian(wordRu: string) {
    IsAlpha(Remove(Remove(wordRu, ' '), '-'))
  }

  /** `IsAlpha` read through membership: some character, and letters only. */
  lemma {:induction false} IsAlphaByMembers(s: string)
    ensures IsAlpha(s) <==> (exists x :: x in s) && (forall x :: x in s ==> IsLetter(x))
  {
    if IsAlpha(s) {
      assert s[0] in s;
    }
    if (exists x :: x in s) && (forall x :: x in s ==> IsLetter(x)) {
      forall i | 0 <= i < |s|
        ensures IsLetter(s[i])
      {
        assert s[i] in s;
      }
    }
  }

  /**
   * The English check in plain words: the word holds at least one character other
   * than a space, and every character is a letter or a space.
   */
  lemma {:induction false} AcceptsEnglishIff(wordEn: string)
    ensures AcceptsEnglish(wordEn)
            <==> (exists x :: x in wordEn && x != ' ')
                 && (forall x :: x in wordEn ==> x == ' ' || IsLetter(x))
  {
    RemoveMembers(wordEn, ' ');
    IsAlphaByMembers(Remove(wordEn, ' '));
  }

  /**
   * The Russian check in plain words: at least one character other than a space or
   * a hyphen, and every character a letter, a space or a hyphen.
   */
  lemma {:induction false} AcceptsRussianIff(wordRu: string)
    ensures AcceptsRussian(wordRu)
            <==> (exists x :: x in wordRu && x != ' ' && x != '-')
                 && (forall x :: x in wordRu ==> x == ' ' || x == '-' || IsLetter(x))
  {
    RemoveMembers(wordRu, ' ');
    RemoveMembers(Remove(wordRu, ' '), '-');
    IsAlphaByMembers(Remove(Remove(wordRu, ' '), '-'));
  }

  /**
   * The stored English form is already in normal form: entering it again stores
   * the same text, and the word table files it under exactly that text.
   */
  lemma {:induction false} EnglishInputIsNormal(text: string)
    ensures EnglishInput(EnglishInput(text)) == EnglishInput(text)
    ensures NormalizeEn(EnglishInput(text)) == EnglishInput(text)
  {
    NormalizeIdempotent(text);
    StripLowerCommute(Lower(Strip(text)));
    LowerIdempotent(Strip(text));
    StripLowerCommute(Strip(text));
    StripIdempotent(text);
  }

  // ---------------------------------------------------------------- the dialog

  datatype DialogState = Idle | WaitingForWordEn | WaitingForWordRu

  /** What the Russian step reports. */
  datatype WordOutcome =
    | RussianRejected
    | AlreadyListed(word: Word, knowledge: int)
    | Added(word: Word)

  /** The dialog of one chat: its state and the stored `word_en`. */
  class AddWordDialog {
    var state: DialogState
    var wordEn: Option<string>

    /** Waiting for the translation means an English word has been stored. */
    ghost predicate Valid()
      reads this
    {
      state == WaitingForWordRu ==> wordEn.Some?
    }

    constructor ()
      ensures Valid() && state == Idle && wordEn == None
    {
      state := Idle;
      wordEn := None;
    }

    /** `cmd_add_word_start`: asks for the English word; stored data is kept. */
    method StartAddWord()
      requires Valid()
      modifies this
      ensures Valid()
      ensures state == WaitingForWordEn && wordEn == old(wordEn)
    {
      state := WaitingForWordEn;
    }

    /** `state.clear()`: back to no state, with the stored data dropped. */
    method Clear()
      modifies this
      ensures Valid() && state == Idle && wordEn == None
    {
      state := Idle;
      wordEn := None;
    }

    /**
     * `process_word_en`: a rejected word leaves the dialog as it was; an accepted
     * one is stored in normal form and the dialog asks for the translation.
     */
    method ProcessWordEn(text: string) returns (accepted: bool)
      requires Valid() && state == WaitingForWordEn
      modifies this
      ensures Valid()
      ensures accepted <==> AcceptsEnglish(EnglishInput(text))
      ensures accepted ==> state == WaitingForWordRu && wordEn == Some(EnglishInput(text))
      ensures !accepted ==> state == old(state) && wordEn == old(wordEn)
    {
      var word := Lower(Strip(text));
      if !IsAlpha(Remove(word, ' ')) {
        return false;
      }
      wordEn := Some(word);
      state := WaitingForWordRu;
      accepted := true;
    }

    /**
     * `process_word_ru`.  A rejected translation leaves everything as it was; an
     * accepted one is stored by `SaveWord` under the English word the dialog holds,
     * and the dialog is cleared.
     */
    method ProcessWordRu(db: Database, telegramId: int, text: string, now: int) returns (outcome: WordOutcome)
      requires Valid() && state == WaitingForWordRu
      requires db.Consistent()
      modifies this, db
      ensures Valid() && db.Consistent()
      ensures !AcceptsRussian(RussianInput(text))
              ==> outcome == RussianRejected && state == old(state) && wordEn == old(wordEn)
                  && db.users == old(db.users) && db.words == old(db.words)
                  && db.progress == old(db.progress) && db.tasks == old(db.tasks)
      ensures AcceptsRussian(RussianInput(text))
              ==> state == Idle && wordEn == None
                  && SavedWord(old(db.users), old(db.words), old(db.progress), db.users, db.words, db.progress,
                               telegramId, old(wordEn).value, RussianInput(text), now, outcome)
                  && db.tasks == old(db.tasks)
    {
      var wordRu := Strip(text);
      if !IsAlpha(Remove(Remove(wordRu, ' '), '-')) {
        return RussianRejected;
      }
      outcome := SaveWord(db, telegramId, wordEn.value, wordRu, now);
      Clear();
    }
  }

  /**
   * The tables after an accepted word: the user and the word exist (an existing
   * word keeps its own translation), the user has a progress row for the word, and
   * a row was appended exactly when there was none.
   */
  ghost predicate SavedWord(users0: seq<User>, words0: seq<Word>, progress0: seq<Progress>,
                            users: seq<User>, words: seq<Word>, progress: seq<Progress>,
                            telegramId: int, wordEn: string, wordRu: string, now: int, outcome: WordOutcome)
  {
    && users == WithUser(users0, telegramId)
    && words == WithWord(words0, wordEn, wordRu)
    && FindUserByTelegramId(users, telegramId).Some?
    && FindWordByEn(words, wordEn).Some?
    && var userId := FindUserByTelegramId(users, telegramId).value.id;
       var word := FindWordByEn(words, wordEn).value;
       && FindProgress(progress, userId, word.id).Some?
       && (FindProgress(progress0, userId, word.id).Some?
           ==> progress == progress0
               && outcome == AlreadyListed(word, FindProgress(progress0, userId, word.id).value.knowledgePercent))
       && (FindProgress(progress0, userId, word.id).None?
           ==> progress == progress0 + [NewProgress(|progress0| + 1, userId, word.id, now)]
               && outcome == Added(word))
  }

  /** The database half of `process_word_ru`, once the translation is accepted. */
  method SaveWord(db: Database, telegramId: int, wordEn: string, wordRu: string, now: int)
    returns (outcome: WordOutcome)
    requires db.Consistent()
    modifies db
    ensures db.Consistent()
    ensures SavedWord(old(db.users), old(db.words), old(db.progress), db.users, db.words, db.progress,
                      telegramId, wordEn, wordRu, now, outcome)
    ensures db.tasks == old(db.tasks)
  {
    var user := db.GetOrCreateUser(telegramId);
    var word := db.GetOrCreateWord(wordEn, wordRu);
    var progress := FindProgress(db.progress, user.id, word.id);
    if progress.Some? {
      outcome := AlreadyListed(word, progress.value.knowledgePercent);
    } else {
      var p := db.CreateUserWordProgress(user.id, word.id, now);
      assert p in db.progress;
      outcome := Added(word);
    }
  }

  // ---------------------------------------------------------------- do not disturb

  /** The callback's action: cancel, a number of minutes, or data `int()` or indexing rejects. */
  datatype DndAction = DndCancel | DndMinutes(minutes: int) | DndMalformed

  /** `callback.data.split("_")[1]`, then `"cancel"` or `int(action)`. */
  function ParseDndAction(data: string): DndAction {
    var parts := Split(data, '_');
    if |parts| < 2 then DndMalformed
    else if parts[1] == "cancel" then DndCancel
    else match ParseInt(parts[1])
      case None => DndMalformed
      case Some(n) => DndMinutes(n)
  }

  /** `dnd_<n>` for a number of minutes written in decimal parses back to that number. */
  lemma {:induction false} DndMinutesRoundTrip(n: nat)
    ensures ParseDndAction("dnd_" + NatToString(n)) == DndMinutes(n)
  {
    var data := "dnd_" + NatToString(n);
    var digits := NatToString(n);
    forall i | 0 <= i < |digits|
      ensures digits[i] != '_'
    {
      assert IsDigit(digits[i]);
    }
    assert data == Join(["dnd", digits], '_');
    SplitJoin(["dnd", digits], '_');
    assert digits != "cancel" by {
      assert IsDigit(digits[0]);
    }
    ParseIntOfNatToString(n);
  }

  /** The cancel button's data parses to the cancel action. */
  lemma {:induction false} DndCancelParses()
    ensures ParseDndAction("dnd_cancel") == DndCancel
  {
    var parts := ["dnd", "cancel"];
    assert '_' !in parts[0] && '_' !in parts[1];
    assert Join(parts, '_') == "dnd_cancel";
    SplitJoin(parts, '_');
  }

  /** The decimal forms of the four offered durations. */
  lemma DurationDigits()
    ensures NatToString(30) == "30" && NatToString(60) == "60"
    ensures NatToString(120) == "120" && NatToString(180) == "180"
  {
    assert NatToString(1) == "1" && NatToString(3) == "3" && NatToString(6) == "6";
    assert NatToString(12) == "12" && NatToString(18) == "18";
  }

  /** Every button of the duration keyboard parses: four positive durations and the cancel button. */
  lemma {:induction false} DndKeyboardParses()
    ensures var callbacks := Keyboards.DndCallbacks();
            && |callbacks| == 5
            && ParseDndAction(callbacks[0]) == DndMinutes(30)
            && ParseDndAction(callbacks[1]) == DndMinutes(60)
            && ParseDndAction(callbacks[2]) == DndMinutes(120)
            && ParseDndAction(callbacks[3]) == DndMinutes(180)
            && ParseDndAction(callbacks[4]) == DndCancel
  {
    DurationDigits();
    assert "dnd_" + NatToString(30) == "dnd_30";
    assert "dnd_" + NatToString(60) == "dnd_60";
    assert "dnd_" + NatToString(120) == "dnd_120";
    assert "dnd_" + NatToString(180) == "dnd_180";
    DndMinutesRoundTrip(30);
    DndMinutesRoundTrip(60);
    DndMinutesRoundTrip(120);
    DndMinutesRoundTrip(180);
    DndCancelParses();
  }

  /** What the duration callback reports. */
  datatype DndReply = Cancelled | Paused(minutes: int) | DndCrashed

  /**
   * The user table after pausing `telegramId` until `until`: the user is ensured,
   * and then that user's row, and nothing else, is paused.
   */
  ghost predicate PausedFrom(users0: seq<User>, users: seq<User>, telegramId: int, until: int) {
    var ensured := WithUser(users0, telegramId);
    && FindUserByTelegramId(users, telegramId).Some?
    && var u := FindUserByTelegramId(users, telegramId).value;
       && u.doNotDisturbUntil == Some(until)
       && 0 < u.id <= |ensured|
       && users == ensured[u.id - 1 := ensured[u.id - 1].(doNotDisturbUntil := Some(until))]
  }

  /**
   * The table half of a chosen duration: ensure the user, then pause the user
   * until `now + minutes`.  Only that row's pause changes.
   */
  method PauseUser(db: Database, telegramId: int, minutes: int, now: int)
    requires db.Consistent()
    modifies db
    ensures db.Consistent()
    ensures db.words == old(db.words) && db.progress == old(db.progress) && db.tasks == old(db.tasks)
    ensures PausedFrom(old(db.users), db.users, telegramId, now + minutes)
  {
    var user := db.GetOrCreateUser(telegramId);
    ghost var ensured := db.users;
    db.SetDoNotDisturb(user.id, minutes, now);
    assert db.users == ensured[user.id - 1 := user.(doNotDisturbUntil := Some(now + minutes))];
    FindUserAt(db.users, user.id - 1);
  }

  /**
   * `process_dnd_duration`.  Cancelling, and data that does not parse, touch no
   * table; a duration pauses the user as `PauseUser` states.
   */
  method ProcessDndDuration(db: Database, telegramId: int, data: string, now: int) returns (reply: DndReply)
    requires db.Consistent()
    modifies db
    ensures db.Consistent()
    ensures db.words == old(db.words) && db.progress == old(db.progress) && db.tasks == old(db.tasks)
    ensures ParseDndAction(data).DndCancel? ==> reply == Cancelled && db.users == old(db.users)
    ensures ParseDndAction(data).DndMalformed? ==> reply == DndCrashed && db.users == old(db.users)
    ensures ParseDndAction(data).DndMinutes?
            ==> var minutes := ParseDndAction(data).minutes;
                reply == Paused(minutes) && PausedFrom(old(db.users), db.users, telegramId, now + minutes)
  {
    var action := ParseDndAction(data);
    if action.DndCancel? {
      return Cancelled;
    }
    if action.DndMalformed? {
      return DndCrashed;
    }
    PauseUser(db, telegramId, action.minutes, now);
    reply := Paused(action.minutes);
  }
}
