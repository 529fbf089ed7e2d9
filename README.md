# Learning engine of a Telegram vocabulary bot, in Dafny

The bot teaches English words to Russian speakers. Each user has a progress row
per word, holding a knowledge score from 0 to 100. A periodic job sends the user
an exercise about the most urgent due word. The exercise is a translation
checked by a language model, or a multiple choice checked by index. Each answer
moves the score up by 15 or down by 10 and schedules the next review, using a
banded interval table.

This project models that engine without Telegram, the SQL engine, the job
scheduler's timer and the language model:

- Time is an integer `now` in minutes. The interval table is therefore exact:
  30, 240, 1440, 4320 and 10080 minutes.
- The four tables are `seq` fields of the class `Crud.Database`. Row ids are
  positions plus one, since rows are only ever appended.
- The job registry is a `map` field of the class `Scheduler.JobRegistry`.
- The word-adding dialog is the class `WordManagement.AddWordDialog`.
- The language model, `json.loads` and `random.choice` are parameters: oracles
  handed in by the caller.

Modules, one per source file:

| module | file | models |
|---|---|---|
| `Wrappers` | wrappers.dfy | `Option`, `Result` |
| `PyStr` | pystr.dfy | the Python string built-ins used (`strip`, `lower`, `isalpha`, `replace`, `split`, `int`, `str`) |
| `LearningConfig` | settings.dfy | the constants and the review-interval table |
| `Models` | models.dfy | the four record types and their defaults |
| `ReviewQueue` | review.dfy | `get_words_for_review` |
| `Crud` | crud.dfy | the queries, inserts and updates, and the `Database` class |
| `AiService` | ai_service.dfy | fence stripping, the unknown-type rejection, closed-form grading |
| `Keyboards` | keyboards.dfy | the three keyboards |
| `Answers` | answers.dfy | the two answer handlers |
| `Scheduler` | scheduler.dfy | the job registry and the tick |
| `WordManagement` | word_management.dfy | the add-word dialog and the do-not-disturb callback |
| `BasicCommands` | basic_commands.dfy | `/start`, wake-up and sleep |

Each handler that changes tables is a method. It is proved against a
specification function of the old tables:

- `Answers.TextAnswerEffect` and `Answers.ChoiceAnswerEffect` give the reply
  and the new task and progress tables;
- `Scheduler.PlanTick` gives the decision of one tick;
- `BasicCommands.WithRows` gives the progress table after `/start`.

Lemmas then state what the source promises about those functions.

Where the bot's design description and its code differ, the model follows the code:

- The description rejects a second pending task. The tick has no such guard, and
  every issuing tick adds a pending task (`Scheduler.TickIgnoresPendingTask`).
- The description grades every closed-form exercise by exact string match. The
  multiple-choice handler grades by index equality instead
  (`Answers.ChoiceAnswerGraded`). The string comparison in `check_answer` is
  modelled too (`AiService.CheckAnswer`).
- The description treats the task update and the progress update as one step.
  The code commits them separately. A missing progress row therefore fails the
  handler after the task has been answered (`Answers.AnswerText`,
  `Answers.AnswerChoice`).
- A checker verdict without `is_correct` counts as a wrong answer, because
  `if is_correct:` is false for `None`. It still leaves the task pending
  (`Answers.TextAnswerGraded`).
- Nothing checks that a pressed task belongs to the user who pressed it.
- An out-of-range option index makes the handler raise; the model reports this as
  `Crashed` (`Answers.ChoiceAnswerEffect`).

## Model

| member | source | states |
|---|---|---|
| LearningConfig.FirstMatch | config/settings.py:56-62 | the result is the minutes of the first band containing the score, with no earlier band containing it, or the 168-hour fallback when no band contains it |
| LearningConfig.ReviewIntervalMinutes | config/settings.py:56-62 | the interval is always strictly positive |
| LearningConfig.BandsPartitionScores | config/settings.py:40-46 | no score lies in two bands, and every score 0..100 lies in one |
| LearningConfig.IntervalIsAnyMatchingBand | config/settings.py:56-61 | the interval is the minutes of any band containing the score, so the table's iteration order is irrelevant |
| LearningConfig.ReviewIntervalByBand | config/settings.py:40-62 | 30, 240, 1440, 4320 or 10080 minutes by band, and the fallback outside 0..100 |
| LearningConfig.ReviewIntervalMonotone | config/settings.py:40-46 | higher knowledge never gives a shorter interval, for every score from 0 up |
| Models.KindNameRoundTrip | scheduler/tasks.py:70-75 | a `task_type` string parses to a kind exactly when it is that kind's name |
| PyStr.StripLowerCommute | bot/handlers/word_management.py:38 | `strip().lower()` (the dialog) and `lower().strip()` (the word table) agree on every string |
| PyStr.NormalizeIdempotent | database/crud.py:71 | normalising an English word twice gives the same text as once |
| PyStr.RemoveMembers | bot/handlers/word_management.py:41 | `replace(c, "")` keeps exactly the characters other than `c` |
| PyStr.SplitJoin | bot/handlers/answers.py:111 | splitting a join of separator-free pieces returns the pieces |
| PyStr.ParseIntOfNatToString | bot/handlers/answers.py:112-113 | `int(str(n)) == n` for every non-negative `n` |
| PyStr.NatToStringInjective | scheduler/tasks.py:163 | different non-negative numbers print differently |
| ReviewQueue.BeforeTotalPreorder | database/crud.py:142-150 | the three-key sort order is total and transitive |
| ReviewQueue.DueRows | database/crud.py:137-141 | the filtered rows are exactly the user's rows with `next_review_at <= now`, drawn from the table |
| ReviewQueue.Insert | database/crud.py:142-150 | inserting into a sorted list keeps it sorted and adds exactly that row |
| ReviewQueue.SortByPriority | database/crud.py:142-150 | the ordered result is sorted and a permutation of its input |
| ReviewQueue.WordsForReview | database/crud.py:125-153 | returns `min(limit, #due)` due rows of the user, sorted, drawn from the due rows, and no due row left out ranks ahead of a returned one |
| ReviewQueue.PrefixOfSorted | database/crud.py:151 | `limit` keeps a sorted prefix that ranks ahead of everything it drops |
| ReviewQueue.NewWordsFirst | database/crud.py:143-145 | if any due row was never reviewed, the single row asked for was never reviewed |
| ReviewQueue.NothingSelectedIffNoneDue | database/crud.py:134-153 | nothing is returned exactly when no row of the user is due |
| Crud.FindUserByTelegramId | database/crud.py:20-25 | a found user is in the table with that Telegram id; none found means no row has it |
| Crud.FindWordByEn | database/crud.py:78-83 | a found word is stored under the normalised English; none found means no row is |
| Crud.FindProgress | database/crud.py:116-122 | a found row is of that user and word; none found means no such row exists |
| Crud.WithUserIdempotent | database/crud.py:28-33 | after `get_or_create_user` the user exists, a second call changes nothing, and a new user is the inactive default row |
| Crud.WithWordIdempotent | database/crud.py:92-97 | `get_or_create_word` is idempotent, an existing word keeps its translation, and a new word stores the stripped translation |
| Crud.FindWordByNormalForm | database/crud.py:78-83 | looking a word up by its normal form finds the same row as by the raw text |
| Crud.NewKnowledge | database/crud.py:174-187 | a right answer gives `min(100, k + 15)`, a wrong one `max(0, k - 10)`; the score stays in 0..100, never falls on a right answer and never rises on a wrong one |
| Crud.ApplyReview | database/crud.py:169-196 | counts the answer, and the right answer only when correct; the new score is `NewKnowledge` of the old; reviewed now; due `now` plus the interval of the new score, so strictly later; id, user and word unchanged |
| Crud.ReviewDueByBand | database/crud.py:189-194 | the new due time is 30 minutes, 4 hours, a day, 3 days or a week after the answer, by the band of the new score |
| Crud.FirstCorrectAnswer | database/crud.py:174-194 | a fresh word answered right: score 15, due 30 minutes later, one of one answers right |
| Crud.FirstWrongAnswer | database/crud.py:182-194 | a fresh word answered wrong: score 0, due 30 minutes later, none of one answers right |
| Crud.LastPendingTask | database/crud.py:243-254 | none exactly when the user has no pending task, else a pending task of the user with the latest `created_at` |
| Crud.RowsOf | database/crud.py:260-263 | exactly the user's progress rows |
| Crud.CountsPartition | database/crud.py:265-268 | learned, in-progress and new counts add up to the number of rows when no score is negative |
| Crud.StatisticsPartition | database/crud.py:257-268 | the three counters of the statistics add up to `total_words` |
| Crud.Database.constructor | database/models.py:12-83 | an empty database satisfies every constraint |
| Crud.Database.CreateUser | database/crud.py:11-17 | appends the inactive default user, or fails with an integrity error on a duplicate Telegram id |
| Crud.Database.GetOrCreateUser | database/crud.py:28-33 | returns the existing user unchanged, else the new row; the table becomes `WithUser` |
| Crud.Database.UpdateUserActiveStatus | database/crud.py:36-43 | sets the active flag of that user's row only; an unknown id changes nothing |
| Crud.Database.SetDoNotDisturb | database/crud.py:46-54 | pauses that user until `now + minutes`, and no other row |
| Crud.Database.ClearDoNotDisturb | database/crud.py:57-64 | clears that user's pause, and no other row |
| Crud.Database.CreateWord | database/crud.py:69-75 | appends the normalised word, or fails with an integrity error on a duplicate English form |
| Crud.Database.GetOrCreateWord | database/crud.py:92-97 | returns the existing word unchanged, else the new row; the table becomes `WithWord` |
| Crud.Database.CreateUserWordProgress | database/crud.py:102-113 | appends a due-now row of score 0; the table stays one-row-per-pair exactly when the pair had no row |
| Crud.Database.UpdateWordProgress | database/crud.py:156-198 | replaces that row by `ApplyReview`; an unknown id changes nothing; one-row-per-pair is kept |
| Crud.Database.CreateTaskHistory | database/crud.py:203-220 | appends a pending task with the next id |
| Crud.Database.UpdateTaskHistoryAnswer | database/crud.py:223-240 | records answer, outcome and feedback of that task only |
| AiService.StripFence | services/ai_service.py:118-122 | the result has no outer whitespace and is no longer than the reply; an unfenced reply is only stripped |
| AiService.FencesRemoved | services/ai_service.py:118-122 | when the stripped reply starts with the json fence, neither the opening nor the closing fence occurs anywhere in the cleaned text |
| AiService.FencedBodyRecovered | services/ai_service.py:118-122 | a reply that is a json fence around a body without backticks yields exactly the stripped body |
| AiService.GenerateTask | services/ai_service.py:35-130 | unknown type is a `ValueError` before any request; a failed request is a `RuntimeError`; unparsable JSON is a `ValueError`; otherwise the parsed content |
| AiService.SchedulerKindsKnown | scheduler/tasks.py:70-84 | every kind the tick draws passes the type check |
| AiService.ExactMatchIgnoresCaseAndSpace | services/ai_service.py:185-187 | the exact comparison is symmetric and ignores outer whitespace and letter case |
| AiService.ExactMatchNormalForm | services/ai_service.py:187 | an answer matches its own normal form |
| AiService.CheckAnswer | services/ai_service.py:150-228 | non-translation kinds: correct exactly on a normalised match, with the fixed feedback, and no request; translation kinds: the parsed reply, or `RuntimeError` / `ValueError` |
| AiService.ExactGradingIgnoresReply | services/ai_service.py:185-191 | closed-form grading does not depend on the model's reply |
| Keyboards.MainMenu | bot/keyboards.py:5-27 | active: sleep and pause, no wake-up; inactive: wake-up only; add-word and statistics are the last two rows and appear nowhere else |
| Answers.KeyboardAnswersRoundTrip | bot/keyboards.py:30-48 | every button of the multiple-choice keyboard is labelled with its option, and its callback reaches the answer handler and parses back to its task and option index |
| Keyboards.DndCallbacks | bot/keyboards.py:51-67 | the picker carries exactly `dnd_30`, `dnd_60`, `dnd_120`, `dnd_180` and `dnd_cancel` |
| Answers.MenuPressIsNotAnswer | bot/handlers/answers.py:18-21 | no menu button is taken for an answer |
| Answers.ReferenceAnswer | bot/handlers/answers.py:51-55 | the English answer for `translation_to_en`, the Russian one for `translation_to_ru` |
| Answers.TextAnswerGuards | bot/handlers/answers.py:30-101 | no pending task, a pending multiple choice, or a failed check only reply, leaving both tables and the pending task as they were |
| Answers.TextAnswerGraded | bot/handlers/answers.py:59-94 | a graded answer records answer, outcome and feedback on the newest pending task only, and updates the user's row for its word once; a missing outcome counts as wrong |
| Answers.AnswerText | bot/handlers/answers.py:30-101 | the reply and the new task and progress tables are those of `TextAnswerEffect` |
| Answers.HandleTextAnswer | bot/handlers/answers.py:18-101 | ensures the user, then behaves as `TextAnswerEffect` for that user |
| Answers.PyIndex | bot/handlers/answers.py:137-138 | Python indexing: defined exactly for `-len <= i < len`, negative positions counting from the end |
| Answers.AnswerCallbackRoundTrip | bot/handlers/answers.py:108-113 | the data of option `i` of task `t` parses back to `(t, i)` |
| Answers.ChoiceAnswerGuards | bot/handlers/answers.py:118-128 | an unknown task id or an answered task only alerts, and both tables stay as they were |
| Answers.ChoiceAnswerGraded | bot/handlers/answers.py:130-158 | correct exactly when the index equals the stored correct index; the task records the chosen option and is answered; the row is updated once with the same outcome |
| Answers.ChoiceAnsweredOnce | bot/handlers/answers.py:125-128 | after a recorded choice, any further press on that task alerts and changes nothing |
| Answers.AnswerChoice | bot/handlers/answers.py:115-165 | the reply and the new task and progress tables are those of `ChoiceAnswerEffect` |
| Answers.HandleMultipleChoiceAnswer | bot/handlers/answers.py:104-173 | malformed data raises before anything is stored; otherwise ensures the user and behaves as `ChoiceAnswerEffect` |
| Scheduler.JobIdInjective | scheduler/tasks.py:163 | different users get different job ids |
| Scheduler.AtMostOneJobPerUser | scheduler/tasks.py:163-176 | with jobs filed under their own ids, a user has at most one job |
| Scheduler.StartLeavesOneJob | scheduler/tasks.py:163-176 | after starting, the user has exactly one job, with the new settings, and other users' jobs are untouched |
| Scheduler.StopRemovesOnlyThatUser | scheduler/tasks.py:189-192 | after stopping, the user has no job, other users' jobs are untouched, and stopping a user without a job changes nothing |
| Scheduler.TaskMessage | scheduler/tasks.py:108-151 | a message exactly for the four known types: translations as text, choices with the keyboard for that task |
| Scheduler.TickGating | scheduler/tasks.py:41-50 | a tick is skipped exactly when the user is missing, inactive or inside the do-not-disturb window |
| Scheduler.TickAllReviewed | scheduler/tasks.py:53-62 | an eligible tick reports "all reviewed" exactly when none of the user's rows is due |
| Scheduler.TickIssuesMostUrgent | scheduler/tasks.py:53-84 | an issued task is for the first row of the review query, ranked ahead of every due row, never-reviewed when one is due, with its word's generated content |
| Scheduler.DndSuppressesTicks | scheduler/tasks.py:47-50 | a pause of `m` minutes set at `start` silences every tick before `start + m`, and an active user is served again from then on |
| Scheduler.TickTasks | scheduler/tasks.py:86-93 | an issuing tick appends one pending task of the user with the generated content; any other tick changes nothing |
| Scheduler.TickIgnoresPendingTask | scheduler/tasks.py:86-93 | an issuing tick adds a second pending task next to one already waiting |
| Scheduler.DecideTick | scheduler/tasks.py:39-84 | the early returns of the tick compute exactly `PlanTick` |
| Scheduler.IssuedRowResolves | scheduler/tasks.py:64-67 | an issued row is a row of the user, and its word is in the table |
| Scheduler.SendTaskToUser | scheduler/tasks.py:31-105 | only the task table changes, as `PlanTick` decides; a failed generation stores nothing |
| Scheduler.IssueTask | scheduler/tasks.py:86-96 | stores the task with the next id and returns its message |
| Scheduler.ReplaceJob | scheduler/tasks.py:163-176 | the registry maps the user's job id to the new job and is otherwise unchanged |
| Scheduler.StartUserScheduler | scheduler/tasks.py:154-179 | replaces the user's job, then runs one gated tick |
| Scheduler.StopUserScheduler | scheduler/tasks.py:182-192 | removes the user's job id from the registry, if present |
| WordManagement.AcceptsEnglishIff | bot/handlers/word_management.py:38-46 | an English word is accepted exactly when it has a non-space character and only letters and spaces |
| WordManagement.AcceptsRussianIff | bot/handlers/word_management.py:62-70 | a translation is accepted exactly when it has a character other than space and hyphen, and only letters, spaces and hyphens |
| WordManagement.EnglishInputIsNormal | bot/handlers/word_management.py:38 | the stored English form is stable under the dialog's and the table's normalisation |
| WordManagement.AddWordDialog.constructor | bot/handlers/word_management.py:20-22 | a new dialog has no state and no data |
| WordManagement.AddWordDialog.StartAddWord | bot/handlers/word_management.py:25-32 | the dialog waits for the English word |
| WordManagement.AddWordDialog.Clear | bot/handlers/word_management.py:104-105 | no state and no stored word |
| WordManagement.AddWordDialog.ProcessWordEn | bot/handlers/word_management.py:35-56 | accepted exactly when the check passes; then the normal form is stored and the dialog waits for the translation; otherwise nothing changes |
| WordManagement.AddWordDialog.ProcessWordRu | bot/handlers/word_management.py:59-105 | a rejected translation changes nothing; an accepted one saves the stored word and clears the dialog |
| WordManagement.SaveWord | bot/handlers/word_management.py:77-102 | user and word ensured, an existing word keeps its translation, and a progress row is appended exactly when the user had none for the word |
| WordManagement.DndMinutesRoundTrip | bot/handlers/word_management.py:121-129 | `dnd_<n>` parses back to `n` minutes |
| WordManagement.DndCancelParses | bot/handlers/word_management.py:121-126 | `dnd_cancel` parses to the cancel action |
| WordManagement.DndKeyboardParses | bot/keyboards.py:53-65 | the picker's buttons parse to 30, 60, 120 and 180 minutes and cancel |
| WordManagement.PauseUser | bot/handlers/word_management.py:131-135 | ensures the user and pauses that row, and no other, until `now + minutes` |
| WordManagement.ProcessDndDuration | bot/handlers/word_management.py:118-135 | cancel and unparsable data touch no table; a duration pauses the user until `now + minutes` |
| BasicCommands.SeededWords | bot/handlers/basic_commands.py:26-30 | the seeded table is the three base pairs with ids 1, 2 and 3 |
| BasicCommands.SeedStep | bot/handlers/basic_commands.py:31-33 | each base word is new when inserted and is stored exactly as listed |
| BasicCommands.SeedWords | bot/handlers/basic_commands.py:23-33 | an empty table becomes exactly the three base words |
| BasicCommands.WithRowsExtends | bot/handlers/basic_commands.py:36-39 | the progress loop keeps every row and appends only fresh rows of the user |
| BasicCommands.WithRowsCovers | bot/handlers/basic_commands.py:36-39 | afterwards the user has a row for every word |
| BasicCommands.WithRowsNoOp | bot/handlers/basic_commands.py:36-39 | a user with a row for every word gets nothing new |
| BasicCommands.SecondLoopAddsNothing | bot/handlers/basic_commands.py:36-39 | running the loop twice adds nothing the second time |
| BasicCommands.EnsureProgressRows | bot/handlers/basic_commands.py:36-39 | the loop computes exactly `WithRows` |
| BasicCommands.CmdStart | bot/handlers/basic_commands.py:12-39 | user ensured with an existing row untouched; words seeded only when empty; a row for every word; only fresh rows appended; a repeat changes nothing |
| BasicCommands.SetActive | bot/handlers/basic_commands.py:66-69 | ensures the user and sets that row's active flag, and nothing else |
| BasicCommands.CmdWakeUp | bot/handlers/basic_commands.py:62-79 | the user is active, the registry holds the user's job at the user's interval, and one gated tick has run |
| BasicCommands.CmdSleep | bot/handlers/basic_commands.py:82-99 | the user is inactive and has no job |

## Left out

- Telegram I/O is not modelled: message texts, HTML, editing messages, alerts and
  the router filters. The text handler's filter is modelled as `IsAnswerText`.
- The `Notice` and reply datatypes name which message is sent, not its text.
- The prompts and the network request of the language model are not modelled.
  Its outcome is the `ApiReply` parameter; grading of translations is the
  `parse` oracle applied to the reply.
- `json.loads` and `json.dumps` are parameters, or are not modelled. The stored
  task content is the `Content` record itself. A reply that parses to JSON which
  is not an object is outside the model.
- A non-boolean `is_correct`, or a non-integer `correct_index`, in the JSON is
  outside the model. Their fields are typed `Option<bool>` and `Option<int>`.
- Sessions, commits and refreshes are not modelled. Each write takes effect at
  once, in the order the handlers issue it. database/database.py is not part of
  this model.
- The timer of the job scheduler and asyncio concurrency are not modelled. A tick
  is an explicit call at time `now`, and handlers run one at a time.
- `random.choice` of the task kind is the parameter `kind`.
- `created_at` and `updated_at` are recorded only on tasks, where the pending-task
  query needs them.
- `average_knowledge` in `get_user_statistics` is a float, and is not modelled.
  Neither is the hours text of the do-not-disturb reply.
- `cmd_statistics` only renders `get_user_statistics`, and `cmd_dnd_start` only
  shows the picker. Both are left out beyond the functions they call.
- `get_all_words` is the `words` field read directly.
- `PyStr.Strip`, `PyStr.Lower` and `PyStr.IsAlpha` cover space and TAB..CR as
  whitespace, the Latin and Russian alphabets and Ё/ё, not all of Unicode. The
  other characters Python's `str.strip()` removes (`\x1c`..`\x1f`, `\x85`,
  `\xa0` and the Unicode spaces) are kept by `PyStr.Strip`.
- `PyStr.ParseInt`: underscores and non-ASCII digits, which Python's `int()`
  also accepts, are not modelled.
- `ReviewQueue.WordsForReview` picks one order among rows with equal sort keys.
  Its contract holds for every such order, as SQL leaves ties open.
- `Crud.LastPendingTask` breaks ties in `created_at` by table order. Its contract
  only states the latest timestamp, which every tie-break satisfies.
- `Crud.Database.CreateUserWordProgress` and `Crud.Database.CreateTaskHistory`
  require the user and the word to exist, as every caller guarantees. An insert
  with a dangling foreign key is not modelled.
- `main.py`, `start_scheduler` and `shutdown_scheduler` only wire the bot and
  start the timer, and are not modelled.
