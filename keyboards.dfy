/**
 * The keyboards the bot shows: the reply-keyboard main menu, the inline keyboard
 * of a multiple-choice exercise and the do-not-disturb duration picker.  Only
 * their contents are modelled (labels, callback data, row layout).
 */
module Keyboards {
  import opened PyStr

  /** The buttons of the main menu. */
  datatype MenuButton = Sleep | DoNotDisturb | WakeUp | AddWord | Statistics

  function Label(b: MenuButton): string {
    match b
    case Sleep => "😴 Лег спать"
    case DoNotDisturb => "⏸ Не беспокоить"
    case WakeUp => "🌅 Я проснулся"
    case AddWord => "➕ Добавить слово"
    case Statistics => "📊 Моя статистика"
  }

  /**
   * `get_main_menu_keyboard`, one button per row.  An active user can go to sleep
   * or pause; an inactive one can only wake up; adding a word and the statistics
   * are always the last two rows.
   */
  function MainMenu(isActive: bool): (rows: seq<MenuButton>)
    ensures isActive ==> Sleep in rows && DoNotDisturb in rows && WakeUp !in rows
    ensures !isActive ==> WakeUp in rows && Sleep !in rows && DoNotDisturb !in rows
    ensures |rows| >= 2 && rows[|rows| - 2] == AddWord && rows[|rows| - 1] == Statistics
    ensures AddWord !in rows[..|rows| - 2] && Statistics !in rows[..|rows| - 2]
  {
    var head := if isActive then [Sleep, DoNotDisturb] else [WakeUp];
    assert (head + [AddWord, Statistics])[..|head|] == head;
    head + [AddWord, Statistics]
  }

  /** An inline button: its text and the callback data it sends back. */
  datatype InlineButton = InlineButton(text: string, callbackData: string)

  /** The callback data of option `index` of task `taskId`. */
  function AnswerCallbackData(taskId: nat, index: nat): string {
    "answer_" + NatToString(taskId) + "_" + NatToString(index)
  }

  /**
   * `get_multiple_choice_keyboard`: one row per option, in the given order, labelled
   * with the option and carrying its task id and position.
   */
  function MultipleChoiceKeyboard(options: seq<string>, taskId: nat): (rows: seq<InlineButton>)
    ensures |rows| == |options|
    ensures forall i :: 0 <= i < |rows|
                        ==> rows[i] == InlineButton(options[i], AnswerCallbackData(taskId, i))
  {
    seq(|options|, i requires 0 <= i < |options| => InlineButton(options[i], AnswerCallbackData(taskId, i)))
  }

  /** `get_dnd_duration_keyboard`: two rows of two durations and a cancel row. */
  function DndDurationKeyboard(): seq<seq<InlineButton>> {
    [
      [InlineButton("30 минут", "dnd_30"), InlineButton("1 час", "dnd_60")],
      [InlineButton("2 часа", "dnd_120"), InlineButton("3 часа", "dnd_180")],
      [InlineButton("❌ Отмена", "dnd_cancel")]
    ]
  }

  /** The callback data carried by the duration keyboard, row by row. */
  function DndCallbacks(): (r: seq<string>)
    ensures r == ["dnd_30", "dnd_60", "dnd_120", "dnd_180", "dnd_cancel"]
  {
    var rows := DndDurationKeyboard();
    seq(5, i requires 0 <= i < 5 =>
      if i < 2 then rows[0][i].callbackData
      else if i < 4 then rows[1][i - 2].callbackData
      else rows[2][0].callbackData)
  }
}
