/**
 * The three-pane navigation shared by the template engine
 * (assets/js/template-engine.js) and the standalone hotkey system
 * (assets/js/hotkeys.js): the panes in the order of the `panels` array, the
 * `navigatePanels` index arithmetic, and the key events both dispatchers read.
 */
module Panels {
  import opened Strings

  /** One of `['left', 'middle', 'right']`. */
  datatype Pane = LeftPane | MiddlePane | RightPane

  /** `panels.indexOf(pane)`. */
  function Index(p: Pane): (i: nat)
    ensures i < 3
  {
    match p
    case LeftPane => 0
    case MiddlePane => 1
    case RightPane => 2
  }

  /** `panels[i]`. */
  function PaneAt(i: nat): (p: Pane)
    requires i < 3
    ensures Index(p) == i
  {
    if i == 0 then LeftPane else if i == 1 then MiddlePane else RightPane
  }

  /** The name of a pane, as stored in `currentPanel` and used in the `.<name>-pane` selector. */
  function Name(p: Pane): string
  {
    match p
    case LeftPane => "left"
    case MiddlePane => "middle"
    case RightPane => "right"
  }

  /** The four keys that, with CTRL, reach `navigatePanels`. */
  predicate IsArrowKey(key: string)
  {
    key == "ArrowLeft" || key == "ArrowRight" || key == "ArrowUp" || key == "ArrowDown"
  }

  /** The vertical arrows scroll the current pane instead of moving to another one. */
  predicate IsScrollKey(direction: string)
  {
    direction == "ArrowUp" || direction == "ArrowDown"
  }

  /** The amount `scrollActivePanel` adds to `scrollTop`. */
  function ScrollAmount(direction: string): int
    requires IsScrollKey(direction)
  {
    if direction == "ArrowUp" then -100 else 100
  }

  /**
   * The pane `navigatePanels(direction)` makes current: one index to the left
   * (`Math.max(0, i - 1)`) or to the right (`Math.min(panels.length - 1, i + 1)`);
   * any other direction leaves the index where it is.
   */
  function NextPane(p: Pane, direction: string): Pane
  {
    var i := Index(p);
    if direction == "ArrowLeft" then PaneAt(if i - 1 < 0 then 0 else i - 1)
    else if direction == "ArrowRight" then PaneAt(if 2 < i + 1 then 2 else i + 1)
    else p
  }

  /** Moving left never increases the index and moving right never decreases it; both stop at the ends. */
  lemma NextPaneClamped(p: Pane)
    ensures Index(NextPane(p, "ArrowLeft")) == if p == LeftPane then 0 else Index(p) - 1
    ensures Index(NextPane(p, "ArrowRight")) == if p == RightPane then 2 else Index(p) + 1
    ensures NextPane(LeftPane, "ArrowLeft") == LeftPane && NextPane(RightPane, "ArrowRight") == RightPane
  {
  }

  /** A step right undoes a step left that moved, and a step left undoes a step right that moved. */
  lemma NextPaneUndo(p: Pane)
    ensures p != LeftPane ==> NextPane(NextPane(p, "ArrowLeft"), "ArrowRight") == p
    ensures p != RightPane ==> NextPane(NextPane(p, "ArrowRight"), "ArrowLeft") == p
  {
  }

  /** The pane reached after `n` presses of the same direction key. */
  function Repeat(p: Pane, direction: string, n: nat): Pane
    decreases n
  {
    if n == 0 then p else Repeat(NextPane(p, direction), direction, n - 1)
  }

  /** However often ArrowLeft is pressed, the index goes down by that many and stops at 0. */
  lemma {:induction false} RepeatLeft(p: Pane, n: nat)
    ensures Index(Repeat(p, "ArrowLeft", n)) == if n >= Index(p) then 0 else Index(p) - n
    decreases n
  {
    if n > 0 {
      RepeatLeft(NextPane(p, "ArrowLeft"), n - 1);
    }
  }

  /** However often ArrowRight is pressed, the index goes up by that many and stops at 2. */
  lemma {:induction false} RepeatRight(p: Pane, n: nat)
    ensures Index(Repeat(p, "ArrowRight", n)) == if Index(p) + n >= 2 then 2 else Index(p) + n
    decreases n
  {
    if n > 0 {
      RepeatRight(NextPane(p, "ArrowRight"), n - 1);
    }
  }

  /** The message shown after a move: `${capitalize(currentPanel)} panel active`. */
  function PanelMessage(p: Pane): string
  {
    Capitalize(Name(p)) + " panel active"
  }

  /** The fields of a `keydown` event that the dispatchers read. */
  datatype KeyEvent = KeyEvent(key: string, ctrl: bool)

  /** What a `handleKeydown` goes on to do; `NoAction` when no branch matches. */
  datatype KeyAction =
    | NoAction
    | FocusSearch
    | ToggleFeature(toggleId: string)
    | Navigate(direction: string)
    | ClearFocus
}
