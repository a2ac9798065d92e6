/**
 * The abstract page the scripts act on: `localStorage` as a map from key to
 * string, the body's class list as a set, the input controls by element id,
 * the profile images, the `[data-component]` slots, the `<script src>` elements,
 * the `.page-section` elements, the middle pane's `column-set` blocks, the
 * listeners attached so far and a log of the transient messages shown.
 */
module Dom {
  import opened Panels

  datatype Option<T> = None | Some(value: T)

  /** The inline `style.display` of an element: '' (not set), 'block' or 'none'. */
  datatype Display = Unset | Block | Hidden

  /** Which script attached a listener (to a control, or to the document for `keydown`). */
  datatype Handler =
    | DarkModeScriptChange     // assets/js/dark-mode.js
    | SkiingScriptChange       // assets/js/go-skiing.js
    | CoolScriptChange         // assets/js/david-cool.js
    | SiteDarkChange           // assets/js/script.js, dark toggle
    | SiteAiChange             // assets/js/script.js, AI toggle
    | EngineDarkChange         // assets/js/template-engine.js
    | EngineSkiingChange
    | EngineCoolChange
    | EngineHotkeyChange
    | EngineKeydown
    | HotkeySystemChange       // assets/js/hotkeys.js
    | HotkeySystemKeydown
    | SearchInputListener      // assets/js/search.js
    | SearchKeydownListener
    | SearchEscapeListener
    | ScrollImageListener      // assets/js/scroll-image-switch.js, on the window
    | PopStateListener         // script.js, on the window

  /** An `<input>` element: its `checked` and `value`, its marker attributes and its listeners. */
  datatype Input = Input(checked: bool, value: string, attrs: set<string>, listeners: seq<Handler>)

  /** The `.left-pane img` element. */
  datatype Image = Image(src: string, attrs: set<string>)

  /** Inner HTML of a search unit: as loaded, or highlighted by the search with an escaped pattern. */
  datatype Html = Markup(source: string) | Highlighted(original: Html, pattern: string)

  /** A `column-unit` element: its text content and its inner HTML. */
  datatype Unit = Unit(text: string, html: Html)

  /** A `column-set` element of the middle pane with its slot-0 and slot-1 units. */
  datatype ColumnSet = ColumnSet(titleUnit: Option<Unit>, contentUnit: Option<Unit>, display: Display, resultStyle: bool)

  /** An element carrying `data-component="<component>"`, with its inner HTML. */
  datatype Slot = Slot(component: string, html: string)

  /** A `.page-section` element. */
  datatype Section = Section(id: string, display: Display)

  /** The search summary box: the query and the number of matches it reports. */
  datatype Summary = Summary(query: string, count: nat)

  const DarkToggle := "dark-toggle"
  const SkiingToggle := "go-skiing-toggle"
  const CoolToggle := "make-me-cool-toggle"
  const HotkeyToggle := "hotkey-toggle"
  const SearchInput := "search-input"
  const AiToggle := "ai-toggle"

  const DarkModeKey := "darkMode"
  const SkiingKey := "goSkiingMode"
  const CoolKey := "coolMode"
  const HotkeysKey := "hotkeysEnabled"
  const AiKey := "aiEnabled"

  const DarkClass := "dark-mode"
  const SkiingClass := "go-skiing-mode"
  const CoolClass := "cool-mode"
  const AiClass := "ai-enabled"

  /** A newly created `<input type="checkbox">`. */
  const NewCheckbox := Input(false, "", {}, [])

  /** `String(b)`, which is what `localStorage.setItem(key, b)` stores for a boolean. */
  function BoolString(b: bool): string
  {
    if b then "true" else "false"
  }

  /** `localStorage.getItem(key) === 'true'`; a missing key reads as `null`. */
  predicate StoredTrue(storage: map<string, string>, key: string)
  {
    key in storage && storage[key] == "true"
  }

  /** `classList.toggle(c, on)`: present afterwards exactly when `on`. */
  function SetClass(classes: set<string>, c: string, on: bool): set<string>
  {
    if on then classes + {c} else classes - {c}
  }

  /** The skiing and cool modes are not both stored as on. */
  predicate Exclusive(storage: map<string, string>)
  {
    !(StoredTrue(storage, SkiingKey) && StoredTrue(storage, CoolKey))
  }

  /** The exclusion guard of the two mode toggles: turning `key` on while `partner` is stored on is refused. */
  predicate Refused(storage: map<string, string>, partner: string, checked: bool)
  {
    checked && StoredTrue(storage, partner)
  }

  /** A write that passed the exclusion guard keeps the two modes exclusive. */
  lemma GuardedWriteKeepsExclusive(storage: map<string, string>, key: string, partner: string, checked: bool)
    requires (key == SkiingKey && partner == CoolKey) || (key == CoolKey && partner == SkiingKey)
    requires Exclusive(storage) && !Refused(storage, partner, checked)
    ensures Exclusive(storage[key := BoolString(checked)])
    ensures StoredTrue(storage[key := BoolString(checked)], key) == checked
  {
  }

  class Page {
    var storage: map<string, string>
    var bodyClasses: set<string>
    var inputs: map<string, Input>
    var panes: set<Pane>                // which of `.left-pane`, `.middle-pane`, `.right-pane` exist
    var outlined: Option<Pane>          // the pane carrying the active-panel outline
    var scrollTop: map<Pane, int>       // `scrollTop` of each pane; a missing entry reads as 0
    var activeElement: Option<string>   // id of the focused control; None for the body
    var hash: string                    // `window.location.hash`
    var leftPaneImg: Option<Image>
    var authorImgs: seq<string>
    var slots: seq<Slot>
    var scripts: seq<string>
    var sections: seq<Section>
    var columnSets: seq<ColumnSet>
    var summary: Option<Summary>
    var keydownListeners: seq<Handler>  // `keydown` listeners on the document
    var windowListeners: seq<Handler>   // `scroll` and `popstate` listeners on the window
    var dispatched: seq<string>         // ids of controls a synthetic `change` event was sent to
    var messages: seq<string>           // the transient messages shown, oldest first

    /** `showMessage` and its variants: the message is added to those shown. */
    method ShowMessage(msg: string)
      modifies this`messages
      ensures messages == old(messages) + [msg]
    {
      messages := messages + [msg];
    }

    /**
     * `updateActivePanel`: the outline is taken off every pane, then put on the
     * current one when that pane exists and hotkeys are enabled.
     */
    method UpdateActivePanel(current: Pane, enabled: bool)
      modifies this`outlined
      ensures outlined == if current in panes && enabled then Some(current) else None
    {
      outlined := None;
      if current in panes && enabled {
        outlined := Some(current);
      }
    }

    /** `clearActivePanel`: no pane is outlined. */
    method ClearActivePanel()
      modifies this`outlined
      ensures outlined == None
    {
      outlined := None;
    }

    /** The `scrollTop` of a pane, 0 when never scrolled. */
    function ScrollOf(p: Pane): int
      reads this
    {
      if p in scrollTop then scrollTop[p] else 0
    }

    /** `scrollActivePanel(amount)`: an existing pane scrolls by `amount`, every other pane stays. */
    method ScrollPane(p: Pane, amount: int)
      modifies this`scrollTop
      ensures p in panes ==> ScrollOf(p) == old(ScrollOf(p)) + amount
      ensures forall q :: q != p || p !in panes ==> ScrollOf(q) == old(ScrollOf(q))
    {
      if p in panes {
        scrollTop := scrollTop[p := ScrollOf(p) + amount];
      }
    }

    /** `input.checked = b` on the existing control `id`. */
    method SetChecked(id: string, b: bool)
      requires id in inputs
      modifies this`inputs
      ensures inputs == old(inputs)[id := old(inputs)[id].(checked := b)]
    {
      inputs := inputs[id := inputs[id].(checked := b)];
    }

    /** `input.addEventListener('change', h)` on the existing control `id`. */
    method AddListener(id: string, h: Handler)
      requires id in inputs
      modifies this`inputs
      ensures inputs == old(inputs)[id := old(inputs)[id].(listeners := old(inputs)[id].listeners + [h])]
    {
      inputs := inputs[id := inputs[id].(listeners := inputs[id].listeners + [h])];
    }

    /** `input.setAttribute(attr, 'true')` on the existing control `id`. */
    method MarkAttr(id: string, attr: string)
      requires id in inputs
      modifies this`inputs
      ensures inputs == old(inputs)[id := old(inputs)[id].(attrs := old(inputs)[id].attrs + {attr})]
    {
      inputs := inputs[id := inputs[id].(attrs := inputs[id].attrs + {attr})];
    }

    /**
     * Restoring a persisted toggle on load: when `key` is stored as "true" the
     * body gets `cls` and the control, if there is one, is checked; any other
     * stored value, or none, changes nothing.
     */
    method RestoreToggle(id: string, cls: string, key: string)
      modifies this`bodyClasses, this`inputs
      ensures bodyClasses == if StoredTrue(storage, key) then old(bodyClasses) + {cls} else old(bodyClasses)
      ensures inputs == if StoredTrue(storage, key) && id in old(inputs)
        then old(inputs)[id := old(inputs)[id].(checked := true)] else old(inputs)
    {
      if StoredTrue(storage, key) {
        bodyClasses := bodyClasses + {cls};
        if id in inputs {
          SetChecked(id, true);
        }
      }
    }

    /**
     * The `change` listener of a persisted toggle: `classList.toggle(cls, checked)`
     * and `localStorage.setItem(key, checked)`. Afterwards the class is present and
     * the key reads as "true" exactly when the control is checked, and no other
     * class or key has changed.
     */
    method PersistToggle(id: string, cls: string, key: string)
      requires id in inputs
      modifies this`bodyClasses, this`storage
      ensures (cls in bodyClasses) == Checked(id) && StoredTrue(storage, key) == Checked(id)
      ensures forall c :: c != cls ==> (c in bodyClasses <==> c in old(bodyClasses))
      ensures key in storage && forall k :: k != key ==> (k in storage <==> k in old(storage))
      ensures forall k :: k in storage && k != key ==> storage[k] == old(storage)[k]
      ensures storage[key] == BoolString(Checked(id))
    {
      bodyClasses := SetClass(bodyClasses, cls, Checked(id));
      storage := storage[key := BoolString(Checked(id))];
    }

    /** The `checked` state of control `id`, read only where the control exists. */
    function Checked(id: string): bool
      reads this
      requires id in inputs
    {
      inputs[id].checked
    }
  }
}
