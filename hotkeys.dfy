/**
 * assets/js/hotkeys.js: the standalone `HotkeySystem` for pages without the
 * template engine. It shares the pane machine and the keyboard actions with
 * the engine, but it starts enabled unless "false" is stored, it has three
 * more shortcuts that flip the feature toggles, and its guard attribute and
 * its messages are its own.
 */
module Hotkeys {
  import opened Strings
  import opened Panels
  import opened Dom
  import opened Search
  import opened HotkeyActions
  import TemplateEngine

  const HotkeyMark := "data-hotkey-initialized"
  const HotkeysOnMessage := "Hotkeys enabled! CTRL+K=search, CTRL+arrows=navigate, ESC=clear"
  const HotkeysOffMessage := "Hotkeys disabled"

  /** `localStorage.getItem(key) !== 'false'`: on unless "false" is stored; a missing key reads as on. */
  predicate DefaultOn(storage: map<string, string>, key: string)
  {
    !(key in storage && storage[key] == "false")
  }

  /**
   * The standalone system and the template engine read the stored flag
   * differently: they disagree exactly when nothing is stored or the stored
   * value is neither "true" nor "false", and then the standalone system is on
   * and the engine off.
   */
  lemma DefaultsDisagree(storage: map<string, string>)
    ensures DefaultOn(storage, HotkeysKey) != StoredTrue(storage, HotkeysKey) <==>
      HotkeysKey !in storage || (storage[HotkeysKey] != "true" && storage[HotkeysKey] != "false")
    ensures StoredTrue(storage, HotkeysKey) ==> DefaultOn(storage, HotkeysKey)
  {
  }

  /** The toggle a CTRL shortcut flips, if any: d, s and c. */
  function ShortcutToggle(key: string): (r: Option<string>)
    ensures r.Some? <==> key == "d" || key == "s" || key == "c"
    ensures r == Some(DarkToggle) <==> key == "d"
    ensures r == Some(SkiingToggle) <==> key == "s"
    ensures r == Some(CoolToggle) <==> key == "c"
  {
    if key == "d" then Some(DarkToggle)
    else if key == "s" then Some(SkiingToggle)
    else if key == "c" then Some(CoolToggle)
    else None
  }

  /**
   * The dispatch of `HotkeySystem.handleKeydown`: nothing while hotkeys are
   * off; otherwise CTRL+K, CTRL+D, CTRL+S, CTRL+C, CTRL with an arrow key and
   * Escape are tried in that order, the first match winning.
   */
  function HotkeyKeyAction(enabled: bool, e: KeyEvent): (a: KeyAction)
    ensures !enabled ==> a == NoAction
    ensures a == FocusSearch <==> enabled && e.ctrl && e.key == "k"
    ensures a.ToggleFeature? <==> enabled && e.ctrl && e.key != "k" && ShortcutToggle(e.key).Some?
    ensures a.ToggleFeature? ==> Some(a.toggleId) == ShortcutToggle(e.key)
    ensures a.Navigate? <==> enabled && e.ctrl && e.key != "k" && ShortcutToggle(e.key).None? && IsArrowKey(e.key)
    ensures a.Navigate? ==> a.direction == e.key
    ensures a == ClearFocus <==>
      enabled && e.key == "Escape" && !(e.ctrl && (e.key == "k" || ShortcutToggle(e.key).Some? || IsArrowKey(e.key)))
  {
    if !enabled then NoAction
    else if e.ctrl && e.key == "k" then FocusSearch
    else if e.ctrl && ShortcutToggle(e.key).Some? then ToggleFeature(ShortcutToggle(e.key).value)
    else if e.ctrl && IsArrowKey(e.key) then Navigate(e.key)
    else if e.key == "Escape" then ClearFocus
    else NoAction
  }

  /** The two dispatchers differ only on the three toggle shortcuts, which the engine ignores. */
  lemma DispatchersAgree(enabled: bool, e: KeyEvent)
    ensures HotkeyKeyAction(enabled, e) != TemplateEngine.EngineKeyAction(enabled, e) <==>
      enabled && e.ctrl && (e.key == "d" || e.key == "s" || e.key == "c")
    ensures HotkeyKeyAction(enabled, e) != TemplateEngine.EngineKeyAction(enabled, e) ==>
      TemplateEngine.EngineKeyAction(enabled, e) == NoAction
  {
  }

  /** `toggleId.replace('-toggle', '').replace('-', ' ')`: each `replace` acts on the first occurrence only. */
  function FeatureName(id: string): string
  {
    ReplaceFirst(ReplaceFirst(id, "-toggle", ""), "-", " ")
  }

  /**
   * For an id made of a word without `-`, a `-`, and a rest, followed by
   * `-toggle`, and with no `t` before `-toggle`: the name is the word, a space
   * and the rest, so only the first remaining `-` becomes a space.
   */
  lemma {:induction false} FeatureNameOf(w: string, rest: string)
    requires LacksFrom(w, '-', 0) && LacksFrom(w, 't', 0) && LacksFrom(rest, 't', 0)
    ensures FeatureName(w + "-" + rest + "-toggle") == w + " " + rest
  {
    assert NoOverlapFrom("-toggle", 1);
    NoOverlapFromSound("-toggle", 1);
    LacksFromSound(w, '-', 0);
    LacksFromSound(w, 't', 0);
    LacksFromSound(rest, 't', 0);
    var base := w + "-" + rest;
    assert forall j :: 0 <= j < |base| ==> base[j] != "-toggle"[1];
    LacksNotContains(base, "-toggle", 1);
    ReplaceFirstAfter(base, "-toggle", "", "");
    assert base + "-toggle" + "" == base + "-toggle";
    assert base + "" + "" == base;
    LacksNotContains(w, "-", 0);
    ReplaceFirstAfter(w, "-", rest, " ");
  }

  /** For an id that is a word without `-` or `t` followed by `-toggle`, the name is the word. */
  lemma {:induction false} FeatureNameWhole(w: string)
    requires LacksFrom(w, '-', 0) && LacksFrom(w, 't', 0)
    ensures FeatureName(w + "-toggle") == w
  {
    assert NoOverlapFrom("-toggle", 1);
    NoOverlapFromSound("-toggle", 1);
    LacksFromSound(w, '-', 0);
    LacksFromSound(w, 't', 0);
    LacksNotContains(w, "-toggle", 1);
    ReplaceFirstAfter(w, "-toggle", "", "");
    assert w + "-toggle" + "" == w + "-toggle";
    assert w + "" + "" == w;
    LacksNotContains(w, "-", 0);
  }

  /** The name of `dark-toggle` is "dark". */
  lemma DarkName()
    ensures FeatureName("dark" + "-toggle") == "dark"
  {
    assert LacksFrom("dark", '-', 0) && LacksFrom("dark", 't', 0);
    FeatureNameWhole("dark");
  }

  /** The name of `go-skiing-toggle` is "go skiing". */
  lemma SkiingName()
    ensures FeatureName("go" + "-" + "skiing" + "-toggle") == "go" + " " + "skiing"
  {
    assert LacksFrom("go", '-', 0) && LacksFrom("go", 't', 0) && LacksFrom("skiing", 't', 0);
    FeatureNameOf("go", "skiing");
  }

  /** The name of `make-me-cool-toggle` is "make me-cool": the second `-` stays. */
  lemma CoolName()
    ensures FeatureName("make" + "-" + "me-cool" + "-toggle") == "make" + " " + "me-cool"
  {
    assert LacksFrom("make", '-', 0) && LacksFrom("make", 't', 0) && LacksFrom("me-cool", 't', 0);
    FeatureNameOf("make", "me-cool");
  }

  /** The message `toggleFeature` shows: the capitalised feature name and the new state. */
  function ToggleMessage(id: string, checked: bool): string
  {
    Capitalize(FeatureName(id)) + " " + (if checked then "enabled" else "disabled")
  }

  class HotkeySystem {
    var hotkeysEnabled: bool
    var currentPanel: Pane

    /** `new HotkeySystem()`, before `init` schedules `initializeHotkeys`. */
    constructor()
      ensures !hotkeysEnabled && currentPanel == MiddlePane
    {
      hotkeysEnabled := false;
      currentPanel := MiddlePane;
    }

    /**
     * `initializeHotkeys`: a missing or already marked toggle stops it with no
     * change; otherwise the toggle is marked, hotkeys are on unless "false" is
     * stored, the change and keydown listeners are attached, and an enabled
     * start outlines the current pane.
     */
    method InitializeHotkeys(page: Page)
      modifies this`hotkeysEnabled, page`inputs, page`keydownListeners, page`outlined
      ensures HotkeyToggle !in old(page.inputs) || HotkeyMark in old(page.inputs)[HotkeyToggle].attrs ==>
        && page.inputs == old(page.inputs) && page.keydownListeners == old(page.keydownListeners)
        && page.outlined == old(page.outlined) && hotkeysEnabled == old(hotkeysEnabled)
      ensures HotkeyToggle in old(page.inputs) && HotkeyMark !in old(page.inputs)[HotkeyToggle].attrs ==>
        && hotkeysEnabled == DefaultOn(page.storage, HotkeysKey)
        && page.inputs == old(page.inputs)[HotkeyToggle := old(page.inputs)[HotkeyToggle].(
             attrs := old(page.inputs)[HotkeyToggle].attrs + {HotkeyMark},
             checked := hotkeysEnabled,
             listeners := old(page.inputs)[HotkeyToggle].listeners + [HotkeySystemChange])]
        && page.keydownListeners == old(page.keydownListeners) + [HotkeySystemKeydown]
        && page.outlined == if hotkeysEnabled then (if currentPanel in page.panes then Some(currentPanel) else None) else old(page.outlined)
    {
      if HotkeyToggle !in page.inputs {
        return;
      }
      if HotkeyMark in page.inputs[HotkeyToggle].attrs {
        return;
      }
      page.MarkAttr(HotkeyToggle, HotkeyMark);
      var enabled := DefaultOn(page.storage, HotkeysKey);
      page.SetChecked(HotkeyToggle, enabled);
      hotkeysEnabled := enabled;
      page.AddListener(HotkeyToggle, HotkeySystemChange);
      page.keydownListeners := page.keydownListeners + [HotkeySystemKeydown];
      if hotkeysEnabled {
        page.UpdateActivePanel(currentPanel, hotkeysEnabled);
      }
    }

    /** The toggle's change listener: the checkbox value is stored and becomes `hotkeysEnabled`. */
    method OnToggleChange(page: Page)
      requires HotkeyToggle in page.inputs
      modifies this`hotkeysEnabled, page`storage, page`messages, page`outlined
      ensures hotkeysEnabled == page.Checked(HotkeyToggle)
      ensures page.storage == old(page.storage)[HotkeysKey := BoolString(hotkeysEnabled)]
      ensures DefaultOn(page.storage, HotkeysKey) == hotkeysEnabled && StoredTrue(page.storage, HotkeysKey) == hotkeysEnabled
      ensures page.messages == old(page.messages) + [if hotkeysEnabled then HotkeysOnMessage else HotkeysOffMessage]
      ensures page.outlined == if hotkeysEnabled && currentPanel in page.panes then Some(currentPanel) else None
    {
      var enabled := page.Checked(HotkeyToggle);
      page.storage := page.storage[HotkeysKey := BoolString(enabled)];
      hotkeysEnabled := enabled;
      if enabled {
        page.ShowMessage(HotkeysOnMessage);
        page.UpdateActivePanel(currentPanel, hotkeysEnabled);
      } else {
        page.ShowMessage(HotkeysOffMessage);
        page.ClearActivePanel();
      }
    }

    /**
     * `toggleFeature(id)`: an existing toggle is flipped exactly once, a
     * `change` event is sent to it, and the new state is announced; a missing
     * toggle changes nothing.
     */
    method ToggleFeature(page: Page, id: string)
      modifies page`inputs, page`dispatched, page`messages
      ensures id !in old(page.inputs) ==>
        page.inputs == old(page.inputs) && page.dispatched == old(page.dispatched) && page.messages == old(page.messages)
      ensures id in old(page.inputs) ==>
        && page.inputs == old(page.inputs)[id := old(page.inputs)[id].(checked := !old(page.inputs)[id].checked)]
        && page.Checked(id) != old(page.Checked(id))
        && page.dispatched == old(page.dispatched) + [id]
        && page.messages == old(page.messages) + [ToggleMessage(id, page.Checked(id))]
    {
      if id in page.inputs {
        page.SetChecked(id, !page.Checked(id));
        page.dispatched := page.dispatched + [id];
        page.ShowMessage(ToggleMessage(id, page.Checked(id)));
      }
    }

    /**
     * `handleKeydown`: what HotkeyKeyAction selects runs. CTRL+K focuses the
     * search input, a shortcut flips its toggle, CTRL with an arrow navigates,
     * and Escape runs the corrected `clearFocus` with "Focus cleared"; every
     * branch leaves the rest of the page as it was. `search` is
     * `window.clearSearch`'s owner, `null` when the search script is not there.
     */
    method HandleKeydown(page: Page, e: KeyEvent, search: SearchBox?)
      requires search != null ==> search.Valid(page)
      modifies this`currentPanel
      modifies page`activeElement, page`messages, page`scrollTop, page`outlined, page`inputs, page`columnSets, page`summary, page`dispatched
      ensures HotkeyKeyAction(hotkeysEnabled, e) == NoAction ==> unchanged(page) && currentPanel == old(currentPanel)
      ensures HotkeyKeyAction(hotkeysEnabled, e).Navigate? ==>
        && currentPanel == (if IsScrollKey(e.key) then old(currentPanel) else NextPane(old(currentPanel), e.key))
        && page.inputs == old(page.inputs) && page.activeElement == old(page.activeElement)
        && page.columnSets == old(page.columnSets) && page.summary == old(page.summary)
      ensures HotkeyKeyAction(hotkeysEnabled, e).Navigate? && IsScrollKey(e.key) ==>
        && page.outlined == old(page.outlined) && page.messages == old(page.messages)
        && (old(currentPanel) in page.panes ==> page.ScrollOf(old(currentPanel)) == old(page.ScrollOf(currentPanel)) + ScrollAmount(e.key))
        && (forall q :: q != old(currentPanel) || old(currentPanel) !in page.panes ==> page.ScrollOf(q) == old(page.ScrollOf(q)))
      ensures HotkeyKeyAction(hotkeysEnabled, e).Navigate? && !IsScrollKey(e.key) ==>
        && page.scrollTop == old(page.scrollTop)
        && page.outlined == (if currentPanel in page.panes then Some(currentPanel) else None)
        && page.messages == old(page.messages) + [PanelMessage(currentPanel)]
      ensures !HotkeyKeyAction(hotkeysEnabled, e).Navigate? ==> currentPanel == old(currentPanel)
      ensures HotkeyKeyAction(hotkeysEnabled, e) == FocusSearch ==>
        && page.activeElement == (if SearchInput in old(page.inputs) then Some(SearchInput) else old(page.activeElement))
        && page.messages == old(page.messages) + (if SearchInput in old(page.inputs) then ["Search activated"] else [])
        && page.inputs == old(page.inputs) && page.columnSets == old(page.columnSets) && page.summary == old(page.summary)
        && page.scrollTop == old(page.scrollTop) && page.outlined == old(page.outlined)
      ensures HotkeyKeyAction(hotkeysEnabled, e).ToggleFeature? ==>
        var id := HotkeyKeyAction(hotkeysEnabled, e).toggleId;
        && page.activeElement == old(page.activeElement) && page.columnSets == old(page.columnSets)
        && page.summary == old(page.summary) && page.scrollTop == old(page.scrollTop) && page.outlined == old(page.outlined)
        && (id in old(page.inputs) ==>
             && page.inputs == old(page.inputs)[id := old(page.inputs)[id].(checked := !old(page.inputs)[id].checked)]
             && page.Checked(id) != old(page.Checked(id))
             && (forall other :: other in old(page.inputs) && other != id ==> page.inputs[other] == old(page.inputs[other]))
             && page.dispatched == old(page.dispatched) + [id]
             && page.messages == old(page.messages) + [ToggleMessage(id, page.Checked(id))])
        && (id !in old(page.inputs) ==>
             page.inputs == old(page.inputs) && page.dispatched == old(page.dispatched) && page.messages == old(page.messages))
      ensures !HotkeyKeyAction(hotkeysEnabled, e).ToggleFeature? ==> page.dispatched == old(page.dispatched)
      ensures HotkeyKeyAction(hotkeysEnabled, e) == ClearFocus ==>
        && page.activeElement == None && page.messages == old(page.messages) + ["Focus cleared"]
        && page.scrollTop == old(page.scrollTop) && page.outlined == old(page.outlined)
        && (old(page.activeElement) == Some(SearchInput) && SearchInput in old(page.inputs) ==>
             && page.inputs == old(page.inputs)[SearchInput := old(page.inputs)[SearchInput].(value := "")]
             && (search != null ==> search.Valid(page) && search.Cleared(old(page.columnSets), page))
             && (search == null ==> page.columnSets == old(page.columnSets) && page.summary == old(page.summary)))
        && (!(old(page.activeElement) == Some(SearchInput) && SearchInput in old(page.inputs)) ==>
             page.inputs == old(page.inputs) && page.columnSets == old(page.columnSets) && page.summary == old(page.summary))
    {
      RunAction(page, HotkeyKeyAction(hotkeysEnabled, e), search);
    }

    /**
     * Helper for HandleKeydown: carries out one selected action, with the
     * branch bodies of `handleKeydown`.
     */
    method RunAction(page: Page, action: KeyAction, search: SearchBox?)
      requires search != null ==> search.Valid(page)
      modifies this`currentPanel
      modifies page`activeElement, page`messages, page`scrollTop, page`outlined, page`inputs, page`columnSets, page`summary, page`dispatched
      ensures action == NoAction ==> unchanged(page) && currentPanel == old(currentPanel)
      ensures action.Navigate? ==>
        && currentPanel == (if IsScrollKey(action.direction) then old(currentPanel) else NextPane(old(currentPanel), action.direction))
        && page.inputs == old(page.inputs) && page.activeElement == old(page.activeElement)
        && page.columnSets == old(page.columnSets) && page.summary == old(page.summary)
      ensures action.Navigate? && IsScrollKey(action.direction) ==>
        && page.outlined == old(page.outlined) && page.messages == old(page.messages)
        && (old(currentPanel) in page.panes ==> page.ScrollOf(old(currentPanel)) == old(page.ScrollOf(currentPanel)) + ScrollAmount(action.direction))
        && (forall q :: q != old(currentPanel) || old(currentPanel) !in page.panes ==> page.ScrollOf(q) == old(page.ScrollOf(q)))
      ensures action.Navigate? && !IsScrollKey(action.direction) ==>
        && page.scrollTop == old(page.scrollTop)
        && page.outlined == (if currentPanel in page.panes && hotkeysEnabled then Some(currentPanel) else None)
        && page.messages == old(page.messages) + [PanelMessage(currentPanel)]
      ensures !action.Navigate? ==> currentPanel == old(currentPanel)
      ensures action == FocusSearch ==>
        && page.activeElement == (if SearchInput in old(page.inputs) then Some(SearchInput) else old(page.activeElement))
        && page.messages == old(page.messages) + (if SearchInput in old(page.inputs) then ["Search activated"] else [])
        && page.inputs == old(page.inputs) && page.columnSets == old(page.columnSets) && page.summary == old(page.summary)
        && page.scrollTop == old(page.scrollTop) && page.outlined == old(page.outlined)
      ensures action.ToggleFeature? ==>
        var id := action.toggleId;
        && page.activeElement == old(page.activeElement) && page.columnSets == old(page.columnSets)
        && page.summary == old(page.summary) && page.scrollTop == old(page.scrollTop) && page.outlined == old(page.outlined)
        && (id in old(page.inputs) ==>
             && page.inputs == old(page.inputs)[id := old(page.inputs)[id].(checked := !old(page.inputs)[id].checked)]
             && page.Checked(id) != old(page.Checked(id))
             && (forall other :: other in old(page.inputs) && other != id ==> page.inputs[other] == old(page.inputs[other]))
             && page.dispatched == old(page.dispatched) + [id]
             && page.messages == old(page.messages) + [ToggleMessage(id, page.Checked(id))])
        && (id !in old(page.inputs) ==>
             page.inputs == old(page.inputs) && page.dispatched == old(page.dispatched) && page.messages == old(page.messages))
      ensures !action.ToggleFeature? ==> page.dispatched == old(page.dispatched)
      ensures action == ClearFocus ==>
        && page.activeElement == None && page.messages == old(page.messages) + ["Focus cleared"]
        && page.scrollTop == old(page.scrollTop) && page.outlined == old(page.outlined)
        && (old(page.activeElement) == Some(SearchInput) && SearchInput in old(page.inputs) ==>
             && page.inputs == old(page.inputs)[SearchInput := old(page.inputs)[SearchInput].(value := "")]
             && (search != null ==> search.Valid(page) && search.Cleared(old(page.columnSets), page))
             && (search == null ==> page.columnSets == old(page.columnSets) && page.summary == old(page.summary)))
        && (!(old(page.activeElement) == Some(SearchInput) && SearchInput in old(page.inputs)) ==>
             page.inputs == old(page.inputs) && page.columnSets == old(page.columnSets) && page.summary == old(page.summary))
    {
      match action
      case FocusSearch =>
        FocusSearchInput(page);
      case ToggleFeature(id) =>
        ToggleFeature(page, id);
      case Navigate(direction) =>
        currentPanel := NavigatePanels(page, currentPanel, hotkeysEnabled, direction);
      case ClearFocus =>
        HotkeyActions.ClearFocus(page, search, true);
      case NoAction =>
    }
  }
}
