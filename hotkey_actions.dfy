/**
 * The keyboard actions the template engine (assets/js/template-engine.js) and
 * the standalone hotkey system (assets/js/hotkeys.js) carry out in the same
 * way: `focusSearchInput`, `navigatePanels` and `clearFocus`. Each owner keeps
 * its own `currentPanel` and `hotkeysEnabled` and passes them in.
 */
module HotkeyActions {
  import opened Panels
  import opened Dom
  import opened Search

  /** `focusSearchInput`: an existing search input gets the focus and "Search activated" is shown. */
  method FocusSearchInput(page: Page)
    modifies page`activeElement, page`messages
    ensures SearchInput in page.inputs ==>
      page.activeElement == Some(SearchInput) && page.messages == old(page.messages) + ["Search activated"]
    ensures SearchInput !in page.inputs ==>
      page.activeElement == old(page.activeElement) && page.messages == old(page.messages)
  {
    if SearchInput in page.inputs {
      page.activeElement := Some(SearchInput);
      page.ShowMessage("Search activated");
    }
  }

  /**
   * `navigatePanels(direction)`. The vertical arrows scroll the current pane by
   * 100 pixels and leave it current; any other direction makes `NextPane`
   * current, moves the outline there and names it in a message.
   */
  method NavigatePanels(page: Page, current: Pane, enabled: bool, direction: string) returns (next: Pane)
    modifies page`scrollTop, page`outlined, page`messages
    ensures IsScrollKey(direction) ==>
      && next == current && page.outlined == old(page.outlined) && page.messages == old(page.messages)
      && (current in page.panes ==> page.ScrollOf(current) == old(page.ScrollOf(current)) + ScrollAmount(direction))
      && (forall q :: q != current || current !in page.panes ==> page.ScrollOf(q) == old(page.ScrollOf(q)))
    ensures !IsScrollKey(direction) ==>
      && next == NextPane(current, direction) && page.scrollTop == old(page.scrollTop)
      && page.outlined == (if next in page.panes && enabled then Some(next) else None)
      && page.messages == old(page.messages) + [PanelMessage(next)]
  {
    if IsScrollKey(direction) {
      page.ScrollPane(current, ScrollAmount(direction));
      return current;
    }
    next := NextPane(current, direction);
    page.UpdateActivePanel(next, enabled);
    page.ShowMessage(PanelMessage(next));
  }

  /** `document.activeElement.blur()`: the focus goes back to the body. */
  function Blur(active: Option<string>): Option<string>
  {
    None
  }

  /**
   * The guard of `clearFocus` as written: it asks whether the search input is
   * the active element only after the blur.
   */
  predicate ClearsSearchAsWritten(active: Option<string>)
  {
    Blur(active) == Some(SearchInput)
  }

  /** As written, the guard never holds, not even when the search input had the focus. */
  lemma ClearFocusGuardNeverHolds(active: Option<string>)
    ensures !ClearsSearchAsWritten(active)
  {
  }

  /**
   * `clearFocus` as written: the focus goes to the body and, for the standalone
   * system, "Focus cleared" is shown. The block meant to empty the search
   * input is guarded by ClearsSearchAsWritten and so never runs: the input and
   * the search results stay as they were.
   */
  method ClearFocusAsWritten(page: Page, feedback: bool)
    modifies page`activeElement, page`messages
    ensures page.activeElement == None
    ensures page.messages == old(page.messages) + (if feedback then ["Focus cleared"] else [])
  {
    page.activeElement := Blur(page.activeElement);
    if feedback {
      page.ShowMessage("Focus cleared");
    }
  }

  /**
   * `clearFocus` with the guard read before the blur, as its comment intends:
   * when the search input had the focus, it is emptied and the search is
   * cleared (when `window.clearSearch` is there); otherwise only the focus moves.
   */
  method ClearFocus(page: Page, search: SearchBox?, feedback: bool)
    requires search != null ==> search.Valid(page)
    modifies page`activeElement, page`inputs, page`columnSets, page`summary, page`messages
    ensures page.activeElement == None
    ensures page.messages == old(page.messages) + (if feedback then ["Focus cleared"] else [])
    ensures old(page.activeElement) == Some(SearchInput) && SearchInput in old(page.inputs) ==>
      && page.inputs == old(page.inputs)[SearchInput := old(page.inputs)[SearchInput].(value := "")]
      && (search != null ==> search.Valid(page) && search.Cleared(old(page.columnSets), page))
      && (search == null ==> page.columnSets == old(page.columnSets) && page.summary == old(page.summary))
    ensures !(old(page.activeElement) == Some(SearchInput) && SearchInput in old(page.inputs)) ==>
      page.inputs == old(page.inputs) && page.columnSets == old(page.columnSets) && page.summary == old(page.summary)
  {
    var searchFocused := page.activeElement == Some(SearchInput);
    page.activeElement := Blur(page.activeElement);
    if searchFocused && SearchInput in page.inputs {
      page.inputs := page.inputs[SearchInput := page.inputs[SearchInput].(value := "")];
      if search != null {
        search.ClearSearch(page);
      }
    }
    if feedback {
      page.ShowMessage("Focus cleared");
    }
  }
}
