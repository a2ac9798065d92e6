/**
 * assets/js/dark-mode.js: the persisted dark-mode toggle. Its `change` listener
 * is `Dom.Page.PersistToggle(DarkToggle, DarkClass, DarkModeKey)`.
 */
module DarkMode {
  import opened Dom

  /**
   * The `DOMContentLoaded` listener: a stored "true" adds `dark-mode` and checks
   * the control if there is one; the listener is attached only to an existing
   * control, and a missing control still gets the class.
   */
  method OnLoad(page: Page)
    modifies page`bodyClasses, page`inputs
    ensures page.bodyClasses == if StoredTrue(page.storage, DarkModeKey) then old(page.bodyClasses) + {DarkClass} else old(page.bodyClasses)
    ensures DarkToggle !in old(page.inputs) ==> page.inputs == old(page.inputs)
    ensures DarkToggle in old(page.inputs) ==> page.inputs == old(page.inputs)[DarkToggle :=
      old(page.inputs)[DarkToggle].(checked := StoredTrue(page.storage, DarkModeKey) || old(page.inputs)[DarkToggle].checked,
                                    listeners := old(page.inputs)[DarkToggle].listeners + [DarkModeScriptChange])]
  {
    page.RestoreToggle(DarkToggle, DarkClass, DarkModeKey);
    if DarkToggle in page.inputs {
      page.AddListener(DarkToggle, DarkModeScriptChange);
    }
  }
}
