/**
 * The `DOMContentLoaded` handler of assets/js/script.js: it makes sure the dark
 * mode and AI toggles exist (creating a checkbox in the left pane when one is
 * missing), restores both from `localStorage`, and attaches one `change`
 * listener to each, marked by `data-initialised` so that it is attached once.
 * The clock element the same file defines is modelled in the Clock module.
 */
module SiteScript {
  import opened Panels
  import opened Dom

  /** The `dataset.initialised` marker; template-engine.js spells its own marker `data-initialized`. */
  const InitialisedMark := "data-initialised"

  /** The control at `id`, if the page has one. */
  function InputAt(inputs: map<string, Input>, id: string): Option<Input>
  {
    if id in inputs then Some(inputs[id]) else None
  }

  /**
   * The control the load handler leaves at a toggle id. When the page has none,
   * `ensureToggle` creates an unchecked checkbox, which joins the page only when
   * there is a left pane to insert it into (a detached checkbox changes nothing
   * anyone can see). The stored "true" checks it; an unmarked control gets the
   * marker and the listener `h`.
   */
  function SiteToggleAfter(inp: Option<Input>, canInsert: bool, stored: bool, h: Handler): Option<Input>
  {
    Attached(Restored(Ensured(inp, canInsert), stored), h)
  }

  /** `ensureToggle`: the existing control, or a new checkbox when a left pane can take it. */
  function Ensured(inp: Option<Input>, canInsert: bool): Option<Input>
  {
    if inp.Some? then inp else if canInsert then Some(NewCheckbox) else None
  }

  /** `if (input) input.checked = true` when the stored value is "true". */
  function Restored(inp: Option<Input>, stored: bool): Option<Input>
  {
    if inp.Some? && stored then Some(inp.value.(checked := true)) else inp
  }

  /** The marker check: an unmarked control gets the marker and the listener `h`. */
  function Attached(inp: Option<Input>, h: Handler): Option<Input>
  {
    if inp.Some? && InitialisedMark !in inp.value.attrs
    then Some(inp.value.(attrs := inp.value.attrs + {InitialisedMark}, listeners := inp.value.listeners + [h]))
    else inp
  }

  /** Two control maps that agree at every id but `id`. */
  ghost predicate SameElsewhere(a: map<string, Input>, b: map<string, Input>, id: string)
  {
    forall x :: x != id ==> InputAt(a, x) == InputAt(b, x)
  }

  /** How many times `h` occurs in a listener list. */
  function CountOf(hs: seq<Handler>, h: Handler): nat
  {
    if hs == [] then 0 else CountOf(hs[..|hs| - 1], h) + (if hs[|hs| - 1] == h then 1 else 0)
  }

  lemma {:induction false} CountOfAppend(hs: seq<Handler>, g: Handler, h: Handler)
    ensures CountOf(hs + [g], h) == CountOf(hs, h) + (if g == h then 1 else 0)
  {
    assert (hs + [g])[..|hs + [g]| - 1] == hs;
  }

  /**
   * What the load handler promises for one toggle: the control is there exactly
   * when it was or a left pane could take it; it is checked when it was or the
   * stored value is "true"; it carries the marker; and the listener `h` was
   * added once, exactly when the marker was missing.
   */
  lemma SiteToggleAfterMeets(inp: Option<Input>, canInsert: bool, stored: bool, h: Handler)
    ensures var r := SiteToggleAfter(inp, canInsert, stored, h);
      && (r.Some? <==> inp.Some? || canInsert)
      && (r.Some? ==> r.value.checked == (stored || (inp.Some? && inp.value.checked)))
      && (r.Some? ==> InitialisedMark in r.value.attrs && r.value.value == (if inp.Some? then inp.value.value else ""))
      && (r.Some? && inp.Some? ==>
        CountOf(r.value.listeners, h) == CountOf(inp.value.listeners, h) + (if InitialisedMark in inp.value.attrs then 0 else 1))
      && (r.Some? && inp.None? ==> r.value.listeners == [h])
  {
    if inp.Some? {
      CountOfAppend(inp.value.listeners, h, h);
    }
  }

  /** Running the load handler again changes nothing: no second listener, no other state. */
  lemma SiteToggleIdempotent(inp: Option<Input>, canInsert: bool, stored: bool, h: Handler)
    ensures var r := SiteToggleAfter(inp, canInsert, stored, h);
      SiteToggleAfter(r, canInsert, stored, h) == r
  {
  }

  /**
   * What the `change` listener stores is what the next load restores: a fresh
   * page's toggle reads back checked exactly when it was checked when stored.
   */
  lemma ReloadRestores(storage: map<string, string>, key: string, checked: bool, h: Handler)
    ensures var r := SiteToggleAfter(None, true, StoredTrue(storage[key := BoolString(checked)], key), h);
      r.Some? && r.value.checked == checked
  {
  }

  /**
   * `ensureToggle(id, ...)`: an existing control is kept; a missing one becomes
   * a new unchecked checkbox in the page when there is a left pane. `attached`
   * is whether the page has the control afterwards.
   */
  method EnsureToggle(page: Page, id: string) returns (attached: bool)
    modifies page`inputs
    ensures attached <==> id in old(page.inputs) || LeftPane in page.panes
    ensures page.inputs == if id !in old(page.inputs) && LeftPane in page.panes
      then old(page.inputs)[id := NewCheckbox] else old(page.inputs)
    ensures attached <==> id in page.inputs
    ensures InputAt(page.inputs, id) == Ensured(InputAt(old(page.inputs), id), LeftPane in page.panes)
    ensures SameElsewhere(page.inputs, old(page.inputs), id)
  {
    if id !in page.inputs {
      if LeftPane in page.panes {
        page.inputs := page.inputs[id := NewCheckbox];
        return true;
      }
      return false;
    }
    return true;
  }

  /** The marker check and `addEventListener('change', h)` of the load handler, on an attached control. */
  method AttachOnce(page: Page, id: string, h: Handler)
    modifies page`inputs
    ensures page.inputs == if id in old(page.inputs) && InitialisedMark !in old(page.inputs)[id].attrs
      then old(page.inputs)[id := old(page.inputs)[id].(attrs := old(page.inputs)[id].attrs + {InitialisedMark},
                                                          listeners := old(page.inputs)[id].listeners + [h])]
      else old(page.inputs)
    ensures InputAt(page.inputs, id) == Attached(InputAt(old(page.inputs), id), h)
    ensures SameElsewhere(page.inputs, old(page.inputs), id)
  {
    if id in page.inputs && InitialisedMark !in page.inputs[id].attrs {
      page.MarkAttr(id, InitialisedMark);
      page.AddListener(id, h);
    }
  }

  /**
   * The `DOMContentLoaded` handler. Each toggle ends as SiteToggleAfter says,
   * the body gains the class of each toggle stored as "true", no other control
   * changes, and `localStorage` is only read.
   */
  method OnLoad(page: Page)
    modifies page`inputs, page`bodyClasses
    ensures InputAt(page.inputs, DarkToggle) ==
      SiteToggleAfter(InputAt(old(page.inputs), DarkToggle), LeftPane in page.panes, StoredTrue(page.storage, DarkModeKey), SiteDarkChange)
    ensures InputAt(page.inputs, AiToggle) ==
      SiteToggleAfter(InputAt(old(page.inputs), AiToggle), LeftPane in page.panes, StoredTrue(page.storage, AiKey), SiteAiChange)
    ensures forall id :: id != DarkToggle && id != AiToggle ==> InputAt(page.inputs, id) == InputAt(old(page.inputs), id)
    ensures page.bodyClasses == old(page.bodyClasses)
      + (if StoredTrue(page.storage, DarkModeKey) then {DarkClass} else {})
      + (if StoredTrue(page.storage, AiKey) then {AiClass} else {})
  {
    ghost var in0 := page.inputs;
    EnsureBoth(page);
    ghost var in1 := page.inputs;
    RestoreBoth(page);
    ghost var in2 := page.inputs;
    AttachBoth(page);
    assert forall x :: x != DarkToggle && x != AiToggle ==> InputAt(page.inputs, x) == InputAt(in2, x) == InputAt(in1, x) == InputAt(in0, x);
  }

  /** The two `ensureToggle` calls of the load handler. */
  method EnsureBoth(page: Page)
    modifies page`inputs
    ensures InputAt(page.inputs, DarkToggle) == Ensured(InputAt(old(page.inputs), DarkToggle), LeftPane in page.panes)
    ensures InputAt(page.inputs, AiToggle) == Ensured(InputAt(old(page.inputs), AiToggle), LeftPane in page.panes)
    ensures forall x :: x != DarkToggle && x != AiToggle ==> InputAt(page.inputs, x) == InputAt(old(page.inputs), x)
  {
    var darkAttached := EnsureToggle(page, DarkToggle);
    var aiAttached := EnsureToggle(page, AiToggle);
  }

  /** The two restores from `localStorage` of the load handler. */
  method RestoreBoth(page: Page)
    modifies page`inputs, page`bodyClasses
    ensures InputAt(page.inputs, DarkToggle) == Restored(InputAt(old(page.inputs), DarkToggle), StoredTrue(page.storage, DarkModeKey))
    ensures InputAt(page.inputs, AiToggle) == Restored(InputAt(old(page.inputs), AiToggle), StoredTrue(page.storage, AiKey))
    ensures forall x :: x != DarkToggle && x != AiToggle ==> InputAt(page.inputs, x) == InputAt(old(page.inputs), x)
    ensures page.bodyClasses == old(page.bodyClasses)
      + (if StoredTrue(page.storage, DarkModeKey) then {DarkClass} else {})
      + (if StoredTrue(page.storage, AiKey) then {AiClass} else {})
  {
    RestoreSite(page, DarkToggle, DarkClass, DarkModeKey);
    RestoreSite(page, AiToggle, AiClass, AiKey);
  }

  /** The two marker checks and listener attachments of the load handler. */
  method AttachBoth(page: Page)
    modifies page`inputs
    ensures InputAt(page.inputs, DarkToggle) == Attached(InputAt(old(page.inputs), DarkToggle), SiteDarkChange)
    ensures InputAt(page.inputs, AiToggle) == Attached(InputAt(old(page.inputs), AiToggle), SiteAiChange)
    ensures forall x :: x != DarkToggle && x != AiToggle ==> InputAt(page.inputs, x) == InputAt(old(page.inputs), x)
  {
    AttachOnce(page, DarkToggle, SiteDarkChange);
    AttachOnce(page, AiToggle, SiteAiChange);
  }

  /** `Page.RestoreToggle`, stated per control id. */
  method RestoreSite(page: Page, id: string, cls: string, key: string)
    modifies page`bodyClasses, page`inputs
    ensures page.bodyClasses == if StoredTrue(page.storage, key) then old(page.bodyClasses) + {cls} else old(page.bodyClasses)
    ensures InputAt(page.inputs, id) == Restored(InputAt(old(page.inputs), id), StoredTrue(page.storage, key))
    ensures SameElsewhere(page.inputs, old(page.inputs), id)
  {
    page.RestoreToggle(id, cls, key);
  }

  /** The class and storage key a site toggle persists. */
  function Persisted(id: string): (r: (string, string))
    requires id == DarkToggle || id == AiToggle
    ensures id == DarkToggle ==> r == (DarkClass, DarkModeKey)
    ensures id == AiToggle ==> r == (AiClass, AiKey)
  {
    if id == DarkToggle then (DarkClass, DarkModeKey) else (AiClass, AiKey)
  }

  /**
   * The `change` listener of the dark or AI toggle: the body class and the stored
   * value follow the control's `checked`, and nothing else in either changes.
   */
  method OnToggleChange(page: Page, id: string)
    requires id == DarkToggle || id == AiToggle
    requires id in page.inputs
    modifies page`bodyClasses, page`storage
    ensures (Persisted(id).0 in page.bodyClasses) == page.Checked(id)
    ensures StoredTrue(page.storage, Persisted(id).1) == page.Checked(id)
    ensures Persisted(id).1 in page.storage && page.storage[Persisted(id).1] == BoolString(page.Checked(id))
    ensures forall c :: c != Persisted(id).0 ==> (c in page.bodyClasses <==> c in old(page.bodyClasses))
    ensures forall k :: k != Persisted(id).1 ==> (k in page.storage <==> k in old(page.storage))
    ensures forall k :: k in page.storage && k != Persisted(id).1 ==> page.storage[k] == old(page.storage)[k]
  {
    var (cls, key) := Persisted(id);
    page.PersistToggle(id, cls, key);
  }
}
