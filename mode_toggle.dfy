/**
 * The two themed toggles, assets/js/go-skiing.js ("Go skiing") and
 * assets/js/david-cool.js ("Make me cool"). The files are the same script with
 * different constants, so they share this module: each is a `Mode` naming its
 * control, its storage key, its body class, its picture and the partner mode
 * whose key refuses it.
 */
module ModeToggle {
  import opened Dom
  import opened ProfileImage

  datatype Mode = Mode(toggleId: string, key: string, cls: string, partnerKey: string, theme: Theme, handler: Handler)

  const Skiing := Mode(SkiingToggle, SkiingKey, SkiingClass, CoolKey, SkiingTheme, SkiingScriptChange)
  const Cool := Mode(CoolToggle, CoolKey, CoolClass, SkiingKey, CoolTheme, CoolScriptChange)

  predicate KnownMode(m: Mode)
  {
    m == Skiing || m == Cool
  }

  /** The message both files show when the exclusion guard refuses a change. */
  const RefusalMessage := "I'm already cool when I'm skiing! \U{1F3BF}\U{2744}\U{FE0F}"

  /**
   * The `DOMContentLoaded` listener: a stored "true" adds the class, checks the
   * control if there is one and switches the pictures on; then, when the
   * control exists, its `change` listener is attached.
   */
  method OnLoad(page: Page, m: Mode)
    requires KnownMode(m)
    modifies page`bodyClasses, page`inputs, page`leftPaneImg, page`authorImgs
    ensures page.bodyClasses == if StoredTrue(page.storage, m.key) then old(page.bodyClasses) + {m.cls} else old(page.bodyClasses)
    ensures m.toggleId !in old(page.inputs) ==> page.inputs == old(page.inputs)
    ensures m.toggleId in old(page.inputs) ==> page.inputs == old(page.inputs)[m.toggleId :=
      old(page.inputs)[m.toggleId].(checked := StoredTrue(page.storage, m.key) || old(page.inputs)[m.toggleId].checked,
                                    listeners := old(page.inputs)[m.toggleId].listeners + [m.handler])]
    ensures StoredTrue(page.storage, m.key) ==>
      Switched(old(page.leftPaneImg), old(page.authorImgs), page.leftPaneImg, page.authorImgs, m.theme, true)
    ensures !StoredTrue(page.storage, m.key) ==>
      page.leftPaneImg == old(page.leftPaneImg) && page.authorImgs == old(page.authorImgs)
  {
    page.RestoreToggle(m.toggleId, m.cls, m.key);
    if StoredTrue(page.storage, m.key) {
      SwitchProfileImages(page, m.theme, true);
    }
    if m.toggleId in page.inputs {
      page.AddListener(m.toggleId, m.handler);
    }
  }

  /**
   * The `change` listener. Checking the control while the partner mode is
   * stored as "true" unchecks it again and shows the refusal, touching neither
   * the class nor the storage nor the pictures; any other change makes the
   * class and the stored value follow `checked` and switches the pictures.
   */
  method OnChange(page: Page, m: Mode)
    requires KnownMode(m) && m.toggleId in page.inputs
    modifies page`inputs, page`bodyClasses, page`storage, page`messages, page`leftPaneImg, page`authorImgs
    ensures Refused(old(page.storage), m.partnerKey, old(page.Checked(m.toggleId))) ==>
      && page.inputs == old(page.inputs)[m.toggleId := old(page.inputs)[m.toggleId].(checked := false)]
      && page.bodyClasses == old(page.bodyClasses) && page.storage == old(page.storage)
      && page.messages == old(page.messages) + [RefusalMessage]
      && page.leftPaneImg == old(page.leftPaneImg) && page.authorImgs == old(page.authorImgs)
    ensures !Refused(old(page.storage), m.partnerKey, old(page.Checked(m.toggleId))) ==>
      && page.inputs == old(page.inputs) && page.messages == old(page.messages)
      && page.bodyClasses == SetClass(old(page.bodyClasses), m.cls, page.Checked(m.toggleId))
      && page.storage == old(page.storage)[m.key := BoolString(page.Checked(m.toggleId))]
      && Switched(old(page.leftPaneImg), old(page.authorImgs), page.leftPaneImg, page.authorImgs, m.theme, page.Checked(m.toggleId))
    ensures Exclusive(old(page.storage)) ==> Exclusive(page.storage)
  {
    var checked := page.Checked(m.toggleId);
    if checked && StoredTrue(page.storage, m.partnerKey) {
      page.SetChecked(m.toggleId, false);
      page.ShowMessage(RefusalMessage);
      return;
    }
    if Exclusive(page.storage) {
      GuardedWriteKeepsExclusive(page.storage, m.key, m.partnerKey, checked);
    }
    page.bodyClasses := SetClass(page.bodyClasses, m.cls, checked);
    page.storage := page.storage[m.key := BoolString(checked)];
    SwitchProfileImages(page, m.theme, checked);
  }
}
