# davidatoms.github.io page scripts, modelled in Dafny

This project models the in-page JavaScript of a personal blog site. The scripts act on one abstract page (module `Dom`). The page holds:

- `localStorage` as a map from key to string;
- the body's class list as a set;
- the checkbox and text inputs by element id;
- the left-pane and author profile images;
- the `[data-component]` slots and the `<script src>` elements;
- the `.page-section` elements and the middle pane's `column-set` blocks;
- the listeners attached so far, the pane carrying the active-panel outline, the focused control;
- a log of the transient messages shown.

Each listener runs to completion before the next, so every event handler is a method on that page.

The modules follow the source files:

- `TemplateEngine` (assets/js/template-engine.js) has four parts:
  - the component cache, filled from fetched HTML;
  - the sequential, best-effort script loader;
  - the feature initialisers guarded by `data-initialized`, which include the engine's own exclusion rule for the two themed modes;
  - the engine's keyboard dispatch and its `src` rewrite.
- `Hotkeys` (assets/js/hotkeys.js) is the standalone `HotkeySystem`. Its key dispatch tries the checks in order and the first match wins. It also has the `toggleFeature` shortcuts, the feature-name derivation and a hotkey flag that is on by default.
- `Panels` and `HotkeyActions` hold what both hotkey owners share: the three-pane machine, which clamps at both ends, and the `focusSearchInput`, `navigatePanels` and `clearFocus` actions.
- `Search` (assets/js/search.js) covers:
  - the searchable items;
  - trimmed, lower-cased substring matching;
  - match counting and the singular/plural summary word;
  - `escapeRegExp`;
  - restoring the captured HTML on clear.
- `ModeToggle` and `ProfileImage` cover assets/js/go-skiing.js and assets/js/david-cool.js, which are one script with different constants. They model:
  - restoring the stored state on load;
  - the exclusion guard between the two modes;
  - collecting candidate images;
  - the end-anchored `src` rewrite and its round trip.
- `DarkMode` is assets/js/dark-mode.js. `SiteScript` is the toggle half of assets/js/script.js: `ensureToggle` and the dark/AI toggles guarded by `dataset.initialised`.
- `ScrollImageSwitch` is assets/js/scroll-image-switch.js: a two-state machine with its threshold at 150 pixels, and the priority rule for the image it restores.
- `PageNavigation` is the root script.js: one visible `.page-section`, the `#page-1` default, and slideshows whose Previous and Next buttons wrap.
- `Clock` is the `<digital-clock>` formatting of assets/js/clock.js. assets/js/script.js repeats that code word for word, and the one model covers both copies.
- `Strings` writes out the JavaScript string operations the scripts use, over `seq<char>`: `includes`, `indexOf`, `replace` (first occurrence, or end-anchored), `trim`, ASCII `toLowerCase`, `toString` and `padStart`.

**Two defaults that disagree.** The two hotkey owners read the stored `hotkeysEnabled` flag differently:

- the standalone system is on unless `"false"` is stored (assets/js/hotkeys.js:33);
- the template engine is on only when `"true"` is stored (assets/js/template-engine.js:279).

Both are modelled as written. `Hotkeys.DefaultsDisagree` states exactly when the two disagree.

## Model

| member | source | states |
|---|---|---|
| Strings.IndexOf | assets/js/hotkeys.js:117 | `indexOf` gives -1 exactly when the pattern occurs nowhere, and otherwise its first occurrence |
| Strings.ToLower | assets/js/search.js:57 | ASCII `toLowerCase` keeps the length and maps each character to its lower-case form |
| Strings.Capitalize | assets/js/template-engine.js:414-416 | only the first character is upper-cased; the rest and the length are unchanged |
| Strings.NatToString | assets/js/clock.js:31-32 | `toString` of a number gives decimal digits that read back as that number; one digit below 10, two below 100 |
| Strings.PadStart2Digits | assets/js/clock.js:31-32 | `padStart(2, '0')` of one or two digits gives exactly two digits with the same value |
| Strings.TrimEmptyIff | assets/js/search.js:57-59 | `trim` gives the empty string exactly when every character is white space |
| Strings.TrimStartSpec | assets/js/search.js:41-42 | trimming the start drops a leading run of white space and nothing else |
| Strings.TrimEndSpec | assets/js/search.js:41-42 | trimming the end drops a trailing run of white space and nothing else |
| Strings.ReplaceFirstRoundTrip | assets/js/template-engine.js:440-444 | replacing the first occurrence of a non-self-overlapping pattern by another, absent one, and back again, gives the original |
| Strings.SwapRoundTrip | assets/js/template-engine.js:440-444 | the same round trip, when only a file-name suffix of the new path is known to be absent |
| Strings.ReplaceSuffixRoundTrip | assets/js/go-skiing.js:64-71 | the end-anchored rewrite leaves the new suffix at the end, and the reverse rewrite gives back the original |
| Dom.GuardedWriteKeepsExclusive | assets/js/go-skiing.js:20-28 | a mode write that passes the exclusion guard keeps skiing and cool from both being stored as on, and stores the mode as `checked` |
| Dom.Page.ShowMessage | assets/js/template-engine.js:466-501 | a shown message is appended to the message log |
| Dom.Page.UpdateActivePanel | assets/js/template-engine.js:380-393 | afterwards exactly the current pane is outlined when it exists and hotkeys are on; otherwise none is |
| Dom.Page.ClearActivePanel | assets/js/template-engine.js:395-400 | afterwards no pane is outlined |
| Dom.Page.ScrollPane | assets/js/template-engine.js:373-378 | an existing pane's `scrollTop` moves by the amount; no other pane moves |
| Dom.Page.RestoreToggle | assets/js/dark-mode.js:8-11 | a stored "true" adds the class and checks the control if present; any other stored value changes nothing |
| Dom.Page.PersistToggle | assets/js/dark-mode.js:14-20 | after a change the class is present and the key reads "true" exactly when checked; the stored value is `String(checked)`; no other class or key changes |
| Panels.Index | assets/js/template-engine.js:351 | every pane has an index in 0..2 |
| Panels.PaneAt | assets/js/template-engine.js:351 | the pane at index i has index i |
| Panels.NextPaneClamped | assets/js/template-engine.js:353-359 | ArrowLeft lowers the index by one and stops at 0; ArrowRight raises it by one and stops at 2 |
| Panels.NextPaneUndo | assets/js/hotkeys.js:135-141 | a step right undoes a step left that moved, and the other way round |
| Panels.RepeatLeft | assets/js/hotkeys.js:136-138 | n presses of ArrowLeft lower the index by n, clamped at 0 |
| Panels.RepeatRight | assets/js/hotkeys.js:139-141 | n presses of ArrowRight raise the index by n, clamped at 2 |
| HotkeyActions.FocusSearchInput | assets/js/hotkeys.js:122-129 | an existing search input gets the focus and "Search activated" is shown; without one, nothing changes |
| HotkeyActions.NavigatePanels | assets/js/hotkeys.js:131-153 | vertical arrows scroll the current pane by 100 and keep it current; other keys make the clamped neighbour current, outline it and announce it |
| HotkeyActions.ClearFocusGuardNeverHolds | assets/js/hotkeys.js:184-195 | the search-clearing guard, read after the blur, never holds, even when the search input had the focus |
| HotkeyActions.ClearFocusAsWritten | assets/js/hotkeys.js:184-195 | as written, `clearFocus` only moves the focus to the body and optionally shows "Focus cleared" |
| HotkeyActions.ClearFocus | assets/js/template-engine.js:402-412 | with the guard read before the blur, a focused search input is emptied and the search cleared; otherwise only the focus moves |
| Hotkeys.DefaultsDisagree | assets/js/hotkeys.js:33-35 | the standalone and engine hotkey defaults disagree exactly when nothing, or something other than "true"/"false", is stored; then the standalone system is on |
| Hotkeys.ShortcutToggle | assets/js/hotkeys.js:77-95 | CTRL+d, s and c name the dark, go-skiing and make-me-cool toggles, and no other key names a toggle |
| Hotkeys.HotkeyKeyAction | assets/js/hotkeys.js:66-109 | nothing while off; the branches are tried in order and the first match wins: search focus exactly for CTRL+k, a toggle action exactly for CTRL+d/s/c with no earlier match, navigation exactly for CTRL with an arrow key and no earlier match, in that key's direction, and focus clearing exactly for Escape with no earlier match |
| Hotkeys.DispatchersAgree | assets/js/hotkeys.js:66-109 | the standalone and engine dispatchers differ exactly on CTRL+d/s/c, which the engine ignores |
| Hotkeys.FeatureNameOf | assets/js/hotkeys.js:117 | for `word-rest-toggle`, the feature name is `word rest`: only the first remaining `-` becomes a space |
| Hotkeys.FeatureNameWhole | assets/js/hotkeys.js:117 | for `word-toggle`, the feature name is the word |
| Hotkeys.DarkName | assets/js/hotkeys.js:117 | `dark-toggle` is named "dark" |
| Hotkeys.SkiingName | assets/js/hotkeys.js:117 | `go-skiing-toggle` is named "go skiing" |
| Hotkeys.CoolName | assets/js/hotkeys.js:117 | `make-me-cool-toggle` is named "make me-cool" |
| Hotkeys.HotkeySystem.constructor | assets/js/hotkeys.js:5-9 | a new system is off with the middle pane current |
| Hotkeys.HotkeySystem.InitializeHotkeys | assets/js/hotkeys.js:20-64 | a missing or already marked toggle stops it with no change; otherwise the toggle is marked, on unless "false" is stored, the listeners are attached once, and an enabled start outlines the pane |
| Hotkeys.HotkeySystem.OnToggleChange | assets/js/hotkeys.js:38-50 | the checkbox value becomes `hotkeysEnabled` and its stored value, and the outline and message follow it |
| Hotkeys.HotkeySystem.ToggleFeature | assets/js/hotkeys.js:111-120 | an existing toggle is flipped exactly once, a change event is sent, and the message names the feature and its new state; a missing toggle changes nothing |
| Hotkeys.HotkeySystem.HandleKeydown | assets/js/hotkeys.js:66-109 | with no matching branch the page and pane are unchanged; CTRL+k focuses a present search input and shows "Search activated"; a shortcut flips its own toggle once, dispatches one change event, leaves every other input as it was and shows the toggle message; CTRL+ArrowUp/Down scroll the current pane by 100 pixels and leave the outline and messages alone, while CTRL+ArrowLeft/Right make NextPane current, outline it and show its "panel active" message; Escape blurs, shows "Focus cleared" and runs the corrected search clearing; each branch leaves the parts of the page it does not act on unchanged |
| Search.EscapeRegExp | assets/js/search.js:130-132 | escaping never shortens the query |
| Search.EscapeRoundTrip | assets/js/search.js:130-132 | escaping loses nothing: the escaped pattern reads back as the query |
| Search.EscapePlain | assets/js/search.js:130-132 | a query without metacharacters is unchanged |
| Search.EscapeAppend | assets/js/search.js:130-132 | escaping works character by character and distributes over concatenation |
| Search.EscapedMetaIsPreceded | assets/js/search.js:130-132 | every metacharacter in the escaped pattern is preceded by a backslash |
| Search.SearchableSound | assets/js/search.js:33-51 | only column sets with both units become items, each built from its own set with trimmed texts, in document order |
| Search.SearchableItems | assets/js/search.js:37-49 | each item is the one built from the column set at its index |
| Search.SearchableIncreasing | assets/js/search.js:33 | item indices strictly increase, so items keep document order |
| Search.SearchableComplete | assets/js/search.js:37-50 | every column set with both units is among the items |
| Search.FilterOne | assets/js/search.js:80-104 | an item is shown exactly when its title or content contains the query, and hidden otherwise |
| Search.ClearOne | assets/js/search.js:139-150 | a cleared item is shown, unstyled, and both units are back to their captured HTML |
| Search.ClearUndoesFilter | assets/js/search.js:134-154 | a clear after a filter leaves an item as a clear alone would |
| Search.FilterThenClearRestores | assets/js/search.js:134-154 | on an item showing its captured HTML, a filter and then a clear give the original unit content back |
| Search.Apply | assets/js/search.js:80-150 | a filter or clear pass keeps an item searchable |
| Search.PassedNone | assets/js/search.js:80 | before the first item, the pass has changed nothing |
| Search.PassedStep | assets/js/search.js:80-105 | transforming item k moves the pass on by one item and touches no other column set |
| Search.PassedFits | assets/js/search.js:139-150 | after a pass, every item still refers to a searchable column set |
| Search.MatchFlags | assets/js/search.js:81-83 | flag k is whether item k's title or content contains the query |
| Search.CountTrue | assets/js/search.js:78-86 | the count is at most the number of flags |
| Search.CountMatches | assets/js/search.js:78-86 | the match count is at most the number of items |
| Search.CountTrueZero | assets/js/search.js:78-86 | the count is zero exactly when no flag is set |
| Search.CountTrueAll | assets/js/search.js:78-86 | the count equals the length exactly when every flag is set |
| Search.CountTrueAppend | assets/js/search.js:86 | counting one more flag adds one exactly when it is set |
| Search.CountMatchesZero | assets/js/search.js:78-86 | no match is counted exactly when no item matches |
| Search.CountMatchesAll | assets/js/search.js:78-86 | every item is counted exactly when every item matches |
| Search.ResultWord | assets/js/search.js:192 | the summary word is "result" exactly when the count is 1 |
| Search.SearchBox.constructor | assets/js/search.js:5 | a new search box has no items |
| Search.SearchBox.OnLoad | assets/js/search.js:2-25 | with both the input and the middle pane, the items are collected and the three listeners attached; otherwise nothing changes |
| Search.SearchBox.InitializeSearchableItems | assets/js/search.js:27-54 | the collected items are exactly Searchable of the column sets, and they fit the page |
| Search.SearchBox.HandleSearch | assets/js/search.js:56-65 | an empty trimmed, lower-cased query clears the search and empties only the search input's value; any other query filters with it, reports the count and leaves every input unchanged |
| Search.SearchBox.SearchAndFilter | assets/js/search.js:77-109 | every item is filtered by FilterOne, other column sets are untouched, and the count is CountMatches, which the summary reports |
| Search.SearchBox.FilterAt | assets/js/search.js:81-104 | one loop step filters item k and reports whether it matched |
| Search.SearchBox.ClearSearch | assets/js/search.js:134-154 | the input is emptied, every item is restored by ClearOne, and the summary is removed |
| Search.SearchBox.FocusFirstResult | assets/js/search.js:156-173 | the result is the first item, in item order, that is not hidden, or none when all are hidden |
| Search.SearchBox.HandleSearchKeydown | assets/js/search.js:67-75 | only Enter with a non-empty query looks for a result; then the one found is the first visible item in item order, and none is found exactly when every item is hidden |
| Search.SearchBox.OnEscape | assets/js/search.js:20-24 | Escape while the input has focus clears the search and empties only the search input's value; anything else changes nothing |
| Search.SearchBox.EnhancedFocusSearch | assets/js/search.js:218-226 | the input gets the focus, and a non-blank value clears the previous search and empties only the search input's value |
| ProfileImage.EndsWithProfileMentionsIt | assets/js/go-skiing.js:63 | a `src` ending in `/me/profile.jpg` mentions `profile.jpg` |
| ProfileImage.EndsWithThemeMentionsIt | assets/js/go-skiing.js:70 | a `src` ending in the theme path mentions the theme's file name |
| ProfileImage.NonCandidateUnchanged | assets/js/go-skiing.js:42-54 | an image mentioning neither picture is left unchanged either way |
| ProfileImage.SwitchOnRewritesSuffix | assets/js/go-skiing.js:61-67 | switching on rewrites a trailing `/me/profile.jpg` to the theme path; any other `src`, or one already themed, is unchanged |
| ProfileImage.SwitchRoundTrip | assets/js/david-cool.js:61-75 | for a `src` ending in `/me/profile.jpg`, switching on and then off gives back the original |
| ProfileImage.SwitchOne | assets/js/go-skiing.js:58-76 | one `forEach` step rewrites exactly the referenced image's `src` |
| ProfileImage.CollectProfileImages | assets/js/go-skiing.js:42-54 | the list holds each image once: the left-pane image exactly when it is a candidate, and each author image exactly when it is a candidate |
| ProfileImage.SwitchAll | assets/js/david-cool.js:58-76 | each listed image is rewritten once and every other image is kept |
| ProfileImage.SwitchProfileImages | assets/js/go-skiing.js:35-77 | in the end every image carries the themed `src` of what it had |
| ModeToggle.OnLoad | assets/js/go-skiing.js:2-32 | a stored "true" adds the class, checks the control if present and switches the pictures on; any other value changes neither class nor pictures; a present control gets the listener |
| ModeToggle.OnChange | assets/js/david-cool.js:15-31 | checking while the partner mode is stored on unchecks and shows the refusal, touching nothing else; otherwise the class and stored value follow `checked` and the pictures switch; exclusivity is preserved |
| DarkMode.OnLoad | assets/js/dark-mode.js:2-21 | a stored "true" adds `dark-mode` and checks the toggle if present; a missing toggle still gets the class and no listener is attached |
| SiteScript.CountOfAppend | assets/js/script.js:92 | adding a listener adds one to its count exactly when it is that listener |
| SiteScript.SiteToggleAfterMeets | assets/js/script.js:55-104 | after load, the control exists exactly when it did or a left pane could take it; it is checked when stored "true" or already checked; it is marked; its listener was added once, only if the marker was missing |
| SiteScript.SiteToggleIdempotent | assets/js/script.js:90-104 | running the load handler again changes nothing and adds no second listener |
| SiteScript.ReloadRestores | assets/js/script.js:79-94 | what the change listener stores is what the next load restores |
| SiteScript.EnsureToggle | assets/js/script.js:55-73 | an existing control is kept; a missing one becomes a new unchecked checkbox when there is a left pane |
| SiteScript.AttachOnce | assets/js/script.js:90-96 | an unmarked control gets the marker and the listener; a marked or missing one is unchanged |
| SiteScript.OnLoad | assets/js/script.js:52-105 | each of the two toggles ends as SiteToggleAfter says, the body gains the class of each toggle stored "true", no other control changes, and storage is only read |
| SiteScript.EnsureBoth | assets/js/script.js:75-76 | both toggles are ensured and no other control changes |
| SiteScript.RestoreBoth | assets/js/script.js:79-87 | both stored states are restored to class and control, and no other control changes |
| SiteScript.AttachBoth | assets/js/script.js:90-104 | both toggles get their marker check and listener, and no other control changes |
| SiteScript.RestoreSite | assets/js/script.js:79-82 | one stored state is restored, per control id |
| SiteScript.Persisted | assets/js/script.js:93-94 | the dark toggle persists `dark-mode`/`darkMode` and the AI toggle `ai-enabled`/`aiEnabled` |
| SiteScript.OnToggleChange | assets/js/script.js:92-103 | after a change, the class is present exactly when checked, the stored value is `String(checked)`, so the key reads "true" exactly when checked, and nothing else changes |
| ScrollImageSwitch.ScrollImageMarked | assets/js/scroll-image-switch.js:29-31 | the scroll image contains the `a.png` marker the switches test for |
| ScrollImageSwitch.RestoredUnmarked | assets/js/scroll-image-switch.js:40-49 | none of the restored images contains the marker |
| ScrollImageSwitch.ImagesDirUnmarked | assets/js/scroll-image-switch.js:44-48 | the shared image directory does not contain `a.` |
| ScrollImageSwitch.SkiingImageUnmarked | assets/js/scroll-image-switch.js:44 | the skiing image does not contain the marker |
| ScrollImageSwitch.CoolImageUnmarked | assets/js/scroll-image-switch.js:46 | the cool image does not contain the marker |
| ScrollImageSwitch.ProfileImageUnmarked | assets/js/scroll-image-switch.js:48 | the profile image does not contain the marker |
| ScrollImageSwitch.AwayThenBack | assets/js/scroll-image-switch.js:28-51 | away shows the marker; back shows exactly the stored-mode image, whatever the original was; away again switches again |
| ScrollImageSwitch.ScrollImageNotProfile | assets/js/scroll-image-switch.js:31 | the scroll image does not mention `profile.jpg` |
| ScrollImageSwitch.ScrollImageNotSkiing | assets/js/scroll-image-switch.js:31 | the scroll image does not mention `gone-skiing.png` |
| ScrollImageSwitch.ScrollImageNotCool | assets/js/scroll-image-switch.js:31 | the scroll image does not mention `david-cool.png` |
| ScrollImageSwitch.ScrollImageSurvivesPictureSwitch | assets/js/scroll-image-switch.js:29-31 | the picture switches of the two themed modes, in either direction and in both their page-script and engine forms, leave the scroll image as it is, so it keeps the marker |
| ScrollImageSwitch.SwitchesIdempotent | assets/js/scroll-image-switch.js:28-51 | repeating either switch changes nothing |
| ScrollImageSwitch.ScrollSwitch.constructor | assets/js/scroll-image-switch.js:4-5 | no saved `src`, not scrolled away |
| ScrollImageSwitch.ScrollSwitch.OnLoad | assets/js/scroll-image-switch.js:7-12 | with a left-pane image, its `src` is saved and the scroll listener attached; without one, nothing changes |
| ScrollImageSwitch.ScrollSwitch.SwitchToScrollImage | assets/js/scroll-image-switch.js:28-33 | the image becomes `a.png` unless it already contains the marker |
| ScrollImageSwitch.ScrollSwitch.SwitchBackToOriginal | assets/js/scroll-image-switch.js:35-51 | an image containing the marker gets skiing, else cool, else the profile picture, by stored mode; any other is kept |
| ScrollImageSwitch.ScrollSwitch.OnScroll | assets/js/scroll-image-switch.js:12-25 | the flag becomes `scrollY > 150`; the image switches only when the flag flips; repeated events on one side change nothing; the image shows the marker while away |
| PageNavigation.HashOrDefault | script.js:35 | an empty hash becomes `#page-1`; any other is kept |
| PageNavigation.TargetFrom | script.js:14 | the first section the selector names from position k, or -1 when none does |
| PageNavigation.Target | script.js:14 | -1 exactly when no section has the id, otherwise the first section that has it |
| PageNavigation.DisplaysOf | script.js:8-17 | the display of each section, in order |
| PageNavigation.OnlyShown | script.js:6-18 | when every position but k is hidden and k is shown, the shown set is {k} |
| PageNavigation.ShowSection | script.js:6-18 | afterwards exactly the target section is shown, or none when no section has the id; the ids are unchanged |
| PageNavigation.OnNavClick | script.js:23-30 | a click shows exactly the link's section and the location takes its hash |
| PageNavigation.ShowCurrent | script.js:34-41 | on load and on popstate, exactly the section of the hash, or of `#page-1`, is shown |
| PageNavigation.NextIndex | script.js:89-92 | Next stays within the items |
| PageNavigation.PrevIndex | script.js:84-87 | Previous stays within the items |
| PageNavigation.NextPrevInverse | script.js:84-92 | Next and Previous undo each other |
| PageNavigation.StepsAreModular | script.js:84-92 | Next is +1 and Previous is -1, modulo the item count |
| PageNavigation.NextTimes | script.js:89-92 | k presses of Next stay within the items |
| PageNavigation.NextTimesModular | script.js:89-92 | k presses of Next move k items along, modulo the count |
| PageNavigation.ModStep | script.js:90 | reducing before adding one gives the same remainder |
| PageNavigation.ModUnique | script.js:90 | the remainder is the one r in [0, n) with a = q·n + r |
| PageNavigation.MulAtLeast | script.js:90 | a positive multiple of n is at least n |
| PageNavigation.NextFullCycle | script.js:89-92 | as many presses of Next as there are items return to the same item |
| PageNavigation.Slideshow.constructor | script.js:51 | a new slideshow starts at item 0 with no buttons |
| PageNavigation.Slideshow.Init | script.js:47-75 | one item or none is left untouched with no buttons; otherwise every item but the first is hidden, the buttons are added, and a visible first item is the only one shown |
| PageNavigation.Slideshow.ShowSlide | script.js:78-82 | exactly the given item is shown and becomes current |
| PageNavigation.Slideshow.Prev | script.js:84-87 | the current index wraps from 0 to the last, and exactly that item is shown |
| PageNavigation.Slideshow.Next | script.js:89-92 | the current index wraps from the last to 0, and exactly that item is shown |
| Clock.Hour12 | assets/js/clock.js:36-38 | the 12-hour hour is in 1..12 and congruent to h mod 12: 0 shows as 12, 1..12 as themselves, 13..23 as h - 12 |
| Clock.HourStringDigits | assets/js/clock.js:39 | the hour text is digits with the hour's value, two wide when padded or at least 10 |
| Clock.ParseFields | assets/js/clock.js:40 | a face built from an hour field, a colon, two digits, a colon, two digits and a suffix reads back field by field |
| Clock.FormatTimeFields | assets/js/clock.js:35-44 | the face is hour, `:`, minutes, `:`, seconds, plus ` AM`/` PM` only in 12-hour mode |
| Clock.ClockRoundTrip | assets/js/clock.js:25-45 | reading the face gives back the shown hour, minutes and seconds (each exactly two digits) and the suffix of the mode; the hour field's width depends on padding |
| Clock.TwelveHourLossless | assets/js/clock.js:36-38 | the 12-hour hour with its AM/PM suffix determines the 24-hour hour |
| Clock.ClockFaceDeterminesTime | assets/js/clock.js:25-45 | in either mode the time can be read back from the face |
| Clock.DigitalClock.constructor | assets/js/clock.js:1-16 | a new clock keeps its attributes and shows nothing yet |
| Clock.DigitalClock.UpdateTime | assets/js/clock.js:25-45 | the text written is the face for the time and the element's `pad-hour` and `twentyfour-hour` flags |
| TemplateEngine.SlotAfter | assets/js/template-engine.js:66-93 | a loaded slot keeps its component name; an uncached slot whose fetch failed keeps its content |
| TemplateEngine.CacheAfterKeeps | assets/js/template-engine.js:69-85 | loading never drops or changes an entry that was already cached |
| TemplateEngine.CacheAfterSound | assets/js/template-engine.js:82-85 | every new cache entry is the body of a successful fetch for a slot of that name |
| TemplateEngine.CacheAfterComplete | assets/js/template-engine.js:74-85 | every successful fetch of an uncached component leaves that name cached |
| TemplateEngine.LoadTraceInOrder | assets/js/template-engine.js:105-107 | one event per manifest entry, in order; a failed load never stops later entries and each appended script records its own outcome |
| TemplateEngine.LoadTraceSkips | assets/js/template-engine.js:113-116 | an entry is skipped exactly when its `src` was in the document or earlier in the manifest |
| TemplateEngine.ScriptsAfterHoldsAll | assets/js/template-engine.js:105-131 | afterwards the document holds what it held, in place, plus every manifest entry, and nothing else |
| TemplateEngine.PathsDoNotOverlap | assets/js/template-engine.js:440-459 | the profile and theme paths cannot overlap themselves, differ in length, and each theme path ends in its file name |
| TemplateEngine.ProfilePathFacts | assets/js/template-engine.js:440 | `/me/profile.jpg` cannot overlap itself and ends in `profile.jpg` |
| TemplateEngine.SkiingPathFacts | assets/js/template-engine.js:440 | `/gone-skiing.png` cannot overlap itself and ends in `gone-skiing.png` |
| TemplateEngine.CoolPathFacts | assets/js/template-engine.js:455 | `/me/david-cool.png` cannot overlap itself and ends in `david-cool.png` |
| TemplateEngine.EngineSwitchRoundTrip | assets/js/template-engine.js:435-463 | for a `src` holding `/me/profile.jpg` and not the theme file, switching on changes it and switching off gives it back |
| TemplateEngine.SwitchToMode | assets/js/template-engine.js:435-448 | only the left-pane image's `src` is rewritten |
| TemplateEngine.EngineKeyAction | assets/js/template-engine.js:316-338 | nothing while off; the branches are tried in order and the first match wins: search focus exactly for CTRL+k, navigation exactly for CTRL with an arrow key, in that key's direction, and focus clearing exactly for Escape with no earlier match; never a toggle shortcut |
| TemplateEngine.Engine.constructor | assets/js/template-engine.js:3-16 | an empty cache, the fixed script manifest, hotkeys off |
| TemplateEngine.Engine.GetComponent | assets/js/template-engine.js:157-159 | a cached name gives its HTML; an uncached one nothing |
| TemplateEngine.Engine.ServeCached | assets/js/template-engine.js:69-71 | a cached component is injected without a fetch |
| TemplateEngine.Engine.StoreFetched | assets/js/template-engine.js:74-92 | a fetched body is cached and injected; a failure changes neither cache nor slot |
| TemplateEngine.Engine.LoadComponent | assets/js/template-engine.js:66-93 | a fetch happens exactly when the name is not cached; success caches and injects the body; failure changes nothing |
| TemplateEngine.Engine.LoadComponents | assets/js/template-engine.js:54-64 | every slot ends as SlotAfter says, against the cache from before any fetch, and the cache ends as CacheAfter says |
| TemplateEngine.Engine.ServeAllCached | assets/js/template-engine.js:58-63 | every cached slot is served and the others are marked pending |
| TemplateEngine.Engine.StoreAllFetched | assets/js/template-engine.js:74-92 | the pending fetches complete in document order, as SlotAfter and CacheAfter say |
| TemplateEngine.Engine.UpdateComponent | assets/js/template-engine.js:162-168 | the cache entry is set, GetComponent then gives it, and every slot of that name shows it; other slots are unchanged |
| TemplateEngine.Engine.LoadScript | assets/js/template-engine.js:110-132 | an exact `src` already present resolves without an append; otherwise the script is appended and resolves either way |
| TemplateEngine.Engine.LoadScripts | assets/js/template-engine.js:95-108 | the events are LoadTrace of the manifest and the document ends as ScriptsAfter says |
| TemplateEngine.Engine.InitializeToggle | assets/js/template-engine.js:188-207 | a missing or marked control changes nothing; an unmarked one is marked, restored from storage and gets one listener |
| TemplateEngine.Engine.InitializeDarkMode | assets/js/template-engine.js:188-207 | afterwards the dark toggle is marked; a second call changes nothing |
| TemplateEngine.Engine.InitializeMode | assets/js/template-engine.js:209-271 | afterwards the mode's toggle is marked; a marked one changes nothing; otherwise it is restored, gets one listener, and a stored "true" switches the picture |
| TemplateEngine.Engine.OnModeChange | assets/js/template-engine.js:222-235 | checking while the partner is stored on unchecks and shows the refusal, touching nothing else; otherwise class and storage follow `checked` and the picture switches |
| TemplateEngine.Engine.InitializeHotkeys | assets/js/template-engine.js:273-314 | afterwards the hotkey toggle is marked; a marked one changes nothing; otherwise hotkeys are on only when "true" is stored, the middle pane is current and the listeners are attached once |
| TemplateEngine.Engine.OnHotkeyChange | assets/js/template-engine.js:287-299 | the checkbox value becomes `hotkeysEnabled` and its stored value, and the outline follows |
| TemplateEngine.Engine.InitializeSearch | assets/js/template-engine.js:418-424 | afterwards the search input is marked; a marked one changes nothing |
| TemplateEngine.Engine.InitializeScrollImageSwitch | assets/js/template-engine.js:426-432 | afterwards a left-pane image carries the scroll marker; a marked one is unchanged |
| TemplateEngine.Engine.InitializeFeatures | assets/js/template-engine.js:171-186 | afterwards every control it handles is marked, and on a page where all are marked already a further call changes nothing |
| TemplateEngine.Engine.HandleKeydown | assets/js/template-engine.js:316-338 | with no matching branch, including hotkeys off, the page and pane are unchanged; CTRL+k focuses a present search input and shows "Search activated"; CTRL+ArrowUp/Down scroll the current pane by 100 pixels and leave the outline and messages alone, while CTRL+ArrowLeft/Right make NextPane current, outline it and show its "panel active" message; Escape blurs with no message and runs the corrected search clearing; each branch leaves the parts of the page it does not act on unchanged |

## Left out

- The animations in assets/js/particle_vessel_inverted.tsx and assets/js/front-page-shape.js are not part of this model: they are floating-point WebGL and canvas drawing.
- The network, with `fetch`, `response.text()` and script execution, is not modelled. A fetch result and a script-load outcome are parameters: `Response` values and `outcomes` flags.
- The component fetches of `loadComponents` run in parallel in the source. The model completes them in document order, and every slot consults the cache as it was before any fetch resolved.
- The removal of existing script tags (assets/js/template-engine.js:97-102) is left out, because it depends on the browser resolving `script.src` to an absolute URL. In the source, a manifest script already in the page markup is removed and appended again, so it runs twice, while the model reports it as `AlreadyPresent` and keeps it in place; the LoadTraceSkips and ScriptsAfterHoldsAll rows describe the model, not this case of the source.
- `loadTemplate`, `setMainContent`, `setTitle` and `addPageScript` of the template engine are left out. `loadTemplate` replaces the body with fetched HTML, which is plain I/O. The other three write page text or forward to `loadScript`, and no property rests on them.
- Timers are left out: `setTimeout`/`setInterval`, the 100 ms wait at assets/js/template-engine.js:175, the delayed "Hotkeys active" message, the clock's one-second interval, and message removal. The clock's current time is a parameter of `Clock.DigitalClock.UpdateTime`.
- Messages are recorded as text appended to a log. Their elements, CSS and keyframes are not modelled.
- Browser plumbing is not modelled: `scrollIntoView`, `select`, inline style strings, `history.pushState`, `customElements.define`, the loading fade-in and the style injection at the end of script.js. Focus and `blur` are modelled only as the focused control id, and `scrollTop` is not clamped to the pane's height.
- `highlightText` is abstract: a highlighted unit is `Highlighted(original, escapedQuery)`. JavaScript regular-expression matching is not modelled.
- `toLowerCase` and `toUpperCase` cover ASCII letters only. There is no Unicode case mapping.
- `document.querySelector(targetId)` is modelled only for `#id` selectors naming a section. A selector that is invalid, or that names a non-section element, is not represented.
- `initSlideshows` is modelled as one `Slideshow.Init` per slideshow. Button creation is the `hasNav` flag.
- The scroll switch saves `originalSrc`, but the source never reads it; the model stores it and proves it plays no part.
- `ensureToggle` also creates a checkbox when there is no left pane. That checkbox is never attached to the document, so nothing can observe it, and the model does not represent it.
- Hotkeys.HotkeySystem.ToggleFeature: records the synthetic `change` event it dispatches in `page.dispatched`, but does not run the listeners that event would reach; each listener is its own method. The end state and the message are therefore those before any listener reacts. `dispatchEvent` runs listeners synchronously, and `toggleFeature` reads `checked` afterwards, so a listener that reverts the box does change the source's result. For example, the refusal of assets/js/go-skiing.js:20-24, when cool mode is stored as on, leaves the box unchecked and makes the message say "disabled". The model states the flipped box and "enabled" instead.
- Hotkeys.HotkeySystem.HandleKeydown: its Escape branch runs the corrected `HotkeyActions.ClearFocus`, not the as-written `clearFocus` of assets/js/hotkeys.js:184-195. When the search input has the focus, the model empties it and clears the search; the source as written leaves both.
- TemplateEngine.Engine.HandleKeydown: its Escape branch runs the corrected `HotkeyActions.ClearFocus`, not the as-written `clearFocus` of assets/js/template-engine.js:402-412, with the same difference.
- Only one copy of the clock formatting is modelled, because assets/js/script.js repeats assets/js/clock.js word for word.

## Findings

| source | as written | input that shows it | evidently intended | confidence | as-written member | corrected member |
|---|---|---|---|---|---|---|
| assets/js/hotkeys.js:184-195 | `clearFocus` blurs the active element first, then asks whether the search input is the active element; after a blur it never is, so the search input is never emptied and the search is never cleared | the search input has the focus and holds a query, and Escape is pressed: the query and the filtered results stay, provided the search script's own document `keydown` listener (assets/js/search.js:20-24) is absent or runs after the hotkeys listener, since that listener clears the search while the input still has the focus | read whether the search input had the focus before the blur, then empty it and clear the search | not executed | HotkeyActions.ClearFocusAsWritten | HotkeyActions.ClearFocus |
| assets/js/template-engine.js:402-412 | the same order, blur then test, in the engine's `clearFocus` | the same input, with hotkeys on in the engine, under the same proviso about the search script's own Escape listener | the same | not executed | HotkeyActions.ClearFocusGuardNeverHolds | HotkeyActions.ClearFocus |
