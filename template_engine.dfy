/**
 * assets/js/template-engine.js: the `TemplateEngine` object. It keeps a
 * component cache filled from fetched HTML, loads a fixed list of scripts one
 * after another, initialises each feature control once (marking it with
 * `data-initialized`), and owns the engine's own hotkey state: whether hotkeys
 * are on and which pane is current.
 */
module TemplateEngine {
  import opened Strings
  import opened Panels
  import opened Dom
  import opened ProfileImage
  import opened ModeToggle
  import opened Search
  import opened HotkeyActions

  /** `config.scriptsToLoad`, in load order. */
  const ScriptsToLoad := [
    "assets/js/clock.js",
    "assets/js/go-skiing.js",
    "assets/js/david-cool.js",
    "assets/js/dark-mode.js",
    "assets/js/scroll-image-switch.js",
    "assets/js/search.js"
  ]

  const InitializedMark := "data-initialized"
  const ScrollInitializedMark := "data-scroll-initialized"

  /** The engine's refusal message, which, unlike the standalone scripts', has no emoji. */
  const EngineRefusal := "I'm already cool when I'm skiing!"
  const HotkeysOnMessage := "Hotkeys enabled! CTRL+K to search, CTRL+arrows to navigate"
  const HotkeysOffMessage := "Hotkeys disabled"

  /** The engine's own change listeners for the two themed toggles. */
  const EngineSkiing := Mode(SkiingToggle, SkiingKey, SkiingClass, CoolKey, SkiingTheme, EngineSkiingChange)
  const EngineCool := Mode(CoolToggle, CoolKey, CoolClass, SkiingKey, CoolTheme, EngineCoolChange)

  /** What `fetch('components/<name>.html')` gives: a body, a non-ok status, or a network failure. */
  datatype Response = Ok(html: string) | HttpError | NetworkFailure

  /** How one `loadScript(src)` promise resolved. */
  datatype ScriptEvent = AlreadyPresent(src: string) | Appended(src: string, loaded: bool)

  /** The slots tagged with the same components, in the same order. */
  predicate SameNames(slots0: seq<Slot>, slots: seq<Slot>)
  {
    |slots0| == |slots| && forall i :: 0 <= i < |slots| ==> slots[i].component == slots0[i].component
  }

  /**
   * A slot after `loadComponents`: a cached component is injected from the cache
   * as it was when loading began; otherwise a successful fetch is injected and a
   * failed one keeps the existing content.
   */
  function SlotAfter(s: Slot, cache0: map<string, string>, r: Response): (t: Slot)
    ensures t.component == s.component
    ensures s.component !in cache0 && !r.Ok? ==> t == s
  {
    if s.component in cache0 then s.(html := cache0[s.component])
    else if r.Ok? then s.(html := r.html)
    else s
  }

  /** A slot served from the cache `cache0` when its component is there, otherwise untouched. */
  function CachedSlot(s: Slot, cache0: map<string, string>): Slot
  {
    if s.component in cache0 then s.(html := cache0[s.component]) else s
  }

  /**
   * The cache after the fetches of `loadComponents` have completed, in document
   * order: every slot whose component was not cached at the start, and whose
   * fetch succeeded, stores its body under its name.
   */
  function CacheAfter(cache0: map<string, string>, slots: seq<Slot>, responses: seq<Response>): map<string, string>
    requires |slots| == |responses|
    decreases |slots|
  {
    if slots == [] then cache0
    else
      var c := CacheAfter(cache0, slots[..|slots| - 1], responses[..|slots| - 1]);
      var s, r := slots[|slots| - 1], responses[|slots| - 1];
      if s.component !in cache0 && r.Ok? then c[s.component := r.html] else c
  }

  /** Loading never drops or changes an entry that was already cached. */
  lemma {:induction false} CacheAfterKeeps(cache0: map<string, string>, slots: seq<Slot>, responses: seq<Response>)
    requires |slots| == |responses|
    ensures forall n :: n in cache0 ==> n in CacheAfter(cache0, slots, responses) && CacheAfter(cache0, slots, responses)[n] == cache0[n]
    decreases |slots|
  {
    if slots != [] {
      CacheAfterKeeps(cache0, slots[..|slots| - 1], responses[..|slots| - 1]);
    }
  }

  /** Every new entry is the body of a successful fetch for a slot of that name. */
  lemma {:induction false} CacheAfterSound(cache0: map<string, string>, slots: seq<Slot>, responses: seq<Response>)
    requires |slots| == |responses|
    ensures forall n :: n in CacheAfter(cache0, slots, responses) && n !in cache0 ==>
      exists k :: 0 <= k < |slots| && slots[k].component == n && responses[k] == Ok(CacheAfter(cache0, slots, responses)[n])
    decreases |slots|
  {
    if slots != [] {
      var m := |slots| - 1;
      CacheAfterSound(cache0, slots[..m], responses[..m]);
      var c := CacheAfter(cache0, slots[..m], responses[..m]);
      forall n | n in CacheAfter(cache0, slots, responses) && n !in cache0
        ensures exists k :: 0 <= k < |slots| && slots[k].component == n && responses[k] == Ok(CacheAfter(cache0, slots, responses)[n])
      {
        if slots[m].component == n && responses[m].Ok? {
          assert responses[m] == Ok(CacheAfter(cache0, slots, responses)[n]);
        } else {
          var k :| 0 <= k < m && slots[..m][k].component == n && responses[..m][k] == Ok(c[n]);
          assert slots[k].component == n && responses[k] == Ok(CacheAfter(cache0, slots, responses)[n]);
        }
      }
    }
  }

  /** Every successful fetch of an uncached component leaves that name cached. */
  lemma {:induction false} CacheAfterComplete(cache0: map<string, string>, slots: seq<Slot>, responses: seq<Response>)
    requires |slots| == |responses|
    ensures forall k :: 0 <= k < |slots| && slots[k].component !in cache0 && responses[k].Ok? ==>
      slots[k].component in CacheAfter(cache0, slots, responses)
    decreases |slots|
  {
    if slots != [] {
      var m := |slots| - 1;
      CacheAfterComplete(cache0, slots[..m], responses[..m]);
      forall k | 0 <= k < m && slots[k].component !in cache0 && responses[k].Ok?
        ensures slots[k].component in CacheAfter(cache0, slots, responses)
      {
        assert slots[..m][k] == slots[k] && responses[..m][k] == responses[k];
      }
    }
  }

  /** The events of `loadScripts`: each manifest entry in turn, skipped when its `src` is already in the document. */
  function LoadTrace(present: seq<string>, srcs: seq<string>, outcomes: seq<bool>): seq<ScriptEvent>
    requires |srcs| == |outcomes|
    decreases |srcs|
  {
    if srcs == [] then []
    else if srcs[0] in present then [AlreadyPresent(srcs[0])] + LoadTrace(present, srcs[1..], outcomes[1..])
    else [Appended(srcs[0], outcomes[0])] + LoadTrace(present + [srcs[0]], srcs[1..], outcomes[1..])
  }

  /** The `<script src>` list after `loadScripts`. */
  function ScriptsAfter(present: seq<string>, srcs: seq<string>): seq<string>
    decreases |srcs|
  {
    if srcs == [] then present
    else if srcs[0] in present then ScriptsAfter(present, srcs[1..])
    else ScriptsAfter(present + [srcs[0]], srcs[1..])
  }

  /**
   * One event per manifest entry, in manifest order, whatever the outcomes: a
   * failed load never stops the entries after it, and an appended script
   * records its own outcome.
   */
  lemma {:induction false} LoadTraceInOrder(present: seq<string>, srcs: seq<string>, outcomes: seq<bool>)
    requires |srcs| == |outcomes|
    ensures |LoadTrace(present, srcs, outcomes)| == |srcs|
    ensures forall i :: 0 <= i < |srcs| ==> LoadTrace(present, srcs, outcomes)[i].src == srcs[i]
    ensures forall i :: 0 <= i < |srcs| && LoadTrace(present, srcs, outcomes)[i].Appended? ==>
      LoadTrace(present, srcs, outcomes)[i].loaded == outcomes[i]
    decreases |srcs|
  {
    if srcs != [] {
      var p := if srcs[0] in present then present else present + [srcs[0]];
      LoadTraceInOrder(p, srcs[1..], outcomes[1..]);
    }
  }

  /** An entry is skipped exactly when its `src` was in the document or appeared earlier in the manifest. */
  lemma {:induction false} LoadTraceSkips(present: seq<string>, srcs: seq<string>, outcomes: seq<bool>)
    requires |srcs| == |outcomes|
    ensures |LoadTrace(present, srcs, outcomes)| == |srcs|
    ensures forall i :: 0 <= i < |srcs| ==>
      (LoadTrace(present, srcs, outcomes)[i].AlreadyPresent? <==> srcs[i] in present || srcs[i] in srcs[..i])
    decreases |srcs|
  {
    LoadTraceInOrder(present, srcs, outcomes);
    if srcs != [] {
      var p := if srcs[0] in present then present else present + [srcs[0]];
      LoadTraceSkips(p, srcs[1..], outcomes[1..]);
      forall i | 1 <= i < |srcs|
        ensures LoadTrace(present, srcs, outcomes)[i].AlreadyPresent? <==> srcs[i] in present || srcs[i] in srcs[..i]
      {
        assert LoadTrace(present, srcs, outcomes)[i] == LoadTrace(p, srcs[1..], outcomes[1..])[i - 1];
        assert srcs[1..][i - 1] == srcs[i];
        assert srcs[..i] == [srcs[0]] + srcs[1..][..i - 1];
      }
    }
  }

  /** Afterwards the document holds what it held, in place, and every manifest entry, and nothing else. */
  lemma {:induction false} ScriptsAfterHoldsAll(present: seq<string>, srcs: seq<string>)
    ensures |present| <= |ScriptsAfter(present, srcs)| && ScriptsAfter(present, srcs)[..|present|] == present
    ensures forall s :: s in ScriptsAfter(present, srcs) <==> s in present || s in srcs
    decreases |srcs|
  {
    if srcs != [] {
      var p := if srcs[0] in present then present else present + [srcs[0]];
      ScriptsAfterHoldsAll(p, srcs[1..]);
      assert p[..|present|] == present;
      assert forall s :: s in srcs <==> s == srcs[0] || s in srcs[1..];
    }
  }

  /**
   * `switchToGoSkiingMode` and `switchToCoolMode` on one `src`: switching on
   * replaces the first `/me/profile.jpg` by the theme's path when `src` mentions
   * `profile.jpg`; switching off replaces the first theme path back when `src`
   * mentions the theme's file name.
   */
  function EngineThemedSrc(src: string, t: Theme, on: bool): string
  {
    if on then (if Contains(src, "profile.jpg") then ReplaceFirst(src, ProfilePath, t.path) else src)
    else (if Contains(src, t.marker) then ReplaceFirst(src, t.path, ProfilePath) else src)
  }

  /**
   * Facts about the literal paths: neither path can overlap itself, they differ
   * in length, and each theme path ends in its file name.
   */
  lemma PathsDoNotOverlap(t: Theme)
    requires KnownTheme(t)
    ensures NoSelfOverlap(ProfilePath) && NoSelfOverlap(t.path)
    ensures |t.path| >= 1 && |t.path| != |ProfilePath| && EndsWith(t.path, t.marker)
  {
    ProfilePathFacts();
    if t == SkiingTheme {
      SkiingPathFacts();
    } else {
      CoolPathFacts();
    }
  }

  lemma ProfilePathFacts()
    ensures NoSelfOverlap(ProfilePath) && |ProfilePath| == 15 && EndsWith(ProfilePath, "profile.jpg")
  {
    assert NoOverlapFrom(ProfilePath, 8);
    assert NoOverlapFrom(ProfilePath, 1);
    NoOverlapFromSound(ProfilePath, 1);
    assert ProfilePath[4..] == "profile.jpg";
  }

  lemma SkiingPathFacts()
    ensures NoSelfOverlap(SkiingTheme.path) && |SkiingTheme.path| == 16 && EndsWith(SkiingTheme.path, SkiingTheme.marker)
  {
    assert NoOverlapFrom(SkiingTheme.path, 8);
    assert NoOverlapFrom(SkiingTheme.path, 1);
    NoOverlapFromSound(SkiingTheme.path, 1);
    assert SkiingTheme.path[1..] == SkiingTheme.marker;
  }

  lemma CoolPathFacts()
    ensures NoSelfOverlap(CoolTheme.path) && |CoolTheme.path| == 18 && EndsWith(CoolTheme.path, CoolTheme.marker)
  {
    assert NoOverlapFrom(CoolTheme.path, 12);
    assert NoOverlapFrom(CoolTheme.path, 8);
    assert NoOverlapFrom(CoolTheme.path, 4);
    assert NoOverlapFrom(CoolTheme.path, 1);
    NoOverlapFromSound(CoolTheme.path, 1);
    assert CoolTheme.path[4..] == CoolTheme.marker;
  }

  /**
   * For a `src` that holds `/me/profile.jpg` and does not yet mention the theme's
   * file, switching on changes it and switching off again gives it back.
   */
  lemma EngineSwitchRoundTrip(src: string, t: Theme)
    requires KnownTheme(t) && Contains(src, ProfilePath) && !Contains(src, t.marker)
    ensures EngineThemedSrc(src, t, true) == ReplaceFirst(src, ProfilePath, t.path) != src
    ensures EngineThemedSrc(EngineThemedSrc(src, t, true), t, false) == src
  {
    PathsDoNotOverlap(t);
    ProfilePathFacts();
    SwapRoundTrip(src, ProfilePath, "profile.jpg", t.path, t.marker);
  }

  /** Only the left-pane image is rewritten, and only its `src`. */
  method SwitchToMode(page: Page, t: Theme, on: bool)
    modifies page`leftPaneImg
    ensures page.leftPaneImg == if old(page.leftPaneImg).Some?
      then Some(old(page.leftPaneImg).value.(src := EngineThemedSrc(old(page.leftPaneImg).value.src, t, on)))
      else None
  {
    if page.leftPaneImg.Some? {
      var img := page.leftPaneImg.value;
      page.leftPaneImg := Some(img.(src := EngineThemedSrc(img.src, t, on)));
    }
  }

  /** A control the engine has reached: missing, or already marked. */
  predicate Marked(inputs: map<string, Input>, id: string)
  {
    id !in inputs || InitializedMark in inputs[id].attrs
  }

  /** Every control `initializeFeatures` handles, and the left-pane image, carry their marker. */
  predicate AllInitialized(page: Page)
    reads page
  {
    && Marked(page.inputs, DarkToggle) && Marked(page.inputs, SkiingToggle) && Marked(page.inputs, CoolToggle)
    && Marked(page.inputs, HotkeyToggle) && Marked(page.inputs, SearchInput)
    && (page.leftPaneImg.Some? ==> ScrollInitializedMark in page.leftPaneImg.value.attrs)
  }

  /**
   * The dispatch of the engine's `handleKeydown`: nothing while hotkeys are
   * off; otherwise CTRL+K, then CTRL with an arrow key, then Escape (with or
   * without CTRL), the first match winning.
   */
  function EngineKeyAction(enabled: bool, e: KeyEvent): (a: KeyAction)
    ensures !enabled ==> a == NoAction
    ensures a == FocusSearch <==> enabled && e.ctrl && e.key == "k"
    ensures a.Navigate? <==> enabled && e.ctrl && e.key != "k" && IsArrowKey(e.key)
    ensures a.Navigate? ==> a.direction == e.key
    ensures a == ClearFocus <==> enabled && e.key == "Escape" && !(e.ctrl && (e.key == "k" || IsArrowKey(e.key)))
    ensures !a.ToggleFeature?
  {
    if !enabled then NoAction
    else if e.ctrl && e.key == "k" then FocusSearch
    else if e.ctrl && IsArrowKey(e.key) then Navigate(e.key)
    else if e.key == "Escape" then ClearFocus
    else NoAction
  }

  class Engine {
    var components: map<string, string>
    var scriptsToLoad: seq<string>
    var hotkeysEnabled: bool
    var currentPanel: Pane

    /** `new TemplateEngine()`: an empty cache. `currentPanel` is first read after `initializeHotkeys` sets it. */
    constructor()
      ensures components == map[] && scriptsToLoad == ScriptsToLoad && !hotkeysEnabled && currentPanel == MiddlePane
    {
      components := map[];
      scriptsToLoad := ScriptsToLoad;
      hotkeysEnabled := false;
      currentPanel := MiddlePane;
    }

    /** `getComponent(name)`: the cached HTML, if any. */
    function GetComponent(name: string): (r: Option<string>)
      reads this
      ensures r.Some? <==> name in components
      ensures r.Some? ==> r.value == components[name]
    {
      if name in components then Some(components[name]) else None
    }

    /** The synchronous start of `loadComponent`: a cached component is injected without a fetch. */
    method ServeCached(page: Page, k: nat) returns (hit: bool)
      requires k < |page.slots|
      modifies page`slots
      ensures hit == (old(page.slots)[k].component in components)
      ensures hit ==> page.slots == old(page.slots)[k := old(page.slots)[k].(html := components[old(page.slots)[k].component])]
      ensures !hit ==> page.slots == old(page.slots)
    {
      var name := page.slots[k].component;
      hit := name in components;
      if hit {
        page.slots := page.slots[k := page.slots[k].(html := components[name])];
      }
    }

    /** The end of `loadComponent` once its fetch has resolved: a body is cached and injected, a failure keeps everything. */
    method StoreFetched(page: Page, k: nat, resp: Response)
      requires k < |page.slots|
      modifies this`components, page`slots
      ensures resp.Ok? ==>
        && components == old(components)[old(page.slots)[k].component := resp.html]
        && page.slots == old(page.slots)[k := old(page.slots)[k].(html := resp.html)]
      ensures !resp.Ok? ==> components == old(components) && page.slots == old(page.slots)
    {
      if resp.Ok? {
        var name := page.slots[k].component;
        components := components[name := resp.html];
        page.slots := page.slots[k := page.slots[k].(html := resp.html)];
      }
    }

    /**
     * `loadComponent(name, slot k)` on its own: served from the cache with no
     * fetch when `name` is cached; otherwise `resp` is what the fetch gave.
     */
    method LoadComponent(page: Page, k: nat, resp: Response) returns (fetched: bool)
      requires k < |page.slots|
      modifies this`components, page`slots
      ensures fetched <==> old(page.slots)[k].component !in old(components)
      ensures !fetched ==>
        && components == old(components)
        && page.slots == old(page.slots)[k := old(page.slots)[k].(html := old(components)[old(page.slots)[k].component])]
      ensures fetched && resp.Ok? ==>
        && components == old(components)[old(page.slots)[k].component := resp.html]
        && page.slots == old(page.slots)[k := old(page.slots)[k].(html := resp.html)]
        && GetComponent(old(page.slots)[k].component) == Some(resp.html)
      ensures fetched && !resp.Ok? ==> components == old(components) && page.slots == old(page.slots)
    {
      var hit := ServeCached(page, k);
      fetched := !hit;
      if fetched {
        StoreFetched(page, k, resp);
      }
    }

    /**
     * `loadComponents`: every `[data-component]` slot starts its load at once,
     * so all of them consult the cache as it was before any fetch resolved;
     * `responses[k]` is the fetch result for slot `k`, and the fetches complete
     * in document order.
     */
    method LoadComponents(page: Page, responses: seq<Response>)
      requires |responses| == |page.slots|
      modifies this`components, page`slots
      ensures SameNames(old(page.slots), page.slots)
      ensures forall k :: 0 <= k < |page.slots| ==> page.slots[k] == SlotAfter(old(page.slots)[k], old(components), responses[k])
      ensures components == CacheAfter(old(components), old(page.slots), responses)
    {
      ghost var slots0 := page.slots;
      var cache0 := components;
      var pending := ServeAllCached(page);
      StoreAllFetched(page, slots0, cache0, pending, responses);
    }

    /** The first half of `loadComponents`: every slot whose component is cached is served; `pending` marks the others. */
    method ServeAllCached(page: Page) returns (pending: seq<bool>)
      modifies page`slots
      ensures |pending| == |page.slots| == |old(page.slots)|
      ensures forall j :: 0 <= j < |pending| ==> pending[j] == (old(page.slots)[j].component !in components)
      ensures forall j :: 0 <= j < |page.slots| ==> page.slots[j] == CachedSlot(old(page.slots)[j], components)
    {
      ghost var slots0 := page.slots;
      pending := [];
      var k := 0;
      while k < |page.slots|
        invariant 0 <= k <= |page.slots| == |slots0| && |pending| == k
        invariant forall j :: 0 <= j < k ==> pending[j] == (slots0[j].component !in components)
        invariant forall j :: 0 <= j < k ==> page.slots[j] == CachedSlot(slots0[j], components)
        invariant forall j :: k <= j < |slots0| ==> page.slots[j] == slots0[j]
      {
        var hit := ServeCached(page, k);
        pending := pending + [!hit];
        k := k + 1;
      }
    }

    /** The second half of `loadComponents`: the fetches of the pending slots complete in document order. */
    method StoreAllFetched(page: Page, ghost slots0: seq<Slot>, cache0: map<string, string>, pending: seq<bool>, responses: seq<Response>)
      requires |pending| == |page.slots| == |slots0| == |responses|
      requires components == cache0
      requires forall j :: 0 <= j < |pending| ==> pending[j] == (slots0[j].component !in cache0)
      requires forall j :: 0 <= j < |page.slots| ==> page.slots[j] == CachedSlot(slots0[j], cache0)
      modifies this`components, page`slots
      ensures |page.slots| == |slots0|
      ensures forall j :: 0 <= j < |slots0| ==> page.slots[j] == SlotAfter(slots0[j], cache0, responses[j])
      ensures components == CacheAfter(cache0, slots0, responses)
    {
      var k := 0;
      while k < |page.slots|
        invariant 0 <= k <= |page.slots| == |slots0|
        invariant components == CacheAfter(cache0, slots0[..k], responses[..k])
        invariant forall j :: 0 <= j < k ==> page.slots[j] == SlotAfter(slots0[j], cache0, responses[j])
        invariant forall j :: k <= j < |slots0| ==> page.slots[j] == CachedSlot(slots0[j], cache0)
      {
        assert slots0[..k + 1][..k] == slots0[..k] && responses[..k + 1][..k] == responses[..k];
        if pending[k] {
          StoreFetched(page, k, responses[k]);
        }
        k := k + 1;
      }
      assert slots0[..k] == slots0 && responses[..k] == responses;
    }

    /** `updateComponent(name, html)`: the cache entry is set and every slot of that name shows `html`. */
    method UpdateComponent(page: Page, name: string, html: string)
      modifies this`components, page`slots
      ensures components == old(components)[name := html] && GetComponent(name) == Some(html)
      ensures SameNames(old(page.slots), page.slots)
      ensures forall i :: 0 <= i < |page.slots| ==>
        page.slots[i] == if old(page.slots)[i].component == name then old(page.slots)[i].(html := html) else old(page.slots)[i]
    {
      components := components[name := html];
      ghost var slots0 := page.slots;
      var i := 0;
      while i < |page.slots|
        invariant 0 <= i <= |page.slots| == |slots0|
        invariant components == old(components)[name := html]
        invariant forall j :: 0 <= j < i ==> page.slots[j] == if slots0[j].component == name then slots0[j].(html := html) else slots0[j]
        invariant forall j :: i <= j < |slots0| ==> page.slots[j] == slots0[j]
      {
        if page.slots[i].component == name {
          page.slots := page.slots[i := page.slots[i].(html := html)];
        }
        i := i + 1;
      }
    }

    /** `loadScript(src)`: an exact `src` already in the document resolves at once; otherwise the script is appended and resolves either way. */
    method LoadScript(page: Page, src: string, loaded: bool) returns (ev: ScriptEvent)
      modifies page`scripts
      ensures src in old(page.scripts) ==> ev == AlreadyPresent(src) && page.scripts == old(page.scripts)
      ensures src !in old(page.scripts) ==> ev == Appended(src, loaded) && page.scripts == old(page.scripts) + [src]
    {
      if src in page.scripts {
        return AlreadyPresent(src);
      }
      page.scripts := page.scripts + [src];
      ev := Appended(src, loaded);
    }

    /** `loadScripts`: the manifest loaded entry by entry; `outcomes[i]` says whether entry `i`'s load would succeed. */
    method LoadScripts(page: Page, outcomes: seq<bool>) returns (trace: seq<ScriptEvent>)
      requires |outcomes| == |scriptsToLoad|
      modifies page`scripts
      ensures trace == LoadTrace(old(page.scripts), scriptsToLoad, outcomes)
      ensures page.scripts == ScriptsAfter(old(page.scripts), scriptsToLoad)
    {
      var srcs, outs := scriptsToLoad, outcomes;
      trace := [];
      while srcs != []
        invariant |srcs| == |outs|
        invariant trace + LoadTrace(page.scripts, srcs, outs) == LoadTrace(old(page.scripts), scriptsToLoad, outcomes)
        invariant ScriptsAfter(page.scripts, srcs) == ScriptsAfter(old(page.scripts), scriptsToLoad)
        decreases |srcs|
      {
        ghost var before := page.scripts;
        var ev := LoadScript(page, srcs[0], outs[0]);
        ghost var rest := LoadTrace(page.scripts, srcs[1..], outs[1..]);
        assert LoadTrace(before, srcs, outs) == [ev] + rest;
        assert trace + ([ev] + rest) == (trace + [ev]) + rest;
        trace := trace + [ev];
        srcs, outs := srcs[1..], outs[1..];
      }
    }

    /**
     * The common shape of `initializeDarkMode`, `initializeSkiing` and
     * `initializeCoolMode`: an existing, unmarked control is marked, a stored
     * "true" adds the class and checks it, and the change listener is attached.
     */
    method InitializeToggle(page: Page, id: string, cls: string, key: string, h: Handler) returns (firstTime: bool)
      modifies page`inputs, page`bodyClasses
      ensures firstTime == (id in old(page.inputs) && InitializedMark !in old(page.inputs)[id].attrs)
      ensures !firstTime ==> page.inputs == old(page.inputs) && page.bodyClasses == old(page.bodyClasses)
      ensures firstTime ==>
        && page.inputs == old(page.inputs)[id := old(page.inputs)[id].(
             attrs := old(page.inputs)[id].attrs + {InitializedMark},
             checked := StoredTrue(page.storage, key) || old(page.inputs)[id].checked,
             listeners := old(page.inputs)[id].listeners + [h])]
        && page.bodyClasses == if StoredTrue(page.storage, key) then old(page.bodyClasses) + {cls} else old(page.bodyClasses)
    {
      firstTime := id in page.inputs && InitializedMark !in page.inputs[id].attrs;
      if firstTime {
        page.MarkAttr(id, InitializedMark);
        page.RestoreToggle(id, cls, key);
        page.AddListener(id, h);
      }
    }

    /** `initializeDarkMode`. Its change listener is `Dom.Page.PersistToggle(DarkToggle, DarkClass, DarkModeKey)`. */
    method InitializeDarkMode(page: Page)
      modifies page`inputs, page`bodyClasses
      ensures Marked(page.inputs, DarkToggle)
      ensures Marked(old(page.inputs), DarkToggle) ==> page.inputs == old(page.inputs) && page.bodyClasses == old(page.bodyClasses)
      ensures forall id :: id != DarkToggle ==> (id in page.inputs <==> id in old(page.inputs))
      ensures forall id :: id != DarkToggle && id in page.inputs ==> page.inputs[id] == old(page.inputs)[id]
      ensures !Marked(old(page.inputs), DarkToggle) ==>
        && DarkToggle in page.inputs
        && page.inputs[DarkToggle].checked == (StoredTrue(page.storage, DarkModeKey) || old(page.inputs)[DarkToggle].checked)
        && page.inputs[DarkToggle].listeners == old(page.inputs)[DarkToggle].listeners + [EngineDarkChange]
        && page.bodyClasses == if StoredTrue(page.storage, DarkModeKey) then old(page.bodyClasses) + {DarkClass} else old(page.bodyClasses)
    {
      var _ := InitializeToggle(page, DarkToggle, DarkClass, DarkModeKey, EngineDarkChange);
    }

    /** `initializeSkiing` and `initializeCoolMode`: as a persisted toggle, and a stored "true" also switches the picture on. */
    method InitializeMode(page: Page, m: Mode)
      requires m == EngineSkiing || m == EngineCool
      modifies page`inputs, page`bodyClasses, page`leftPaneImg
      ensures Marked(page.inputs, m.toggleId)
      ensures Marked(old(page.inputs), m.toggleId) ==>
        page.inputs == old(page.inputs) && page.bodyClasses == old(page.bodyClasses) && page.leftPaneImg == old(page.leftPaneImg)
      ensures forall id :: id != m.toggleId ==> (id in page.inputs <==> id in old(page.inputs))
      ensures forall id :: id != m.toggleId && id in page.inputs ==> page.inputs[id] == old(page.inputs)[id]
      ensures !Marked(old(page.inputs), m.toggleId) ==>
        && m.toggleId in page.inputs
        && page.inputs[m.toggleId].checked == (StoredTrue(page.storage, m.key) || old(page.inputs)[m.toggleId].checked)
        && page.inputs[m.toggleId].listeners == old(page.inputs)[m.toggleId].listeners + [m.handler]
        && page.bodyClasses == (if StoredTrue(page.storage, m.key) then old(page.bodyClasses) + {m.cls} else old(page.bodyClasses))
        && page.leftPaneImg == (if StoredTrue(page.storage, m.key) && old(page.leftPaneImg).Some?
             then Some(old(page.leftPaneImg).value.(src := EngineThemedSrc(old(page.leftPaneImg).value.src, m.theme, true)))
             else old(page.leftPaneImg))
    {
      var firstTime := InitializeToggle(page, m.toggleId, m.cls, m.key, m.handler);
      if firstTime && StoredTrue(page.storage, m.key) {
        SwitchToMode(page, m.theme, true);
      }
    }

    /**
     * The engine's change listener for `go-skiing-toggle` and
     * `make-me-cool-toggle`: checking one while the other is stored as "true"
     * unchecks it and shows the refusal; otherwise the class and the stored
     * value follow `checked` and the left-pane picture is switched.
     */
    method OnModeChange(page: Page, m: Mode)
      requires (m == EngineSkiing || m == EngineCool) && m.toggleId in page.inputs
      modifies page`inputs, page`bodyClasses, page`storage, page`messages, page`leftPaneImg
      ensures Refused(old(page.storage), m.partnerKey, old(page.Checked(m.toggleId))) ==>
        && page.inputs == old(page.inputs)[m.toggleId := old(page.inputs)[m.toggleId].(checked := false)]
        && page.bodyClasses == old(page.bodyClasses) && page.storage == old(page.storage)
        && page.messages == old(page.messages) + [EngineRefusal] && page.leftPaneImg == old(page.leftPaneImg)
      ensures !Refused(old(page.storage), m.partnerKey, old(page.Checked(m.toggleId))) ==>
        && page.inputs == old(page.inputs) && page.messages == old(page.messages)
        && page.bodyClasses == SetClass(old(page.bodyClasses), m.cls, page.Checked(m.toggleId))
        && page.storage == old(page.storage)[m.key := BoolString(page.Checked(m.toggleId))]
        && page.leftPaneImg == if old(page.leftPaneImg).Some?
             then Some(old(page.leftPaneImg).value.(src := EngineThemedSrc(old(page.leftPaneImg).value.src, m.theme, page.Checked(m.toggleId))))
             else None
      ensures Exclusive(old(page.storage)) ==> Exclusive(page.storage)
    {
      var checked := page.Checked(m.toggleId);
      if checked && StoredTrue(page.storage, m.partnerKey) {
        page.SetChecked(m.toggleId, false);
        page.ShowMessage(EngineRefusal);
        return;
      }
      if Exclusive(page.storage) {
        GuardedWriteKeepsExclusive(page.storage, m.key, m.partnerKey, checked);
      }
      page.bodyClasses := SetClass(page.bodyClasses, m.cls, checked);
      page.storage := page.storage[m.key := BoolString(checked)];
      SwitchToMode(page, m.theme, checked);
    }

    /**
     * `initializeHotkeys`: on an existing, unmarked toggle, hotkeys are on only
     * when "true" is stored, the middle pane is current, the change and keydown
     * listeners are attached, and an enabled start outlines the current pane.
     */
    method InitializeHotkeys(page: Page)
      modifies this`hotkeysEnabled, this`currentPanel, page`inputs, page`keydownListeners, page`outlined
      ensures Marked(page.inputs, HotkeyToggle)
      ensures Marked(old(page.inputs), HotkeyToggle) ==>
        && page.inputs == old(page.inputs) && page.keydownListeners == old(page.keydownListeners)
        && page.outlined == old(page.outlined) && hotkeysEnabled == old(hotkeysEnabled) && currentPanel == old(currentPanel)
      ensures forall id :: id != HotkeyToggle ==> (id in page.inputs <==> id in old(page.inputs))
      ensures forall id :: id != HotkeyToggle && id in page.inputs ==> page.inputs[id] == old(page.inputs)[id]
      ensures !Marked(old(page.inputs), HotkeyToggle) ==>
        && hotkeysEnabled == StoredTrue(page.storage, HotkeysKey) && currentPanel == MiddlePane
        && HotkeyToggle in page.inputs
        && page.inputs[HotkeyToggle] == old(page.inputs)[HotkeyToggle].(
             attrs := old(page.inputs)[HotkeyToggle].attrs + {InitializedMark},
             checked := hotkeysEnabled,
             listeners := old(page.inputs)[HotkeyToggle].listeners + [EngineHotkeyChange])
        && page.keydownListeners == old(page.keydownListeners) + [EngineKeydown]
        && page.outlined == if hotkeysEnabled then (if MiddlePane in page.panes then Some(MiddlePane) else None) else old(page.outlined)
    {
      if HotkeyToggle in page.inputs && InitializedMark !in page.inputs[HotkeyToggle].attrs {
        page.MarkAttr(HotkeyToggle, InitializedMark);
        var enabled := StoredTrue(page.storage, HotkeysKey);
        page.SetChecked(HotkeyToggle, enabled);
        hotkeysEnabled := enabled;
        currentPanel := MiddlePane;
        page.AddListener(HotkeyToggle, EngineHotkeyChange);
        page.keydownListeners := page.keydownListeners + [EngineKeydown];
        if hotkeysEnabled {
          page.UpdateActivePanel(currentPanel, hotkeysEnabled);
        }
      }
    }

    /** The hotkey toggle's change listener: the checkbox value is stored and becomes `hotkeysEnabled`. */
    method OnHotkeyChange(page: Page)
      requires HotkeyToggle in page.inputs
      modifies this`hotkeysEnabled, page`storage, page`messages, page`outlined
      ensures hotkeysEnabled == page.Checked(HotkeyToggle) && StoredTrue(page.storage, HotkeysKey) == hotkeysEnabled
      ensures page.storage == old(page.storage)[HotkeysKey := BoolString(hotkeysEnabled)]
      ensures page.messages == old(page.messages) + [if hotkeysEnabled then HotkeysOnMessage else HotkeysOffMessage]
      ensures page.outlined == if hotkeysEnabled && currentPanel in page.panes then Some(currentPanel) else None
    {
      var enabled := page.Checked(HotkeyToggle);
      page.storage := page.storage[HotkeysKey := BoolString(enabled)];
      hotkeysEnabled := enabled;
      if enabled {
        page.ShowMessage(HotkeysOnMessage);
        page.UpdateActivePanel(currentPanel, hotkeysEnabled);
      } else {
        page.ShowMessage(HotkeysOffMessage);
        page.ClearActivePanel();
      }
    }

    /** `initializeSearch`: an existing, unmarked search input is marked. */
    method InitializeSearch(page: Page)
      modifies page`inputs
      ensures Marked(page.inputs, SearchInput)
      ensures Marked(old(page.inputs), SearchInput) ==> page.inputs == old(page.inputs)
      ensures !Marked(old(page.inputs), SearchInput) ==>
        page.inputs == old(page.inputs)[SearchInput := old(page.inputs)[SearchInput].(attrs := old(page.inputs)[SearchInput].attrs + {InitializedMark})]
    {
      if SearchInput in page.inputs && InitializedMark !in page.inputs[SearchInput].attrs {
        page.MarkAttr(SearchInput, InitializedMark);
      }
    }

    /** `initializeScrollImageSwitch`: the left-pane image, when there is one and it is not marked yet, is marked. */
    method InitializeScrollImageSwitch(page: Page)
      modifies page`leftPaneImg
      ensures page.leftPaneImg.Some? <==> old(page.leftPaneImg).Some?
      ensures page.leftPaneImg.Some? ==> ScrollInitializedMark in page.leftPaneImg.value.attrs
      ensures page.leftPaneImg.Some? && ScrollInitializedMark in old(page.leftPaneImg).value.attrs ==> page.leftPaneImg == old(page.leftPaneImg)
      ensures page.leftPaneImg.Some? && ScrollInitializedMark !in old(page.leftPaneImg).value.attrs ==>
        page.leftPaneImg.value == old(page.leftPaneImg).value.(attrs := old(page.leftPaneImg).value.attrs + {ScrollInitializedMark})
    {
      if page.leftPaneImg.Some? && ScrollInitializedMark !in page.leftPaneImg.value.attrs {
        var img := page.leftPaneImg.value;
        page.leftPaneImg := Some(img.(attrs := img.attrs + {ScrollInitializedMark}));
      }
    }

    /**
     * `initializeFeatures`: the six initialisers in order. Afterwards every
     * control they handle is marked, and on a page where all of them are
     * marked already, a further call changes nothing.
     */
    method InitializeFeatures(page: Page)
      modifies this`hotkeysEnabled, this`currentPanel
      modifies page`inputs, page`bodyClasses, page`leftPaneImg, page`keydownListeners, page`outlined
      ensures AllInitialized(page)
      ensures old(AllInitialized(page)) ==>
        && page.inputs == old(page.inputs) && page.bodyClasses == old(page.bodyClasses)
        && page.keydownListeners == old(page.keydownListeners) && page.outlined == old(page.outlined)
        && hotkeysEnabled == old(hotkeysEnabled) && currentPanel == old(currentPanel)
        && (page.leftPaneImg.Some? <==> old(page.leftPaneImg).Some?)
        && (page.leftPaneImg.Some? ==> page.leftPaneImg.value == old(page.leftPaneImg).value)
    {
      ghost var allBefore := AllInitialized(page);
      InitializeDarkMode(page);
      InitializeMode(page, EngineSkiing);
      InitializeMode(page, EngineCool);
      InitializeHotkeys(page);
      InitializeSearch(page);
      InitializeScrollImageSwitch(page);
      assert allBefore ==> page.leftPaneImg == old(page.leftPaneImg);
    }

    /**
     * `handleKeydown`: what EngineKeyAction selects runs. CTRL+K focuses the
     * search input, CTRL with an arrow navigates, and Escape runs the corrected
     * `clearFocus` without a message; every branch leaves the rest of the page
     * as it was. `search` is `window.clearSearch`'s owner, `null` when the
     * search script is not there.
     */
    method HandleKeydown(page: Page, e: KeyEvent, search: SearchBox?)
      requires search != null ==> search.Valid(page)
      modifies this`currentPanel
      modifies page`activeElement, page`messages, page`scrollTop, page`outlined, page`inputs, page`columnSets, page`summary
      ensures EngineKeyAction(hotkeysEnabled, e) == NoAction ==> unchanged(page) && currentPanel == old(currentPanel)
      ensures EngineKeyAction(hotkeysEnabled, e).Navigate? ==>
        && currentPanel == (if IsScrollKey(e.key) then old(currentPanel) else NextPane(old(currentPanel), e.key))
        && page.inputs == old(page.inputs) && page.activeElement == old(page.activeElement)
        && page.columnSets == old(page.columnSets) && page.summary == old(page.summary)
      ensures EngineKeyAction(hotkeysEnabled, e).Navigate? && IsScrollKey(e.key) ==>
        && page.outlined == old(page.outlined) && page.messages == old(page.messages)
        && (old(currentPanel) in page.panes ==> page.ScrollOf(old(currentPanel)) == old(page.ScrollOf(currentPanel)) + ScrollAmount(e.key))
        && (forall q :: q != old(currentPanel) || old(currentPanel) !in page.panes ==> page.ScrollOf(q) == old(page.ScrollOf(q)))
      ensures EngineKeyAction(hotkeysEnabled, e).Navigate? && !IsScrollKey(e.key) ==>
        && page.scrollTop == old(page.scrollTop)
        && page.outlined == (if currentPanel in page.panes then Some(currentPanel) else None)
        && page.messages == old(page.messages) + [PanelMessage(currentPanel)]
      ensures !EngineKeyAction(hotkeysEnabled, e).Navigate? ==> currentPanel == old(currentPanel)
      ensures EngineKeyAction(hotkeysEnabled, e) == FocusSearch ==>
        && page.activeElement == (if SearchInput in old(page.inputs) then Some(SearchInput) else old(page.activeElement))
        && page.messages == old(page.messages) + (if SearchInput in old(page.inputs) then ["Search activated"] else [])
        && page.inputs == old(page.inputs) && page.columnSets == old(page.columnSets) && page.summary == old(page.summary)
        && page.scrollTop == old(page.scrollTop) && page.outlined == old(page.outlined)
      ensures EngineKeyAction(hotkeysEnabled, e) == ClearFocus ==>
        && page.activeElement == None && page.messages == old(page.messages)
        && page.scrollTop == old(page.scrollTop) && page.outlined == old(page.outlined)
        && (old(page.activeElement) == Some(SearchInput) && SearchInput in old(page.inputs) ==>
             && page.inputs == old(page.inputs)[SearchInput := old(page.inputs)[SearchInput].(value := "")]
             && (search != null ==> search.Valid(page) && search.Cleared(old(page.columnSets), page))
             && (search == null ==> page.columnSets == old(page.columnSets) && page.summary == old(page.summary)))
        && (!(old(page.activeElement) == Some(SearchInput) && SearchInput in old(page.inputs)) ==>
             page.inputs == old(page.inputs) && page.columnSets == old(page.columnSets) && page.summary == old(page.summary))
    {
      var action := EngineKeyAction(hotkeysEnabled, e);
      match action
      case FocusSearch =>
        FocusSearchInput(page);
      case Navigate(direction) =>
        currentPanel := NavigatePanels(page, currentPanel, hotkeysEnabled, direction);
      case ClearFocus =>
        HotkeyActions.ClearFocus(page, search, false);
      case _ =>
    }
  }
}
