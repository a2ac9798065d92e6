/**
 * The root script.js: one `.page-section` is shown at a time, chosen by the
 * location hash (`#page-1` when there is none), by a navigation click or by
 * the back and forward buttons; and each `.gallery-slideshow` with more than
 * one item shows one item at a time, with Previous and Next buttons that wrap.
 */
module PageNavigation {
  import opened Dom

  /** The section shown when the location has no hash. */
  const DefaultHash := "#page-1"

  /** `window.location.hash || '#page-1'`. */
  function HashOrDefault(hash: string): (r: string)
    ensures r != ""
    ensures hash != "" ==> r == hash
    ensures hash == "" ==> r == DefaultHash
  {
    if hash == "" then DefaultHash else hash
  }

  /** `#id` selects the section with that id. */
  predicate Selects(targetId: string, s: Section)
  {
    targetId == "#" + s.id
  }

  /**
   * The section `document.querySelector(targetId)` finds, searching from `k`:
   * the first one whose id the selector names, or -1 when there is none.
   */
  function TargetFrom(sections: seq<Section>, targetId: string, k: nat): (r: int)
    requires k <= |sections|
    ensures r == -1 || (k <= r < |sections| && Selects(targetId, sections[r]))
    ensures r == -1 ==> forall j :: k <= j < |sections| ==> !Selects(targetId, sections[j])
    ensures r != -1 ==> forall j :: k <= j < r ==> !Selects(targetId, sections[j])
    decreases |sections| - k
  {
    if k == |sections| then -1
    else if Selects(targetId, sections[k]) then k
    else TargetFrom(sections, targetId, k + 1)
  }

  function Target(sections: seq<Section>, targetId: string): (r: int)
    ensures r == -1 <==> forall j :: 0 <= j < |sections| ==> !Selects(targetId, sections[j])
    ensures r != -1 ==> 0 <= r < |sections| && Selects(targetId, sections[r])
    ensures r != -1 ==> forall j :: 0 <= j < r ==> !Selects(targetId, sections[j])
  {
    TargetFrom(sections, targetId, 0)
  }

  /** The positions of `ds` that are shown: `display: none` hides, anything else shows. */
  function ShownIn(ds: seq<Display>): set<nat>
  {
    set j: nat | j < |ds| && ds[j] != Hidden
  }

  function DisplaysOf(sections: seq<Section>): (r: seq<Display>)
    ensures |r| == |sections| && forall j :: 0 <= j < |sections| ==> r[j] == sections[j].display
  {
    seq(|sections|, j requires 0 <= j < |sections| => sections[j].display)
  }

  /** When every position but `k` is hidden and `k` is shown, the shown set is `{k}`. */
  lemma OnlyShown(ds: seq<Display>, k: nat)
    requires k < |ds| && ds[k] != Hidden
    requires forall j :: 0 <= j < |ds| && j != k ==> ds[j] == Hidden
    ensures ShownIn(ds) == {k}
  {
  }

  /**
   * `showSection(targetId)`: every section is hidden, then the selected one, if
   * any, is shown. Afterwards exactly the target is visible, or none is when
   * no section has that id.
   */
  method ShowSection(page: Page, targetId: string)
    modifies page`sections
    ensures |page.sections| == |old(page.sections)|
    ensures forall j :: 0 <= j < |page.sections| ==> page.sections[j].id == old(page.sections)[j].id
    ensures var t := Target(old(page.sections), targetId);
      forall j :: 0 <= j < |page.sections| ==> page.sections[j].display == if j == t then Block else Hidden
    ensures var t := Target(old(page.sections), targetId);
      ShownIn(DisplaysOf(page.sections)) == if t == -1 then {} else {t}
  {
    ghost var ids := page.sections;
    var i := 0;
    while i < |page.sections|
      invariant 0 <= i <= |page.sections| == |ids|
      invariant forall j :: 0 <= j < |ids| ==> page.sections[j].id == ids[j].id
      invariant forall j :: 0 <= j < i ==> page.sections[j].display == Hidden
      invariant forall j :: i <= j < |ids| ==> page.sections[j] == ids[j]
    {
      page.sections := page.sections[i := page.sections[i].(display := Hidden)];
      i := i + 1;
    }
    var t := Target(page.sections, targetId);
    assert t == Target(ids, targetId) by {
      assert forall j :: 0 <= j < |ids| ==> Selects(targetId, page.sections[j]) == Selects(targetId, ids[j]);
    }
    if t != -1 {
      page.sections := page.sections[t := page.sections[t].(display := Block)];
      OnlyShown(DisplaysOf(page.sections), t);
    } else {
      assert ShownIn(DisplaysOf(page.sections)) == {};
    }
  }

  /** A navigation click on `<a href="#...">`: its section is shown and the location takes the hash. */
  method OnNavClick(page: Page, href: string)
    modifies page`sections, page`hash
    ensures page.hash == href
    ensures var t := Target(old(page.sections), href);
      ShownIn(DisplaysOf(page.sections)) == if t == -1 then {} else {t}
    ensures |page.sections| == |old(page.sections)|
    ensures forall j :: 0 <= j < |page.sections| ==> page.sections[j].id == old(page.sections)[j].id
  {
    ShowSection(page, href);
    page.hash := href;
  }

  /** The `popstate` listener and the initial load: the hash, or `#page-1`, picks the section. */
  method ShowCurrent(page: Page)
    modifies page`sections
    ensures var t := Target(old(page.sections), HashOrDefault(page.hash));
      ShownIn(DisplaysOf(page.sections)) == if t == -1 then {} else {t}
    ensures |page.sections| == |old(page.sections)|
    ensures forall j :: 0 <= j < |page.sections| ==> page.sections[j].id == old(page.sections)[j].id
  {
    var hash := HashOrDefault(page.hash);
    ShowSection(page, hash);
  }

  // ---------------------------------------------------------------------------
  // Slideshows

  /** The Next button: the last item wraps to the first. */
  function NextIndex(i: nat, n: nat): (r: nat)
    requires i < n
    ensures r < n
  {
    if i == n - 1 then 0 else i + 1
  }

  /** The Previous button: the first item wraps to the last. */
  function PrevIndex(i: nat, n: nat): (r: nat)
    requires i < n
    ensures r < n
  {
    if i == 0 then n - 1 else i - 1
  }

  /** Next and Previous are each other's inverse. */
  lemma NextPrevInverse(i: nat, n: nat)
    requires i < n
    ensures PrevIndex(NextIndex(i, n), n) == i
    ensures NextIndex(PrevIndex(i, n), n) == i
  {
  }

  /** The two buttons step modulo the item count. */
  lemma StepsAreModular(i: nat, n: nat)
    requires i < n
    ensures NextIndex(i, n) == (i + 1) % n
    ensures PrevIndex(i, n) == (i + n - 1) % n
  {
  }

  /** `k` presses of Next. */
  function NextTimes(i: nat, n: nat, k: nat): (r: nat)
    requires i < n
    ensures r < n
  {
    if k == 0 then i else NextIndex(NextTimes(i, n, k - 1), n)
  }

  /** `k` presses of Next move `k` items along, modulo the count; `n` presses come back. */
  lemma {:induction false} NextTimesModular(i: nat, n: nat, k: nat)
    requires i < n
    ensures NextTimes(i, n, k) == (i + k) % n
  {
    if k > 0 {
      NextTimesModular(i, n, k - 1);
      StepsAreModular(NextTimes(i, n, k - 1), n);
      ModStep(i + k - 1, n);
    }
  }

  lemma ModStep(a: nat, n: nat)
    requires n > 0
    ensures (a % n + 1) % n == (a + 1) % n
  {
    var q, r := a / n, a % n;
    assert a == q * n + r;
    if r + 1 < n {
      ModUnique(a + 1, n, q, r + 1);
      ModUnique(r + 1, n, 0, r + 1);
    } else {
      assert (q + 1) * n == q * n + n;
      ModUnique(a + 1, n, q + 1, 0);
      ModUnique(r + 1, n, 1, 0);
    }
  }

  /** The remainder is the one `r` in `[0, n)` with `a == q * n + r`. */
  lemma ModUnique(a: int, n: int, q: int, r: int)
    requires 0 <= r < n && a == q * n + r
    ensures a % n == r
  {
    var q0, r0 := a / n, a % n;
    assert q0 * n + r0 == a;
    assert (q - q0) * n == r0 - r;
    if q > q0 {
      MulAtLeast(q - q0, n);
    } else if q < q0 {
      MulAtLeast(q0 - q, n);
    }
  }

  lemma MulAtLeast(k: int, n: int)
    requires k >= 1 && n > 0
    ensures k * n >= n
  {
    assert k * n == (k - 1) * n + n;
  }

  /** Pressing Next as many times as there are items returns to the same item. */
  lemma NextFullCycle(i: nat, n: nat)
    requires i < n
    ensures NextTimes(i, n, n) == i
  {
    NextTimesModular(i, n, n);
    ModUnique(i + n, n, 1, i);
  }

  /** A `.gallery-slideshow`: its `.media-item` displays, the current index, and whether buttons were added. */
  class Slideshow {
    const items: array<Display>
    var currentIndex: nat
    var hasNav: bool

    constructor(items: array<Display>)
      ensures this.items == items && currentIndex == 0 && !hasNav
    {
      this.items := items;
      currentIndex := 0;
      hasNav := false;
    }

    /** Once the buttons exist, the current index names an item. */
    predicate Valid()
      reads this
    {
      hasNav ==> items.Length > 1 && currentIndex < items.Length
    }

    /**
     * The slideshow part of `initSlideshows`: with one item or none nothing
     * happens; otherwise every item but the first is hidden, the first is left
     * as it was, and the Previous and Next buttons are added.
     */
    method Init()
      requires !hasNav && currentIndex == 0
      modifies items, this`hasNav
      ensures Valid()
      ensures items.Length <= 1 ==> !hasNav && items[..] == old(items[..])
      ensures items.Length > 1 ==>
        hasNav && items[0] == old(items[0]) && (forall j :: 1 <= j < items.Length ==> items[j] == Hidden)
      ensures items.Length > 1 && old(items[0]) != Hidden ==> ShownIn(items[..]) == {0}
    {
      if items.Length <= 1 {
        return;
      }
      var index := 0;
      while index < items.Length
        invariant 0 <= index <= items.Length
        invariant items[0] == old(items[0])
        invariant forall j :: 1 <= j < index ==> items[j] == Hidden
        invariant forall j :: index <= j < items.Length ==> items[j] == old(items[j])
      {
        if index != 0 {
          items[index] := Hidden;
        }
        index := index + 1;
      }
      hasNav := true;
      if items[0] != Hidden {
        OnlyShown(items[..], 0);
      }
    }

    /** `showSlide(index)`: every item is hidden, then item `index` is shown and becomes current. */
    method ShowSlide(index: nat)
      requires index < items.Length
      modifies items, this`currentIndex
      ensures currentIndex == index
      ensures forall j :: 0 <= j < items.Length ==> items[j] == if j == index then Block else Hidden
      ensures ShownIn(items[..]) == {index}
    {
      var j := 0;
      while j < items.Length
        invariant 0 <= j <= items.Length
        invariant forall m :: 0 <= m < j ==> items[m] == Hidden
      {
        items[j] := Hidden;
        j := j + 1;
      }
      items[index] := Block;
      currentIndex := index;
      OnlyShown(items[..], index);
    }

    /** The Previous button's click listener. */
    method Prev()
      requires Valid() && hasNav
      modifies items, this`currentIndex
      ensures Valid()
      ensures currentIndex == PrevIndex(old(currentIndex), items.Length)
      ensures ShownIn(items[..]) == {currentIndex}
    {
      var newIndex := if currentIndex == 0 then items.Length - 1 else currentIndex - 1;
      ShowSlide(newIndex);
    }

    /** The Next button's click listener. */
    method Next()
      requires Valid() && hasNav
      modifies items, this`currentIndex
      ensures Valid()
      ensures currentIndex == NextIndex(old(currentIndex), items.Length)
      ensures ShownIn(items[..]) == {currentIndex}
    {
      var newIndex := if currentIndex == items.Length - 1 then 0 else currentIndex + 1;
      ShowSlide(newIndex);
    }
  }
}
