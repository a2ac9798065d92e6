/**
 * assets/js/search.js: the search box of the middle pane. The searchable
 * items are the `column-set` blocks that have both a title unit (slot 0) and a
 * content unit (slot 1); a query shows the items whose lower-cased title or
 * content contains it, hides the others and highlights the matches, and a
 * clear puts every item back as it was captured. PrefixStep and PrefixWhole
 * are small sequence helpers for the counting loop and model nothing of their own.
 */
module Search {
  import opened Strings
  import opened Dom
  import opened Panels

  // ---------------------------------------------------------------------------
  // Escaping of regular-expression metacharacters

  /** The characters `escapeRegExp` prefixes with a backslash: `. * + ? ^ $ { } ( ) | [ ] \`. */
  predicate IsMeta(c: char)
  {
    c == '.' || c == '*' || c == '+' || c == '?' || c == '^' || c == '$' || c == '{' || c == '}'
    || c == '(' || c == ')' || c == '|' || c == '[' || c == ']' || c == '\\'
  }

  /** `escapeRegExp(s)`: `s.replace(/[.*+?^${}()|[\]\\]/g, '\\$&')`. */
  function EscapeRegExp(s: string): (r: string)
    ensures |r| >= |s|
  {
    if s == [] then []
    else (if IsMeta(s[0]) then ['\\', s[0]] else [s[0]]) + EscapeRegExp(s[1..])
  }

  /** Reads an escaped pattern back: a backslash stands for the character after it. */
  function Unescape(s: string): string
  {
    if s == [] then []
    else if s[0] == '\\' && |s| >= 2 then [s[1]] + Unescape(s[2..])
    else [s[0]] + Unescape(s[1..])
  }

  /** Escaping loses nothing: the escaped pattern reads back as the query. */
  lemma {:induction false} EscapeRoundTrip(s: string)
    ensures Unescape(EscapeRegExp(s)) == s
  {
    if s != [] {
      EscapeRoundTrip(s[1..]);
      var e := EscapeRegExp(s[1..]);
      if IsMeta(s[0]) {
        assert EscapeRegExp(s) == ['\\', s[0]] + e;
        assert (['\\', s[0]] + e)[2..] == e;
      } else {
        assert EscapeRegExp(s) == [s[0]] + e;
        assert ([s[0]] + e)[1..] == e;
      }
    }
  }

  /** A query without metacharacters is used as it is. */
  lemma {:induction false} EscapePlain(s: string)
    requires forall i :: 0 <= i < |s| ==> !IsMeta(s[i])
    ensures EscapeRegExp(s) == s
  {
    if s != [] {
      EscapePlain(s[1..]);
    }
  }

  /** Escaping works character by character, so it distributes over concatenation. */
  lemma {:induction false} EscapeAppend(a: string, b: string)
    ensures EscapeRegExp(a + b) == EscapeRegExp(a) + EscapeRegExp(b)
  {
    if a != [] {
      var h := if IsMeta(a[0]) then ['\\', a[0]] else [a[0]];
      assert (a + b)[0] == a[0] && (a + b)[1..] == a[1..] + b;
      assert EscapeRegExp(a + b) == h + EscapeRegExp(a[1..] + b);
      EscapeAppend(a[1..], b);
      assert EscapeRegExp(a) == h + EscapeRegExp(a[1..]);
    } else {
      assert a + b == b;
    }
  }

  /** Every metacharacter of the escaped pattern is preceded by a backslash. */
  lemma {:induction false} EscapedMetaIsPreceded(s: string, i: nat)
    requires i < |EscapeRegExp(s)| && IsMeta(EscapeRegExp(s)[i]) && EscapeRegExp(s)[i] != '\\'
    ensures i >= 1 && EscapeRegExp(s)[i - 1] == '\\'
  {
    var e := EscapeRegExp(s[1..]);
    if IsMeta(s[0]) {
      assert EscapeRegExp(s) == ['\\', s[0]] + e;
      if i >= 2 {
        assert EscapeRegExp(s)[i] == e[i - 2];
        EscapedMetaIsPreceded(s[1..], i - 2);
        assert EscapeRegExp(s)[i - 1] == e[i - 3];
      }
    } else {
      assert EscapeRegExp(s) == [s[0]] + e;
      assert i >= 1;
      assert EscapeRegExp(s)[i] == e[i - 1];
      EscapedMetaIsPreceded(s[1..], i - 1);
      assert EscapeRegExp(s)[i - 1] == e[i - 2];
    }
  }

  // ---------------------------------------------------------------------------
  // Items

  /** One entry of `searchableItems`: the column set's position, its trimmed texts and its captured HTML. */
  datatype Item = Item(index: nat, title: string, content: string, originalTitle: Html, originalContent: Html)

  predicate IsSearchable(cs: ColumnSet)
  {
    cs.titleUnit.Some? && cs.contentUnit.Some?
  }

  function ItemOf(cs: ColumnSet, index: nat): Item
    requires IsSearchable(cs)
  {
    Item(index, Trim(cs.titleUnit.value.text), Trim(cs.contentUnit.value.text),
         cs.titleUnit.value.html, cs.contentUnit.value.html)
  }

  /** The items `initializeSearchableItems` collects from `sets`, in document order. */
  function Searchable(sets: seq<ColumnSet>): seq<Item>
  {
    if sets == [] then []
    else
      var n := |sets| - 1;
      Searchable(sets[..n]) + (if IsSearchable(sets[n]) then [ItemOf(sets[n], n)] else [])
  }

  /** The items refer to searchable column sets of `sets`, in strictly increasing order. */
  predicate ItemsFit(items: seq<Item>, sets: seq<ColumnSet>)
  {
    (forall k :: 0 <= k < |items| ==> items[k].index < |sets| && IsSearchable(sets[items[k].index]))
    && (forall a, b :: 0 <= a < b < |items| ==> items[a].index < items[b].index)
  }

  /** Only column sets with both units become items, each once, in document order, with the texts trimmed. */
  lemma SearchableSound(sets: seq<ColumnSet>)
    ensures ItemsFit(Searchable(sets), sets)
    ensures forall k :: 0 <= k < |Searchable(sets)| ==>
      Searchable(sets)[k] == ItemOf(sets[Searchable(sets)[k].index], Searchable(sets)[k].index)
  {
    SearchableItems(sets);
    SearchableIncreasing(sets);
  }

  /** Each item is the one built from the column set at its index. */
  lemma {:induction false} SearchableItems(sets: seq<ColumnSet>)
    ensures forall k :: 0 <= k < |Searchable(sets)| ==>
      && Searchable(sets)[k].index < |sets| && IsSearchable(sets[Searchable(sets)[k].index])
      && Searchable(sets)[k] == ItemOf(sets[Searchable(sets)[k].index], Searchable(sets)[k].index)
  {
    if sets != [] {
      var n := |sets| - 1;
      var p := sets[..n];
      SearchableItems(p);
      var r, rp := Searchable(sets), Searchable(p);
      forall k | 0 <= k < |r|
        ensures r[k].index < |sets| && IsSearchable(sets[r[k].index]) && r[k] == ItemOf(sets[r[k].index], r[k].index)
      {
        if k < |rp| {
          assert r[k] == rp[k];
          assert sets[rp[k].index] == p[rp[k].index];
        }
      }
    }
  }

  /** The item indices strictly increase. */
  lemma {:induction false} SearchableIncreasing(sets: seq<ColumnSet>)
    ensures forall a, b :: 0 <= a < b < |Searchable(sets)| ==> Searchable(sets)[a].index < Searchable(sets)[b].index
  {
    if sets != [] {
      var n := |sets| - 1;
      var p := sets[..n];
      SearchableIncreasing(p);
      SearchableItems(p);
      var r, rp := Searchable(sets), Searchable(p);
      forall a, b | 0 <= a < b < |r|
        ensures r[a].index < r[b].index
      {
        assert r[a] == rp[a];
        if b < |rp| {
          assert r[b] == rp[b];
        } else {
          assert r[b].index == n;
        }
      }
    }
  }

  /** Every column set with both units is among the items. */
  lemma {:induction false} SearchableComplete(sets: seq<ColumnSet>, i: nat)
    requires i < |sets| && IsSearchable(sets[i])
    ensures exists k :: 0 <= k < |Searchable(sets)| && Searchable(sets)[k].index == i
  {
    var n := |sets| - 1;
    var p := sets[..n];
    var rp := Searchable(p);
    var r := Searchable(sets);
    assert r == rp + (if IsSearchable(sets[n]) then [ItemOf(sets[n], n)] else []);
    if i == n {
      assert r[|rp|] == ItemOf(sets[n], n);
    } else {
      assert p[i] == sets[i];
      SearchableComplete(p, i);
      var k :| 0 <= k < |rp| && rp[k].index == i;
      assert r[k] == rp[k];
    }
  }

  /** `item.title.toLowerCase().includes(query) || item.content.toLowerCase().includes(query)`. */
  predicate HasMatch(it: Item, query: string)
  {
    Contains(ToLower(it.title), query) || Contains(ToLower(it.content), query)
  }

  /**
   * One column set after `searchAndFilter`: a match is shown with the result
   * styling and each matching unit highlighted from its captured HTML; any
   * other item is hidden and keeps its HTML.
   */
  function FilterOne(cs: ColumnSet, it: Item, query: string): (r: ColumnSet)
    requires IsSearchable(cs)
    ensures IsSearchable(r)
    ensures r.display == Block <==> HasMatch(it, query)
    ensures r.display == Hidden <==> !HasMatch(it, query)
  {
    if HasMatch(it, query) then
      var title := if Contains(ToLower(it.title), query)
        then cs.titleUnit.value.(html := Highlighted(it.originalTitle, EscapeRegExp(query))) else cs.titleUnit.value;
      var content := if Contains(ToLower(it.content), query)
        then cs.contentUnit.value.(html := Highlighted(it.originalContent, EscapeRegExp(query))) else cs.contentUnit.value;
      cs.(display := Block, resultStyle := true, titleUnit := Some(title), contentUnit := Some(content))
    else
      cs.(display := Hidden)
  }

  /** One column set after `clearSearch`: shown, unstyled, both units back to their captured HTML. */
  function ClearOne(cs: ColumnSet, it: Item): (r: ColumnSet)
    requires IsSearchable(cs)
    ensures IsSearchable(r) && r.display == Block && !r.resultStyle
    ensures r.titleUnit.value.html == it.originalTitle && r.contentUnit.value.html == it.originalContent
  {
    cs.(display := Block, resultStyle := false,
        titleUnit := Some(cs.titleUnit.value.(html := it.originalTitle)),
        contentUnit := Some(cs.contentUnit.value.(html := it.originalContent)))
  }

  /** A clear after a filter leaves an item exactly as a clear alone would: highlighting is undone. */
  lemma ClearUndoesFilter(cs: ColumnSet, it: Item, query: string)
    requires IsSearchable(cs)
    ensures ClearOne(FilterOne(cs, it, query), it) == ClearOne(cs, it)
  {
  }

  /** On an item still showing its captured HTML, a filter and a clear give that HTML back. */
  lemma FilterThenClearRestores(cs: ColumnSet, it: Item, query: string)
    requires IsSearchable(cs)
    requires cs.titleUnit.value.html == it.originalTitle && cs.contentUnit.value.html == it.originalContent
    ensures ClearOne(FilterOne(cs, it, query), it).titleUnit == cs.titleUnit
    ensures ClearOne(FilterOne(cs, it, query), it).contentUnit == cs.contentUnit
  {
  }

  /** What a pass over the items does to each one: `searchAndFilter(query)` or `clearSearch`. */
  datatype Pass = FilterPass(query: string) | ClearPass

  function Apply(cs: ColumnSet, it: Item, pass: Pass): (r: ColumnSet)
    requires IsSearchable(cs)
    ensures IsSearchable(r)
  {
    match pass
    case FilterPass(query) => FilterOne(cs, it, query)
    case ClearPass => ClearOne(cs, it)
  }

  /** Position `i` holds the column set of some item. */
  predicate IsItemIndex(items: seq<Item>, i: nat)
  {
    exists k :: 0 <= k < |items| && items[k].index == i
  }

  /**
   * After a pass has reached item `k`: the column sets of the items before `k`
   * are transformed from what they were, those of the later items are as they
   * were, and every column set that is not an item's is untouched.
   */
  predicate PassedUpTo(sets0: seq<ColumnSet>, sets: seq<ColumnSet>, items: seq<Item>, k: nat, pass: Pass)
    requires ItemsFit(items, sets0) && k <= |items|
  {
    && |sets| == |sets0|
    && (forall j :: 0 <= j < k ==> sets[items[j].index] == Apply(sets0[items[j].index], items[j], pass))
    && (forall j :: k <= j < |items| ==> sets[items[j].index] == sets0[items[j].index])
    && (forall i: nat :: i < |sets0| && !IsItemIndex(items, i) ==> sets[i] == sets0[i])
  }

  /** Nothing has been transformed before the first item. */
  lemma PassedNone(sets0: seq<ColumnSet>, items: seq<Item>, pass: Pass)
    requires ItemsFit(items, sets0)
    ensures PassedUpTo(sets0, sets0, items, 0, pass)
  {
  }

  /** Transforming item `k` in place moves the pass on by one item, and the items still fit. */
  lemma PassedStep(sets0: seq<ColumnSet>, sets: seq<ColumnSet>, items: seq<Item>, k: nat, pass: Pass)
    requires ItemsFit(items, sets0) && k < |items| && PassedUpTo(sets0, sets, items, k, pass)
    ensures IsSearchable(sets[items[k].index])
    ensures PassedUpTo(sets0, sets[items[k].index := Apply(sets[items[k].index], items[k], pass)], items, k + 1, pass)
  {
    var idx := items[k].index;
    var next := sets[idx := Apply(sets[idx], items[k], pass)];
    forall j | 0 <= j < |items| && j != k
      ensures next[items[j].index] == sets[items[j].index]
    {
      assert items[j].index != idx;
    }
    forall i: nat | i < |sets0| && !IsItemIndex(items, i)
      ensures next[i] == sets0[i]
    {
      assert i != idx;
    }
  }

  /** A pass leaves every item's column set searchable. */
  lemma PassedFits(sets0: seq<ColumnSet>, sets: seq<ColumnSet>, items: seq<Item>, k: nat, pass: Pass)
    requires ItemsFit(items, sets0) && k <= |items| && PassedUpTo(sets0, sets, items, k, pass)
    ensures ItemsFit(items, sets)
  {
    forall j | 0 <= j < |items|
      ensures IsSearchable(sets[items[j].index])
    {
      if j < k {
        assert sets[items[j].index] == Apply(sets0[items[j].index], items[j], pass);
      }
    }
  }

  /** Which items match, item by item. */
  function MatchFlags(items: seq<Item>, query: string): (r: seq<bool>)
    ensures |r| == |items| && forall k :: 0 <= k < |items| ==> r[k] == HasMatch(items[k], query)
  {
    seq(|items|, k requires 0 <= k < |items| => HasMatch(items[k], query))
  }

  /** How many of the flags are set. */
  function CountTrue(bs: seq<bool>): (n: nat)
    ensures n <= |bs|
  {
    if bs == [] then 0 else CountTrue(bs[..|bs| - 1]) + (if bs[|bs| - 1] then 1 else 0)
  }

  /** The number of items that match. */
  function CountMatches(items: seq<Item>, query: string): (n: nat)
    ensures n <= |items|
  {
    CountTrue(MatchFlags(items, query))
  }

  /** No flag is counted exactly when none is set. */
  lemma {:induction false} CountTrueZero(bs: seq<bool>)
    ensures CountTrue(bs) == 0 <==> forall k :: 0 <= k < |bs| ==> !bs[k]
  {
    if bs != [] {
      var n := |bs| - 1;
      CountTrueZero(bs[..n]);
      assert forall k :: 0 <= k < n ==> bs[..n][k] == bs[k];
    }
  }

  /** Every flag is counted exactly when every one is set. */
  lemma {:induction false} CountTrueAll(bs: seq<bool>)
    ensures CountTrue(bs) == |bs| <==> forall k :: 0 <= k < |bs| ==> bs[k]
  {
    if bs != [] {
      var n := |bs| - 1;
      CountTrueAll(bs[..n]);
      assert forall k :: 0 <= k < n ==> bs[..n][k] == bs[k];
    }
  }

  /** Counting one more flag adds it. */
  lemma CountTrueAppend(bs: seq<bool>, b: bool)
    ensures CountTrue(bs + [b]) == CountTrue(bs) + (if b then 1 else 0)
  {
    assert (bs + [b])[..|bs|] == bs;
  }

  /** Helper: a prefix one longer ends with the next flag. */
  lemma PrefixStep(bs: seq<bool>, k: nat)
    requires k < |bs|
    ensures bs[..k + 1] == bs[..k] + [bs[k]]
  {
  }

  /** Helper: the whole-length prefix is the sequence. */
  lemma PrefixWhole(bs: seq<bool>)
    ensures bs[..|bs|] == bs
  {
  }

  /** No match is counted exactly when no item matches. */
  lemma CountMatchesZero(items: seq<Item>, query: string)
    ensures CountMatches(items, query) == 0 <==> forall k :: 0 <= k < |items| ==> !HasMatch(items[k], query)
  {
    CountTrueZero(MatchFlags(items, query));
  }

  /** Every item is counted exactly when every item matches. */
  lemma CountMatchesAll(items: seq<Item>, query: string)
    ensures CountMatches(items, query) == |items| <==> forall k :: 0 <= k < |items| ==> HasMatch(items[k], query)
  {
    CountTrueAll(MatchFlags(items, query));
  }

  /** `matchCount === 1 ? 'result' : 'results'`. */
  function ResultWord(n: nat): (w: string)
    ensures w == "result" <==> n == 1
  {
    if n == 1 then "result" else "results"
  }

  /** The query `handleSearch` and `handleSearchKeydown` read from the input. */
  function Query(value: string): string
  {
    ToLower(Trim(value))
  }

  // ---------------------------------------------------------------------------
  // The search box

  class SearchBox {
    /** `searchableItems`. */
    var items: seq<Item>

    constructor()
      ensures items == []
    {
      items := [];
    }

    /** The items were collected from the page's column sets. */
    predicate Valid(page: Page)
      reads this, page
    {
      ItemsFit(items, page.columnSets)
    }

    /** The `DOMContentLoaded` listener: with both the input and the middle pane, collects the items and attaches the listeners. */
    method OnLoad(page: Page)
      modifies this, page`inputs, page`keydownListeners
      ensures SearchInput in old(page.inputs) && MiddlePane in page.panes ==>
        && items == Searchable(page.columnSets) && Valid(page)
        && page.inputs == old(page.inputs)[SearchInput := old(page.inputs)[SearchInput].(listeners :=
             old(page.inputs)[SearchInput].listeners + [SearchInputListener, SearchKeydownListener])]
        && page.keydownListeners == old(page.keydownListeners) + [SearchEscapeListener]
      ensures !(SearchInput in old(page.inputs) && MiddlePane in page.panes) ==>
        items == old(items) && page.inputs == old(page.inputs) && page.keydownListeners == old(page.keydownListeners)
    {
      if SearchInput in page.inputs && MiddlePane in page.panes {
        InitializeSearchableItems(page);
        page.AddListener(SearchInput, SearchInputListener);
        page.AddListener(SearchInput, SearchKeydownListener);
        assert old(page.inputs)[SearchInput].listeners + [SearchInputListener] + [SearchKeydownListener]
          == old(page.inputs)[SearchInput].listeners + [SearchInputListener, SearchKeydownListener];
        page.keydownListeners := page.keydownListeners + [SearchEscapeListener];
      }
    }

    /** `initializeSearchableItems`: goes through the column sets and pushes an item for each searchable one. */
    method InitializeSearchableItems(page: Page)
      modifies this
      ensures items == Searchable(page.columnSets) && Valid(page)
    {
      var sets := page.columnSets;
      items := [];
      var i := 0;
      while i < |sets|
        invariant 0 <= i <= |sets|
        invariant items == Searchable(sets[..i])
      {
        assert sets[..i + 1][..i] == sets[..i];
        if IsSearchable(sets[i]) {
          items := items + [ItemOf(sets[i], i)];
        }
        i := i + 1;
      }
      assert sets[..i] == sets;
      SearchableSound(sets);
    }

    /** `handleSearch`: an empty trimmed query clears the search, any other one filters. */
    method HandleSearch(page: Page) returns (matchCount: Option<nat>)
      requires Valid(page) && SearchInput in page.inputs
      modifies page`columnSets, page`summary, page`inputs
      ensures Valid(page)
      ensures Query(old(page.inputs)[SearchInput].value) == "" ==>
        matchCount == None && Cleared(old(page.columnSets), page) && page.inputs == old(page.inputs)[SearchInput := old(page.inputs)[SearchInput].(value := "")]
      ensures Query(old(page.inputs)[SearchInput].value) != "" ==>
        && page.inputs == old(page.inputs)
        && matchCount == Some(CountMatches(items, Query(old(page.inputs)[SearchInput].value)))
        && Filtered(old(page.columnSets), page, Query(old(page.inputs)[SearchInput].value))
    {
      var query := Query(page.inputs[SearchInput].value);
      if query == "" {
        ClearSearch(page);
        matchCount := None;
        return;
      }
      var n := SearchAndFilter(page, query);
      matchCount := Some(n);
    }

    /** The page after `searchAndFilter(query)`: item column sets filtered, the rest untouched, the summary showing the count. */
    predicate Filtered(sets0: seq<ColumnSet>, page: Page, query: string)
      reads this, page
      requires ItemsFit(items, sets0)
    {
      PassedUpTo(sets0, page.columnSets, items, |items|, FilterPass(query))
      && page.summary == Some(Summary(query, CountMatches(items, query)))
    }

    /** The page after `clearSearch`: item column sets restored, the rest untouched, the input emptied, no summary. */
    predicate Cleared(sets0: seq<ColumnSet>, page: Page)
      reads this, page
      requires ItemsFit(items, sets0)
    {
      PassedUpTo(sets0, page.columnSets, items, |items|, ClearPass)
      && page.summary == None
      && SearchInput in page.inputs && page.inputs[SearchInput].value == ""
    }

    /**
     * `searchAndFilter(query)`: every item is shown and highlighted when it
     * matches and hidden otherwise, and `matchCount` is the number of matches,
     * which the summary reports.
     */
    method SearchAndFilter(page: Page, query: string) returns (matchCount: nat)
      requires Valid(page)
      modifies page`columnSets, page`summary
      ensures Valid(page)
      ensures matchCount == CountMatches(items, query)
      ensures Filtered(old(page.columnSets), page, query)
    {
      ghost var sets0 := page.columnSets;
      ghost var flags := MatchFlags(items, query);
      ghost var seen: seq<bool> := [];
      PassedNone(sets0, items, FilterPass(query));
      matchCount := 0;
      var k := 0;
      while k < |items|
        invariant 0 <= k <= |items|
        invariant seen == flags[..k] && matchCount == CountTrue(seen)
        invariant PassedUpTo(sets0, page.columnSets, items, k, FilterPass(query))
      {
        var matched := FilterAt(page, k, query, sets0);
        PrefixStep(flags, k);
        CountTrueAppend(seen, matched);
        seen := seen + [matched];
        if matched {
          matchCount := matchCount + 1;
        }
        k := k + 1;
      }
      PrefixWhole(flags);
      PassedFits(sets0, page.columnSets, items, k, FilterPass(query));
      page.summary := Some(Summary(query, matchCount));
    }

    /** The body of the `searchAndFilter` loop for item `k`: filters its column set and says whether it matched. */
    method FilterAt(page: Page, k: nat, query: string, ghost sets0: seq<ColumnSet>) returns (matched: bool)
      requires ItemsFit(items, sets0) && k < |items| && PassedUpTo(sets0, page.columnSets, items, k, FilterPass(query))
      modifies page`columnSets
      ensures matched == MatchFlags(items, query)[k]
      ensures PassedUpTo(sets0, page.columnSets, items, k + 1, FilterPass(query))
    {
      var it := items[k];
      PassedStep(sets0, page.columnSets, items, k, FilterPass(query));
      matched := HasMatch(it, query);
      page.columnSets := page.columnSets[it.index := FilterOne(page.columnSets[it.index], it, query)];
    }

    /** `clearSearch`: the input is emptied, every item restored and the summary removed. */
    method ClearSearch(page: Page)
      requires Valid(page) && SearchInput in page.inputs
      modifies page`columnSets, page`summary, page`inputs
      ensures Valid(page)
      ensures Cleared(old(page.columnSets), page)
      ensures page.inputs == old(page.inputs)[SearchInput := old(page.inputs)[SearchInput].(value := "")]
    {
      page.inputs := page.inputs[SearchInput := page.inputs[SearchInput].(value := "")];
      ghost var sets0 := page.columnSets;
      PassedNone(sets0, items, ClearPass);
      var k := 0;
      while k < |items|
        invariant 0 <= k <= |items|
        invariant page.inputs == old(page.inputs)[SearchInput := old(page.inputs)[SearchInput].(value := "")]
        invariant PassedUpTo(sets0, page.columnSets, items, k, ClearPass)
      {
        var it := items[k];
        PassedStep(sets0, page.columnSets, items, k, ClearPass);
        page.columnSets := page.columnSets[it.index := ClearOne(page.columnSets[it.index], it)];
        k := k + 1;
      }
      PassedFits(sets0, page.columnSets, items, k, ClearPass);
      page.summary := None;
    }

    /** `focusFirstResult`: the first item, in item order, whose column set is not hidden. */
    method FocusFirstResult(page: Page) returns (first: Option<nat>)
      requires Valid(page)
      ensures first.Some? ==> first.value < |items| && page.columnSets[items[first.value].index].display != Hidden
      ensures first.Some? ==> forall k :: 0 <= k < first.value ==> page.columnSets[items[k].index].display == Hidden
      ensures first.None? ==> forall k :: 0 <= k < |items| ==> page.columnSets[items[k].index].display == Hidden
    {
      var k := 0;
      while k < |items|
        invariant 0 <= k <= |items|
        invariant forall j :: 0 <= j < k ==> page.columnSets[items[j].index].display == Hidden
      {
        if page.columnSets[items[k].index].display != Hidden {
          return Some(k);
        }
        k := k + 1;
      }
      return None;
    }

    /** `handleSearchKeydown`: Enter with a non-empty query goes to the first visible result. */
    method HandleSearchKeydown(page: Page, key: string) returns (focused: Option<nat>)
      requires Valid(page) && SearchInput in page.inputs
      ensures key != "Enter" || Query(page.inputs[SearchInput].value) == "" ==> focused == None
      ensures key == "Enter" && Query(page.inputs[SearchInput].value) != "" && focused.Some? ==>
        && focused.value < |items| && page.columnSets[items[focused.value].index].display != Hidden
        && forall k :: 0 <= k < focused.value ==> page.columnSets[items[k].index].display == Hidden
      ensures key == "Enter" && Query(page.inputs[SearchInput].value) != "" ==>
        (focused.None? <==> forall k :: 0 <= k < |items| ==> page.columnSets[items[k].index].display == Hidden)
    {
      focused := None;
      if key == "Enter" {
        var query := Query(page.inputs[SearchInput].value);
        if query != "" {
          focused := FocusFirstResult(page);
        }
      }
    }

    /** The document `keydown` listener of the search: Escape while the input has focus clears the search. */
    method OnEscape(page: Page, key: string)
      requires Valid(page) && SearchInput in page.inputs
      modifies page`columnSets, page`summary, page`inputs
      ensures Valid(page)
      ensures key == "Escape" && page.activeElement == Some(SearchInput) ==>
        Cleared(old(page.columnSets), page) && page.inputs == old(page.inputs)[SearchInput := old(page.inputs)[SearchInput].(value := "")]
      ensures !(key == "Escape" && page.activeElement == Some(SearchInput)) ==>
        page.columnSets == old(page.columnSets) && page.summary == old(page.summary) && page.inputs == old(page.inputs)
    {
      if key == "Escape" && page.activeElement == Some(SearchInput) {
        ClearSearch(page);
      }
    }

    /** `enhancedFocusSearch`: focuses the input and, when it holds a query, clears the previous search. */
    method EnhancedFocusSearch(page: Page)
      requires Valid(page) && SearchInput in page.inputs
      modifies page`columnSets, page`summary, page`inputs, page`activeElement
      ensures page.activeElement == Some(SearchInput) && Valid(page)
      ensures Trim(old(page.inputs)[SearchInput].value) != "" ==>
        Cleared(old(page.columnSets), page) && page.inputs == old(page.inputs)[SearchInput := old(page.inputs)[SearchInput].(value := "")]
      ensures Trim(old(page.inputs)[SearchInput].value) == "" ==>
        page.columnSets == old(page.columnSets) && page.summary == old(page.summary) && page.inputs == old(page.inputs)
    {
      page.activeElement := Some(SearchInput);
      if Trim(page.inputs[SearchInput].value) != "" {
        ClearSearch(page);
      }
    }
  }
}
