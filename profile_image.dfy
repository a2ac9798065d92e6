/**
 * The profile-picture switch shared by the two themed toggles,
 * `switchToGoSkiingMode` (assets/js/go-skiing.js) and `switchToCoolMode`
 * (assets/js/david-cool.js). Both collect the candidate images (the
 * `.left-pane img`, then every `.author-profile img`, each kept only when its
 * `src` mentions the profile picture or the themed one) and rewrite each
 * candidate's `src` with a regular expression anchored at the end of the string.
 */
module ProfileImage {
  import opened Strings
  import opened Dom

  const ProfilePath := "/me/profile.jpg"

  /** A themed picture: the file name the scripts look for and the path that replaces the profile's. */
  datatype Theme = Theme(marker: string, path: string)

  const SkiingTheme := Theme("gone-skiing.png", "/gone-skiing.png")
  const CoolTheme := Theme("david-cool.png", "/me/david-cool.png")

  predicate KnownTheme(t: Theme)
  {
    t == SkiingTheme || t == CoolTheme
  }

  /** Whether an image is pushed onto `profileImages`. */
  predicate IsCandidate(src: string, t: Theme)
  {
    Contains(src, "profile.jpg") || Contains(src, t.marker)
  }

  /** The new `src` of a candidate image when the theme is switched on or off. */
  function ThemedSrc(src: string, t: Theme, on: bool): string
  {
    if on then
      if Contains(src, "profile.jpg") && !Contains(src, t.marker) then ReplaceSuffix(src, ProfilePath, t.path) else src
    else
      if Contains(src, t.marker) then ReplaceSuffix(src, t.path, ProfilePath) else src
  }

  lemma EndsWithProfileMentionsIt(src: string)
    requires EndsWith(src, ProfilePath)
    ensures Contains(src, "profile.jpg")
  {
    EndsWithOccurs(src, ProfilePath);
    assert ProfilePath == "/me/" + "profile.jpg";
    ContainsPart(src, "/me/", "profile.jpg");
  }

  lemma EndsWithThemeMentionsIt(src: string, t: Theme)
    requires KnownTheme(t) && EndsWith(src, t.path)
    ensures Contains(src, t.marker)
  {
    assert EndsWith(t.path, t.marker);
    EndsWithContainsTail(src, t.path, t.marker);
  }

  /** An image that is not a candidate keeps its `src` whichever way the theme is switched. */
  lemma NonCandidateUnchanged(src: string, t: Theme, on: bool)
    requires !IsCandidate(src, t)
    ensures ThemedSrc(src, t, on) == src
  {
  }

  /**
   * Switching on rewrites a trailing `/me/profile.jpg` to the themed path, and
   * only that: a `src` without that exact suffix, or one already mentioning the
   * themed picture, is left as it is.
   */
  lemma {:induction false} SwitchOnRewritesSuffix(src: string, t: Theme)
    requires KnownTheme(t)
    ensures ThemedSrc(src, t, true) ==
      if EndsWith(src, ProfilePath) && !Contains(src, t.marker)
      then src[..|src| - |ProfilePath|] + t.path
      else src
  {
    if EndsWith(src, ProfilePath) {
      EndsWithProfileMentionsIt(src);
    }
  }

  /** For a `src` ending in `/me/profile.jpg`, switching on and then off gives back the original. */
  lemma {:induction false} SwitchRoundTrip(src: string, t: Theme)
    requires KnownTheme(t) && EndsWith(src, ProfilePath)
    ensures ThemedSrc(ThemedSrc(src, t, true), t, false) == src
  {
    EndsWithProfileMentionsIt(src);
    if Contains(src, t.marker) {
      // Left unchanged by the switch on; the switch off finds no trailing themed path,
      // since `src` ends in "jpg" and the themed paths end in "png".
      assert src[|src| - 2] == 'p';
      assert t.path[|t.path| - 2] == 'n';
      assert !EndsWith(src, t.path);
    } else {
      ReplaceSuffixRoundTrip(src, ProfilePath, t.path);
      EndsWithThemeMentionsIt(ReplaceSuffix(src, ProfilePath, t.path), t);
    }
  }

  /** Every image, the left-pane one and each author image, carries the themed `src` of what it had. */
  predicate Switched(left0: Option<Image>, authors0: seq<string>, left: Option<Image>, authors: seq<string>, t: Theme, on: bool)
  {
    left.Some? == left0.Some?
    && (left.Some? ==> left.value == left0.value.(src := ThemedSrc(left0.value.src, t, on)))
    && |authors| == |authors0|
    && forall i :: 0 <= i < |authors| ==> authors[i] == ThemedSrc(authors0[i], t, on)
  }

  /** A reference to one element of the `profileImages` list. */
  datatype ImageRef = LeftPaneImage | AuthorImage(index: nat)

  /** The `forEach` body of the switch: rewrites the one image `r`. */
  method SwitchOne(page: Page, t: Theme, on: bool, r: ImageRef)
    requires r == LeftPaneImage ==> page.leftPaneImg.Some?
    requires r.AuthorImage? ==> r.index < |page.authorImgs|
    modifies page`leftPaneImg, page`authorImgs
    ensures r == LeftPaneImage ==>
      page.leftPaneImg == Some(old(page.leftPaneImg).value.(src := ThemedSrc(old(page.leftPaneImg).value.src, t, on)))
      && page.authorImgs == old(page.authorImgs)
    ensures r.AuthorImage? ==>
      page.authorImgs == old(page.authorImgs)[r.index := ThemedSrc(old(page.authorImgs)[r.index], t, on)]
      && page.leftPaneImg == old(page.leftPaneImg)
  {
    var src := if r == LeftPaneImage then page.leftPaneImg.value.src else page.authorImgs[r.index];
    var newSrc := src;
    if on {
      if Contains(src, "profile.jpg") && !Contains(src, t.marker) {
        newSrc := ReplaceSuffix(src, ProfilePath, t.path);
      }
    } else {
      if Contains(src, t.marker) {
        newSrc := ReplaceSuffix(src, t.path, ProfilePath);
      }
    }
    if r == LeftPaneImage {
      page.leftPaneImg := Some(page.leftPaneImg.value.(src := newSrc));
    } else {
      page.authorImgs := page.authorImgs[r.index := newSrc];
    }
  }

  /** The images of `profileImages` are distinct and each exists on the page. */
  predicate ValidRefs(refs: seq<ImageRef>, hasLeft: bool, n: nat)
  {
    (forall a, b :: 0 <= a < b < |refs| ==> refs[a] != refs[b])
    && (forall r :: r in refs ==> (r == LeftPaneImage ==> hasLeft) && (r.AuthorImage? ==> r.index < n))
  }

  /** The collection step: the left-pane image first, then the author images in document order, each when a candidate. */
  method CollectProfileImages(left: Option<Image>, authors: seq<string>, t: Theme) returns (profileImages: seq<ImageRef>)
    ensures ValidRefs(profileImages, left.Some?, |authors|)
    ensures LeftPaneImage in profileImages <==> left.Some? && IsCandidate(left.value.src, t)
    ensures forall j: nat :: AuthorImage(j) in profileImages <==> j < |authors| && IsCandidate(authors[j], t)
  {
    profileImages := [];
    if left.Some? && IsCandidate(left.value.src, t) {
      profileImages := profileImages + [LeftPaneImage];
    }
    var i := 0;
    while i < |authors|
      invariant 0 <= i <= |authors|
      invariant ValidRefs(profileImages, left.Some?, i)
      invariant LeftPaneImage in profileImages <==> left.Some? && IsCandidate(left.value.src, t)
      invariant forall j: nat :: AuthorImage(j) in profileImages <==> j < i && IsCandidate(authors[j], t)
    {
      if IsCandidate(authors[i], t) {
        profileImages := profileImages + [AuthorImage(i)];
      }
      i := i + 1;
    }
  }

  /** The `forEach` over `profileImages`: each listed image is rewritten once, every other one is kept. */
  method SwitchAll(page: Page, t: Theme, on: bool, profileImages: seq<ImageRef>)
    requires ValidRefs(profileImages, page.leftPaneImg.Some?, |page.authorImgs|)
    modifies page`leftPaneImg, page`authorImgs
    ensures page.leftPaneImg.Some? == old(page.leftPaneImg).Some?
    ensures page.leftPaneImg.Some? ==> (page.leftPaneImg.value ==
      if LeftPaneImage in profileImages
      then old(page.leftPaneImg).value.(src := ThemedSrc(old(page.leftPaneImg).value.src, t, on))
      else old(page.leftPaneImg).value)
    ensures |page.authorImgs| == |old(page.authorImgs)|
    ensures forall j :: 0 <= j < |page.authorImgs| ==> (page.authorImgs[j] ==
      if AuthorImage(j) in profileImages then ThemedSrc(old(page.authorImgs)[j], t, on) else old(page.authorImgs)[j])
  {
    var left0, authors0 := page.leftPaneImg, page.authorImgs;
    var n := |authors0|;
    var k := 0;
    while k < |profileImages|
      invariant 0 <= k <= |profileImages|
      invariant page.leftPaneImg.Some? == left0.Some? && |page.authorImgs| == n
      invariant page.leftPaneImg.Some? ==> (page.leftPaneImg.value ==
        if LeftPaneImage in profileImages[..k]
        then left0.value.(src := ThemedSrc(left0.value.src, t, on)) else left0.value)
      invariant forall j :: 0 <= j < n ==> (page.authorImgs[j] ==
        if AuthorImage(j) in profileImages[..k] then ThemedSrc(authors0[j], t, on) else authors0[j])
    {
      var r := profileImages[k];
      assert r in profileImages && r !in profileImages[..k];
      SwitchOne(page, t, on, r);
      assert profileImages[..k + 1] == profileImages[..k] + [r];
      k := k + 1;
    }
    assert profileImages[..k] == profileImages;
  }

  /**
   * Collects the candidate images into `profileImages` and rewrites each of
   * them in turn; in the end every image carries the themed `src`.
   */
  method SwitchProfileImages(page: Page, t: Theme, on: bool)
    modifies page`leftPaneImg, page`authorImgs
    ensures Switched(old(page.leftPaneImg), old(page.authorImgs), page.leftPaneImg, page.authorImgs, t, on)
  {
    var profileImages := CollectProfileImages(page.leftPaneImg, page.authorImgs, t);
    ghost var left0, authors0 := page.leftPaneImg, page.authorImgs;
    SwitchAll(page, t, on, profileImages);
    if left0.Some? && !IsCandidate(left0.value.src, t) {
      NonCandidateUnchanged(left0.value.src, t, on);
    }
    forall j | 0 <= j < |authors0| && !IsCandidate(authors0[j], t)
      ensures page.authorImgs[j] == ThemedSrc(authors0[j], t, on)
    {
      NonCandidateUnchanged(authors0[j], t, on);
    }
  }
}
