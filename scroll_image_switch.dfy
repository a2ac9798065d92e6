/**
 * assets/js/scroll-image-switch.js: once the window has scrolled more than 150
 * pixels the left-pane profile image becomes `a.png`; once it is back within
 * 150 pixels the image the stored mode calls for comes back (go-skiing before
 * cool before the plain profile picture).
 */
module ScrollImageSwitch {
  import opened Strings
  import opened Dom
  import PI = ProfileImage
  import TE = TemplateEngine

  /** Pixels scrolled before the image switches. */
  const Threshold := 150

  const ScrollImage := "assets/images/a.png"
  const ScrollMarker := "a.png"
  const SkiingImage := "assets/images/gone-skiing.png"
  const CoolImage := "assets/images/me/david-cool.png"
  const ProfileImage := "assets/images/me/profile.jpg"

  /** The image `switchBackToOriginal` restores for the stored modes. */
  function RestoredSrc(storage: map<string, string>): string
  {
    if StoredTrue(storage, SkiingKey) then SkiingImage
    else if StoredTrue(storage, CoolKey) then CoolImage
    else ProfileImage
  }

  /** `switchToScrollImage` on the image's `src`: unless it already shows `a.png`, it becomes `a.png`. */
  function AwaySrc(src: string): string
  {
    if Contains(src, ScrollMarker) then src else ScrollImage
  }

  /** `switchBackToOriginal` on the image's `src`: only an image showing `a.png` is restored. */
  function BackSrc(src: string, storage: map<string, string>): string
  {
    if Contains(src, ScrollMarker) then RestoredSrc(storage) else src
  }

  /** The scroll image carries the marker the two switches test for. */
  lemma ScrollImageMarked()
    ensures Contains(ScrollImage, ScrollMarker)
  {
    assert ScrollImage == "assets/images/" + ScrollMarker + "";
    OccursContains("assets/images/" + ScrollMarker + "", ScrollMarker, 14);
  }

  /**
   * None of the images switchBackToOriginal restores carries the marker, so the
   * next scroll away switches again.
   */
  lemma RestoredUnmarked(storage: map<string, string>)
    ensures !Contains(RestoredSrc(storage), ScrollMarker)
  {
    SkiingImageUnmarked();
    CoolImageUnmarked();
    ProfileImageUnmarked();
  }

  /** The directory all the images share does not hold `a.`. */
  lemma ImagesDirUnmarked()
    ensures LacksPairFrom("assets/images/", 'a', '.', 0)
  {
    LacksPairConcat("assets/", "images/", 'a', '.');
  }

  lemma SkiingImageUnmarked()
    ensures !Contains(SkiingImage, ScrollMarker)
  {
    ImagesDirUnmarked();
    LacksPairConcat("gone-", "skiing.png", 'a', '.');
    LacksPairConcat("assets/images/", "gone-skiing.png", 'a', '.');
    assert SkiingImage == "assets/images/" + "gone-skiing.png";
    LacksPairNotContains(SkiingImage, ScrollMarker);
  }

  lemma CoolImageUnmarked()
    ensures !Contains(CoolImage, ScrollMarker)
  {
    ImagesDirUnmarked();
    var me := "me/" + "david-";
    LacksPairConcat("me/", "david-", 'a', '.');
    LacksPairConcat(me, "cool.png", 'a', '.');
    LacksPairConcat("assets/images/", me + "cool.png", 'a', '.');
    assert CoolImage == "assets/images/" + (me + "cool.png");
    LacksPairNotContains(CoolImage, ScrollMarker);
  }

  lemma ProfileImageUnmarked()
    ensures !Contains(ProfileImage, ScrollMarker)
  {
    ImagesDirUnmarked();
    LacksPairConcat("me/", "profile.jpg", 'a', '.');
    LacksPairConcat("assets/images/", "me/profile.jpg", 'a', '.');
    assert ProfileImage == "assets/images/" + "me/profile.jpg";
    LacksPairNotContains(ProfileImage, ScrollMarker);
  }

  /** The scroll image does not mention `profile.jpg`. */
  lemma ScrollImageNotProfile()
    ensures !Contains(ScrollImage, "profile.jpg")
  {
    LacksPairConcat("assets/", "images/", 'p', 'r');
    LacksPairConcat("assets/" + "images/", "a.png", 'p', 'r');
    assert ScrollImage == "assets/" + "images/" + "a.png";
    LacksPairNotContains(ScrollImage, "profile.jpg");
  }

  /** The scroll image does not mention `gone-skiing.png`. */
  lemma ScrollImageNotSkiing()
    ensures !Contains(ScrollImage, PI.SkiingTheme.marker)
  {
    LacksPairConcat("assets/", "images/", 'g', 'o');
    LacksPairConcat("assets/" + "images/", "a.png", 'g', 'o');
    assert ScrollImage == "assets/" + "images/" + "a.png";
    LacksPairNotContains(ScrollImage, PI.SkiingTheme.marker);
  }

  /** The scroll image does not mention `david-cool.png`. */
  lemma ScrollImageNotCool()
    ensures !Contains(ScrollImage, PI.CoolTheme.marker)
  {
    LacksPairConcat("assets/", "images/", 'd', 'a');
    LacksPairConcat("assets/" + "images/", "a.png", 'd', 'a');
    assert ScrollImage == "assets/" + "images/" + "a.png";
    LacksPairNotContains(ScrollImage, PI.CoolTheme.marker);
  }

  /**
   * The other writers of the left-pane image, the picture switches of the
   * themed modes (ProfileImage.ThemedSrc, and the engine's EngineThemedSrc),
   * leave the scroll image as it is: it mentions neither `profile.jpg` nor a
   * theme's file name. So what the switch wrote while scrolled away still
   * carries the marker after a mode change.
   */
  lemma ScrollImageSurvivesPictureSwitch(t: PI.Theme, on: bool)
    requires PI.KnownTheme(t)
    ensures PI.ThemedSrc(ScrollImage, t, on) == ScrollImage
    ensures TE.EngineThemedSrc(ScrollImage, t, on) == ScrollImage
    ensures Contains(PI.ThemedSrc(ScrollImage, t, on), ScrollMarker)
  {
    ScrollImageNotProfile();
    ScrollImageNotSkiing();
    ScrollImageNotCool();
    ScrollImageMarked();
  }

  /**
   * Scrolling away and back: whatever the image showed first, away it shows
   * the scroll image's marker, and back it shows exactly the image the stored
   * modes call for (the `originalSrc` the script saves plays no part).
   */
  lemma AwayThenBack(src: string, storage: map<string, string>)
    ensures Contains(AwaySrc(src), ScrollMarker)
    ensures BackSrc(AwaySrc(src), storage) == RestoredSrc(storage)
    ensures !Contains(BackSrc(AwaySrc(src), storage), ScrollMarker)
    ensures AwaySrc(BackSrc(AwaySrc(src), storage)) == ScrollImage
  {
    ScrollImageMarked();
    RestoredUnmarked(storage);
  }

  /** Each switch is idempotent: repeating it changes nothing. */
  lemma SwitchesIdempotent(src: string, storage: map<string, string>)
    ensures AwaySrc(AwaySrc(src)) == AwaySrc(src)
    ensures BackSrc(BackSrc(src, storage), storage) == BackSrc(src, storage)
  {
    ScrollImageMarked();
    RestoredUnmarked(storage);
  }

  /** The state the script's `DOMContentLoaded` closure keeps. */
  class ScrollSwitch {
    var originalSrc: Option<string>
    var isScrolledAway: bool

    constructor()
      ensures originalSrc == None && !isScrolledAway
    {
      originalSrc := None;
      isScrolledAway := false;
    }

    /** The image agrees with the flag: while scrolled away, it shows the marker. */
    predicate Valid(page: Page)
      reads this, page
    {
      isScrolledAway && page.leftPaneImg.Some? ==> Contains(page.leftPaneImg.value.src, ScrollMarker)
    }

    /** The load handler: with a left-pane image, its `src` is saved and the scroll listener attached. */
    method OnLoad(page: Page)
      modifies this`originalSrc, page`windowListeners
      ensures page.leftPaneImg.Some? ==>
        originalSrc == Some(page.leftPaneImg.value.src) && page.windowListeners == old(page.windowListeners) + [ScrollImageListener]
      ensures page.leftPaneImg.None? ==>
        originalSrc == old(originalSrc) && page.windowListeners == old(page.windowListeners)
    {
      if page.leftPaneImg.Some? {
        originalSrc := Some(page.leftPaneImg.value.src);
        page.windowListeners := page.windowListeners + [ScrollImageListener];
      }
    }

    method SwitchToScrollImage(page: Page)
      modifies page`leftPaneImg
      ensures page.leftPaneImg == if old(page.leftPaneImg).Some?
        then Some(old(page.leftPaneImg).value.(src := AwaySrc(old(page.leftPaneImg).value.src))) else None
    {
      if page.leftPaneImg.Some? && !Contains(page.leftPaneImg.value.src, ScrollMarker) {
        page.leftPaneImg := Some(page.leftPaneImg.value.(src := ScrollImage));
      }
    }

    method SwitchBackToOriginal(page: Page)
      modifies page`leftPaneImg
      ensures page.leftPaneImg == if old(page.leftPaneImg).Some?
        then Some(old(page.leftPaneImg).value.(src := BackSrc(old(page.leftPaneImg).value.src, page.storage))) else None
    {
      if page.leftPaneImg.Some? && Contains(page.leftPaneImg.value.src, ScrollMarker) {
        var goSkiingActive := StoredTrue(page.storage, SkiingKey);
        var coolModeActive := StoredTrue(page.storage, CoolKey);
        var src;
        if goSkiingActive {
          src := SkiingImage;
        } else if coolModeActive {
          src := CoolImage;
        } else {
          src := ProfileImage;
        }
        page.leftPaneImg := Some(page.leftPaneImg.value.(src := src));
      }
    }

    /**
     * The scroll listener at `window.scrollY == y`. Afterwards the flag says
     * whether the window is past the threshold; the image switches only when
     * the flag flips, and the image agrees with the flag.
     */
    method OnScroll(page: Page, y: int)
      requires Valid(page)
      modifies this`isScrolledAway, page`leftPaneImg
      ensures isScrolledAway == (y > Threshold)
      ensures Valid(page)
      ensures page.leftPaneImg.Some? == old(page.leftPaneImg).Some?
      ensures y > Threshold && !old(isScrolledAway) && page.leftPaneImg.Some? ==>
        page.leftPaneImg.value.src == AwaySrc(old(page.leftPaneImg).value.src)
      ensures y <= Threshold && old(isScrolledAway) && page.leftPaneImg.Some? ==>
        page.leftPaneImg.value.src == RestoredSrc(page.storage)
      ensures (y > Threshold) == old(isScrolledAway) ==> page.leftPaneImg == old(page.leftPaneImg)
    {
      if y > Threshold && !isScrolledAway {
        isScrolledAway := true;
        SwitchToScrollImage(page);
        if page.leftPaneImg.Some? {
          AwayThenBack(old(page.leftPaneImg).value.src, page.storage);
        }
      } else if y <= Threshold && isScrolledAway {
        isScrolledAway := false;
        SwitchBackToOriginal(page);
      }
    }
  }
}
