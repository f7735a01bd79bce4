/**
 * The About section's behaviour (JS/MainPage/aboutPage.js): a one-shot lazy
 * image swap and card fade-in guarded by the section's `inited` flag, focus on
 * the avatar wrapper on every enter, blur on leave, and the fallback that runs
 * the one-shot part at load when no `SiteTabs` registry exists.
 *
 * The section's DOM is abstracted to the few attributes these handlers read and
 * write; document focus is reduced to which of three places holds it.
 */
module About {
  import opened Wrappers
  import Tabs

  /** The id the About section is looked up and registered under. */
  const AboutId: string := "section2"

  /** The avatar `img`: its `src` and its `data-src` attribute (absent = `None`). */
  datatype Img = Img(src: string, dataSrc: Option<string>)

  /** The inline `opacity` and `transform` of the profile card ("" = unset). */
  datatype Card = Card(opacity: string, transform: string)

  /** Where document focus is: nowhere in particular, on the avatar wrapper, or
      on some other element. */
  datatype Focus = Body | AvatarWrapper | Elsewhere

  /** The card's style once the animation frame has run. */
  const FadedIn: Card := Card("1", "translateY(0)")

  /** A deferred source is waiting: `data-src` is truthy (present and non-empty)
      and differs from `src`. */
  predicate Pending(img: Img)
  {
    img.dataSrc.Some? && img.dataSrc.value != "" && img.dataSrc.value != img.src
  }

  /** `ensureAvatarLoaded` on an image: a waiting deferred source replaces `src`
      and its attribute is removed; any other image is left alone. */
  function Loaded(img: Img): (r: Img)
    ensures !Pending(r)
    ensures r == img || (r.dataSrc == None && Some(r.src) == img.dataSrc)
    ensures !Pending(img) <==> r == img
  {
    if Pending(img) then Img(img.dataSrc.value, None) else img
  }

  /** Loading the avatar twice is the same as loading it once. */
  lemma LoadedIdempotent(img: Img)
    ensures Loaded(Loaded(img)) == Loaded(img)
  {
  }

  /** The starting style `fadeInCard` commits before the frame: a pre-set
      opacity or transform is kept, an unset one starts at 0 or 6px down. */
  function FadeStart(c: Card): (r: Card)
    ensures r.opacity != "" && r.transform != ""
    ensures c.opacity != "" ==> r.opacity == c.opacity
    ensures c.transform != "" ==> r.transform == c.transform
    ensures c.opacity == "" ==> r.opacity == "0"
    ensures c.transform == "" ==> r.transform == "translateY(6px)"
  {
    Card(if c.opacity == "" then "0" else c.opacity,
         if c.transform == "" then "translateY(6px)" else c.transform)
  }

  /** The About section of a page that has one. */
  class AboutSection {
    /** Is there a `.profile-card`? */
    const hasCard: bool
    /** Is there an `img` inside `.profile-avatar`? */
    const hasImg: bool
    /** Is there a `.profile-avatar` wrapper? */
    const hasWrapper: bool

    /** `dataset.inited` of the section element. */
    var inited: bool
    var style: Card
    var img: Img
    var focus: Focus
    /** Animation-frame callbacks scheduled and not yet run. */
    var pendingFrames: nat

    /** Whether the section's handlers went into the registry at load. */
    ghost var registered: bool
    /** How many times the one-shot part (image swap and fade-in) has run. */
    ghost var initRuns: nat

    /** The one-shot part runs at most once; with the handlers registered it has
        run exactly when `inited` is set, and without them `inited` is never set. */
    ghost predicate Valid()
      reads this
    {
      && (pendingFrames > 0 ==> hasCard)
      && (focus == AvatarWrapper ==> hasWrapper)
      && initRuns <= 1
      && (registered ==> initRuns == if inited then 1 else 0)
      && (!registered ==> !inited)
    }

    /** The section as the page delivers it, before any script has run. */
    constructor (hasCard: bool, style: Card, hasImg: bool, img: Img, hasWrapper: bool, focus: Focus)
      requires focus == AvatarWrapper ==> hasWrapper
      ensures Valid()
      ensures this.hasCard == hasCard && this.style == style
      ensures this.hasImg == hasImg && this.img == img
      ensures this.hasWrapper == hasWrapper && this.focus == focus
      ensures !inited && pendingFrames == 0 && !registered && initRuns == 0
    {
      this.hasCard := hasCard;
      this.style := style;
      this.hasImg := hasImg;
      this.img := img;
      this.hasWrapper := hasWrapper;
      this.focus := focus;
      inited := false;
      pendingFrames := 0;
      registered := false;
      initRuns := 0;
    }

    /** `ensureAvatarLoaded`. */
    method EnsureAvatarLoaded()
      modifies this`img
      ensures img == if hasImg then Loaded(old(img)) else old(img)
    {
      if !hasImg {
        return;
      }
      var dataSrc := img.dataSrc;
      if dataSrc.Some? && dataSrc.value != "" && img.src != dataSrc.value {
        img := Img(dataSrc.value, None);
      }
    }

    /** `fadeInCard`: commits the starting style and schedules one frame. */
    method FadeInCard()
      requires Valid()
      modifies this`style, this`pendingFrames
      ensures Valid()
      ensures style == if hasCard then FadeStart(old(style)) else old(style)
      ensures pendingFrames == old(pendingFrames) + if hasCard then 1 else 0
    {
      if !hasCard {
        return;
      }
      style := FadeStart(style);
      pendingFrames := pendingFrames + 1;
    }

    /** The scheduled frame callback, when the platform runs it. */
    method RunFrame()
      requires Valid() && pendingFrames > 0
      modifies this`style, this`pendingFrames
      ensures Valid()
      ensures style == FadedIn && pendingFrames == old(pendingFrames) - 1
    {
      style := FadedIn;
      pendingFrames := pendingFrames - 1;
    }

    /** `focusAvatar`. */
    method FocusAvatar()
      requires Valid()
      modifies this`focus
      ensures Valid()
      ensures focus == if hasWrapper then AvatarWrapper else old(focus)
    {
      if hasWrapper {
        focus := AvatarWrapper;
      }
    }

    /** The registered `onEnter`: the one-shot part only while `inited` is unset,
        then the focus attempt on every call. */
    method OnEnter()
      requires Valid() && registered
      modifies this
      ensures Valid() && registered && inited && initRuns == 1
      ensures !old(inited) ==> img == (if hasImg then Loaded(old(img)) else old(img))
                               && style == (if hasCard then FadeStart(old(style)) else old(style))
                               && pendingFrames == old(pendingFrames) + (if hasCard then 1 else 0)
      ensures old(inited) ==> img == old(img) && style == old(style) && pendingFrames == old(pendingFrames)
      ensures focus == if hasWrapper then AvatarWrapper else old(focus)
    {
      if !inited {
        inited := true;
        initRuns := initRuns + 1;
        EnsureAvatarLoaded();
        FadeInCard();
      }
      FocusAvatar();
    }

    /** The registered `onLeave`: blurs the avatar wrapper only when it has focus. */
    method OnLeave()
      requires Valid()
      modifies this`focus
      ensures Valid()
      ensures focus == if old(focus) == AvatarWrapper then Body else old(focus)
    {
      if hasWrapper && focus == AvatarWrapper {
        focus := Body;
      }
    }
  }

  /** Entering the About section twice: the image swap and the fade-in happen
      on the first entry only, the focus attempt on both. */
  method EnterTwice(s: AboutSection)
    requires s.Valid() && s.registered && !s.inited
    modifies s
    ensures s.Valid() && s.inited && s.initRuns == 1
    ensures s.img == if s.hasImg then Loaded(old(s.img)) else old(s.img)
    ensures s.style == if s.hasCard then FadeStart(old(s.style)) else old(s.style)
    ensures s.pendingFrames == old(s.pendingFrames) + if s.hasCard then 1 else 0
    ensures s.focus == if s.hasWrapper then AvatarWrapper else old(s.focus)
  {
    s.OnEnter();
    s.OnEnter();
  }

  /** The About script's load handler. Without the section nothing happens; with
      a registry it registers both callbacks under `section2`; without one it
      runs the one-shot part once, registers nothing and leaves focus alone. */
  method Boot(section: AboutSection?, tabs: Tabs.SiteTabs?)
    requires section != null ==> section.Valid() && !section.registered && section.initRuns == 0
    requires tabs != null ==> tabs.Valid()
    modifies section, tabs
    ensures section == null ==> tabs != null ==> unchanged(tabs)
    ensures tabs != null ==> tabs.Valid()
    ensures section != null ==> section.Valid() && !section.inited && section.focus == old(section.focus)
    ensures section != null && tabs != null ==>
              && tabs.handlers == old(tabs.handlers)[AboutId := Tabs.Pair(true, true)]
              && tabs.Snapshot() == old(tabs.Snapshot())
              && section.registered && section.initRuns == 0
              && unchanged(section`img, section`style, section`pendingFrames)
    ensures section != null && tabs == null ==>
              && !section.registered && section.initRuns == 1
              && section.img == (if section.hasImg then Loaded(old(section.img)) else old(section.img))
              && section.style == (if section.hasCard then FadeStart(old(section.style)) else old(section.style))
              && section.pendingFrames == old(section.pendingFrames) + (if section.hasCard then 1 else 0)
  {
    if section == null {
      return;
    }
    if tabs != null {
      tabs.Register(AboutId, Tabs.Pair(true, true));
      section.registered := true;
    } else {
      section.EnsureAvatarLoaded();
      section.FadeInCard();
      section.initRuns := 1;
    }
  }
}
