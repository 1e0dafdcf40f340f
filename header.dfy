/**
 * The site header: its reaction to window scroll events (the "scrolled"
 * styling and the hide-on-scroll-down slide) and the mobile menu with the
 * body scroll lock that follows it. Scroll positions are `real`, as
 * `window.scrollY` is a floating-point number of pixels.
 */
module Header {

  /** Classes the header element is rendered with. */
  const BaseClasses: set<string> :=
    {"fixed", "top-0", "left-0", "right-0", "z-50", "transition-all", "duration-300"}

  /** Classes added while the page is scrolled past the styling threshold. */
  const ScrolledClasses: set<string> :=
    {"bg-white/90", "dark:bg-gray-900/90", "shadow-md", "backdrop-blur-md"}

  /** The `yPercent` the header slides to when it hides (shown is 0). */
  const HiddenYPercent: int := -100

  const LockedOverflow: string := "hidden"

  /** The scrolled styling applies strictly above 50 pixels. */
  predicate IsScrolled(y: real) {
    y > 50.0
  }

  /** The header hides when the page moved down and is strictly above 100 pixels. */
  predicate ShouldHide(current: real, last: real) {
    current > last && current > 100.0
  }

  /** The value `document.body.style.overflow` is given for a menu state. */
  function OverflowFor(open: bool): string {
    if open then LockedOverflow else ""
  }

  /** What the scroll handler decides, seen from outside. */
  datatype ScrollLook = ScrollLook(lastScrollY: real, scrolled: bool, hidden: bool)

  /** One scroll event observed at position `current`. */
  function OnScroll(s: ScrollLook, current: real): (r: ScrollLook)
    ensures r.lastScrollY == current
    ensures r.hidden ==> r.scrolled
    ensures r.hidden ==> current > s.lastScrollY
    ensures current <= 100.0 ==> !r.hidden
  {
    ScrollLook(current, IsScrolled(current), ShouldHide(current, s.lastScrollY))
  }

  /** A sequence of scroll events, oldest first. */
  function Replay(s: ScrollLook, ys: seq<real>): (r: ScrollLook)
    ensures ys == [] ==> r == s
    ensures ys != [] ==> r.lastScrollY == ys[|ys| - 1]
    decreases |ys|
  {
    if ys == [] then s else Replay(OnScroll(s, ys[0]), ys[1..])
  }

  /** The position remembered before the last of `ys` was observed. */
  function PositionBeforeLast(initial: real, ys: seq<real>): real
    requires ys != []
  {
    if |ys| == 1 then initial else ys[|ys| - 2]
  }

  /**
   * After any non-empty run of scroll events the header reflects only the
   * last two positions: `lastScrollY` is the last one, the styling depends
   * on it alone and the header is hidden exactly when it moved down from
   * the one before and is above 100.
   */
  lemma {:induction false} ReplayReflectsLastEvent(s: ScrollLook, ys: seq<real>)
    requires ys != []
    ensures Replay(s, ys).lastScrollY == ys[|ys| - 1]
    ensures Replay(s, ys).scrolled == IsScrolled(ys[|ys| - 1])
    ensures Replay(s, ys).hidden == ShouldHide(ys[|ys| - 1], PositionBeforeLast(s.lastScrollY, ys))
    decreases |ys|
  {
    if |ys| > 1 {
      var rest := ys[1..];
      ReplayReflectsLastEvent(OnScroll(s, ys[0]), rest);
      assert rest[|rest| - 1] == ys[|ys| - 1];
      if |rest| > 1 {
        assert rest[|rest| - 2] == ys[|ys| - 2];
      }
    }
  }

  class SiteHeader {
    /** The closure variable of the scroll handler. */
    var lastScrollY: real
    /** The header element's class list. */
    var classes: set<string>
    /** The `yPercent` of the most recent slide tween. */
    var yPercent: int
    var mobileMenuOpen: bool
    /** `document.body.style.overflow`. */
    var bodyOverflow: string

    ghost predicate Valid()
      reads this
    {
      && BaseClasses <= classes
      && (ScrolledClasses <= classes || ScrolledClasses !! classes)
      && (yPercent == 0 || yPercent == HiddenYPercent)
      && bodyOverflow == OverflowFor(mobileMenuOpen)
    }

    ghost function Look(): ScrollLook
      reads this
    {
      ScrollLook(lastScrollY, ScrolledClasses <= classes, yPercent == HiddenYPercent)
    }

    /** Mounting: the handler starts from the scroll position at mount time. */
    constructor (initialScrollY: real)
      ensures Valid()
      ensures lastScrollY == initialScrollY && classes == BaseClasses && yPercent == 0
      ensures !mobileMenuOpen && bodyOverflow == ""
    {
      lastScrollY := initialScrollY;
      classes := BaseClasses;
      yPercent := 0;
      mobileMenuOpen := false;
      bodyOverflow := OverflowFor(false);
    }

    /** The window scroll listener. */
    method HandleScroll(currentScrollY: real)
      requires Valid()
      modifies this
      ensures Valid()
      ensures Look() == OnScroll(old(Look()), currentScrollY)
      ensures lastScrollY == currentScrollY
      ensures IsScrolled(currentScrollY) ==> ScrolledClasses <= classes
      ensures !IsScrolled(currentScrollY) ==> ScrolledClasses !! classes
      ensures classes - ScrolledClasses == old(classes) - ScrolledClasses
      ensures yPercent == if ShouldHide(currentScrollY, old(lastScrollY)) then HiddenYPercent else 0
      ensures currentScrollY <= 100.0 || currentScrollY <= old(lastScrollY) ==> yPercent == 0
      ensures mobileMenuOpen == old(mobileMenuOpen) && bodyOverflow == old(bodyOverflow)
    {
      if IsScrolled(currentScrollY) {
        classes := classes + ScrolledClasses;
      } else {
        classes := classes - ScrolledClasses;
      }
      if ShouldHide(currentScrollY, lastScrollY) {
        yPercent := HiddenYPercent;
      } else {
        yPercent := 0;
      }
      lastScrollY := currentScrollY;
    }

    /**
     * `setMobileMenuOpen(open)`: setting the same value does not re-render,
     * so the menu effect runs only when the flag changes.
     */
    method SetMobileMenuOpen(open: bool)
      requires Valid()
      modifies this
      ensures Valid()
      ensures mobileMenuOpen == open
      ensures bodyOverflow == OverflowFor(open)
      ensures old(mobileMenuOpen) == open ==> unchanged(this)
      ensures lastScrollY == old(lastScrollY) && classes == old(classes) && yPercent == old(yPercent)
    {
      if mobileMenuOpen != open {
        mobileMenuOpen := open;
        MenuEffect();
      }
    }

    /** The effect that runs after the menu flag changed. */
    method MenuEffect()
      modifies this`bodyOverflow
      ensures bodyOverflow == OverflowFor(mobileMenuOpen)
    {
      if mobileMenuOpen {
        bodyOverflow := LockedOverflow;
      } else {
        bodyOverflow := "";
      }
    }

    /** The "Open menu" button. */
    method OpenMenu()
      requires Valid()
      modifies this
      ensures Valid()
      ensures mobileMenuOpen && bodyOverflow == LockedOverflow
      ensures old(mobileMenuOpen) ==> unchanged(this)
      ensures lastScrollY == old(lastScrollY) && classes == old(classes) && yPercent == old(yPercent)
    {
      SetMobileMenuOpen(true);
    }

    /** The "Close menu" button. */
    method CloseMenu()
      requires Valid()
      modifies this
      ensures Valid()
      ensures !mobileMenuOpen && bodyOverflow == ""
      ensures !old(mobileMenuOpen) ==> unchanged(this)
      ensures lastScrollY == old(lastScrollY) && classes == old(classes) && yPercent == old(yPercent)
    {
      SetMobileMenuOpen(false);
    }

    /** A navigation link, in the desktop bar or in the mobile menu. */
    method HandleNavClick(target: string)
      requires Valid()
      modifies this
      ensures Valid()
      ensures !mobileMenuOpen && bodyOverflow == ""
      ensures lastScrollY == old(lastScrollY) && classes == old(classes) && yPercent == old(yPercent)
    {
      SetMobileMenuOpen(false);
    }
  }
}
