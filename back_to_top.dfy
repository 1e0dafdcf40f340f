/**
 * The back-to-top button: a visibility flag set by the window scroll
 * listener from the current scroll position alone.
 */
module BackToTop {

  /** The button shows once the page is scrolled strictly past 500 pixels. */
  predicate Visible(scrollY: real) {
    scrollY > 500.0
  }

  /** The display class of the button. */
  function DisplayClass(isVisible: bool): (c: string)
    ensures c == "flex" || c == "hidden"
    ensures c == "flex" <==> isVisible
  {
    if isVisible then "flex" else "hidden"
  }

  /** The flag after a run of scroll events, oldest first. */
  function VisibilityAfter(isVisible: bool, ys: seq<real>): (r: bool)
    ensures ys == [] ==> r == isVisible
    ensures |ys| == 1 ==> r == Visible(ys[0])
    decreases |ys|
  {
    if ys == [] then isVisible else VisibilityAfter(Visible(ys[0]), ys[1..])
  }

  /**
   * The flag depends on no history: after any non-empty run of scroll
   * events it is the rule applied to the last position.
   */
  lemma {:induction false} VisibilityIsLastPosition(isVisible: bool, ys: seq<real>)
    requires ys != []
    ensures VisibilityAfter(isVisible, ys) == Visible(ys[|ys| - 1])
    decreases |ys|
  {
    if |ys| > 1 {
      VisibilityIsLastPosition(Visible(ys[0]), ys[1..]);
      assert ys[1..][|ys[1..]| - 1] == ys[|ys| - 1];
    }
  }

  /** Observing a position again, however often, changes nothing. */
  lemma {:induction false} RepeatedPositionIsIdempotent(isVisible: bool, ys: seq<real>, y: real, n: nat)
    requires ys != [] && ys[|ys| - 1] == y
    ensures VisibilityAfter(isVisible, ys + seq(n, _ => y)) == VisibilityAfter(isVisible, ys)
  {
    var longer := ys + seq(n, _ => y);
    VisibilityIsLastPosition(isVisible, ys);
    VisibilityIsLastPosition(isVisible, longer);
    assert longer[|longer| - 1] == y;
  }

  class BackToTopButton {
    var isVisible: bool

    constructor ()
      ensures !isVisible
    {
      isVisible := false;
    }

    /** The rendered display class. */
    function ClassName(): (c: string)
      reads this
      ensures c == "flex" <==> isVisible
      ensures c == "hidden" <==> !isVisible
    {
      DisplayClass(isVisible)
    }

    /** The window scroll listener. */
    method HandleScroll(scrollY: real)
      modifies this
      ensures isVisible <==> scrollY > 500.0
      ensures isVisible == VisibilityAfter(old(isVisible), [scrollY])
    {
      if Visible(scrollY) {
        isVisible := true;
      } else {
        isVisible := false;
      }
    }
  }
}
