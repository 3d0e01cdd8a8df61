/**
 * View navigation: the index of the current view, the next and back
 * buttons that change it, and `updateView`, which derives from it which view
 * is shown, how the two buttons look, and how their container is aligned.
 */
module Navigation {
  import opened Wrappers

  /** Indices into `views`: the landing view, the simple view, the English view. */
  const Landing: int := 0
  const Simple: int := 1
  const English: int := 2
  /** Number of entries of `views`. */
  const ViewCount: int := 3

  /** Text of the back button in the two views that show it. */
  const BackText: string := "Back to the full glamorous tree"

  /** One button's entry of `buttonConfig`. */
  datatype ButtonSpec = ButtonSpec(text: string, show: bool)

  /** One view's entry of `buttonConfig`; a missing button is `null` in the source. */
  datatype ViewConfig = ViewConfig(back: Option<ButtonSpec>, next: Option<ButtonSpec>)

  /** `buttonConfig[v]`: defined for the three view indices only. */
  function ButtonConfig(v: int): (r: Option<ViewConfig>)
    ensures r.Some? <==> 0 <= v < ViewCount
    ensures r.Some? ==> (r.value.back.None? <==> v == Landing)
    ensures r.Some? && r.value.back.Some? ==> r.value.back.value == ButtonSpec(BackText, true)
    ensures r.Some? ==> r.value.next.Some? && r.value.next.value.show
  {
    if v == Landing then Some(ViewConfig(None, Some(ButtonSpec("Simplified", true))))
    else if v == Simple then Some(ViewConfig(Some(ButtonSpec(BackText, true)), Some(ButtonSpec("English", true))))
    else if v == English then Some(ViewConfig(Some(ButtonSpec(BackText, true)), Some(ButtonSpec("Latin", true))))
    else None
  }

  /**
   * The next button's effect on `currentView`. From any of the three views
   * it moves to a different view and never to the landing view; any other
   * value is left as it is.
   */
  function NextView(v: int): (r: int)
    ensures 0 <= v < ViewCount ==> r != v && r != Landing && 0 <= r < ViewCount
    ensures !(0 <= v < ViewCount) ==> r == v
  {
    if v == Landing then Simple
    else if v == Simple then English
    else if v == English then Simple
    else v
  }

  /** The parts of the page that `updateView` writes. */
  datatype Controls = Controls(
    viewHidden: seq<bool>,  // the `hidden` class of each view, by index into `views`
    backHidden: bool,
    backText: string,
    nextHidden: bool,
    nextText: string,
    spaceBetween: bool,     // the `space-between` class of the button container
    leftAlign: bool)        // the `left-align` class of the button container

  /**
   * The controls show view `v`: exactly that view is un-hidden, the back
   * button is hidden only on the landing view, the next button is always
   * shown and names the view it leads to, and the buttons are spread apart
   * exactly off the landing view.
   */
  predicate Displays(c: Controls, v: int) {
    |c.viewHidden| == ViewCount
    && (forall i :: 0 <= i < ViewCount ==> (c.viewHidden[i] <==> i != v))
    && (c.backHidden <==> v == Landing)
    && !c.nextHidden
    && c.nextText == (if v == Landing then "Simplified" else if v == Simple then "English" else "Latin")
    && (c.spaceBetween <==> v != Landing)
    && !c.leftAlign
  }

  /**
   * `updateView` for current view `v`. The back button's text is written
   * only when the button is shown; when it is hidden the old text stays.
   */
  function UpdateView(v: int, before: Controls): (after: Controls)
    requires 0 <= v < ViewCount
    ensures Displays(after, v)
    ensures after.backText == if v == Landing then before.backText else BackText
  {
    var config := ButtonConfig(v).value;
    var viewHidden := seq(ViewCount, i => i != v);
    var backShown := config.back.Some? && config.back.value.show;
    var nextShown := config.next.Some? && config.next.value.show;
    Controls(
      viewHidden,
      !backShown,
      if backShown then config.back.value.text else before.backText,
      !nextShown,
      if nextShown then config.next.value.text else before.nextText,
      v == Simple || v == English,
      false)
  }

  /** The only view a page displaying `v` shows is `v`. */
  lemma OneViewShown(c: Controls, v: int, w: int)
    requires 0 <= v < ViewCount && Displays(c, v)
    requires 0 <= w < ViewCount && !c.viewHidden[w]
    ensures w == v
  {
  }

  /** A click on one of the two navigation buttons. */
  datatype Click = NextClick | BackClick

  /** The view after a click. */
  function Step(v: int, c: Click): int {
    match c
    case NextClick => NextView(v)
    case BackClick => Landing
  }

  /** The view after a sequence of clicks, starting from view `v`. */
  function Run(v: int, clicks: seq<Click>): int
    decreases |clicks|
  {
    if clicks == [] then v else Run(Step(v, clicks[0]), clicks[1..])
  }

  /** Whatever the clicks, the view stays one of the three. */
  lemma {:induction false} RunStaysInRange(v: int, clicks: seq<Click>)
    requires 0 <= v < ViewCount
    ensures 0 <= Run(v, clicks) < ViewCount
    decreases |clicks|
  {
    if clicks != [] {
      RunStaysInRange(Step(v, clicks[0]), clicks[1..]);
    }
  }

  /**
   * After at least one click the page is on the landing view exactly when
   * the last click was on the back button: the next button never returns to it.
   */
  lemma {:induction false} LandingOnlyAfterBack(v: int, clicks: seq<Click>)
    requires 0 <= v < ViewCount && clicks != []
    ensures Run(v, clicks) == Landing <==> clicks[|clicks| - 1] == BackClick
    decreases |clicks|
  {
    if |clicks| > 1 {
      RunStaysInRange(v, clicks[..1]);
      assert clicks[1..][|clicks[1..]| - 1] == clicks[|clicks| - 1];
      LandingOnlyAfterBack(Step(v, clicks[0]), clicks[1..]);
    }
  }

  /** From the landing view, three presses of next visit the simple, English and simple views. */
  lemma ThreeNextPresses()
    ensures Run(Landing, [NextClick]) == Simple
    ensures Run(Landing, [NextClick, NextClick]) == English
    ensures Run(Landing, [NextClick, NextClick, NextClick]) == Simple
  {
  }

  /** `currentView` and the controls `updateView` last wrote. */
  class Navigator {
    var currentView: int
    var controls: Controls

    ghost predicate Valid()
      reads this
    {
      0 <= currentView < ViewCount && Displays(controls, currentView)
    }

    /** Starts on the landing view and runs `updateView` once over the page as loaded. */
    constructor (page: Controls)
      ensures Valid() && currentView == Landing
      ensures controls == UpdateView(Landing, page)
    {
      currentView := Landing;
      controls := UpdateView(Landing, page);
    }

    /** The next button's click handler. */
    method Next()
      requires Valid()
      modifies this
      ensures Valid()
      ensures currentView == NextView(old(currentView))
      ensures controls == UpdateView(currentView, old(controls))
    {
      if currentView == Landing {
        currentView := Simple;
      } else if currentView == Simple {
        currentView := English;
      } else if currentView == English {
        currentView := Simple;
      }
      controls := UpdateView(currentView, controls);
    }

    /** The back button's click handler: always returns to the landing view. */
    method Back()
      requires Valid()
      modifies this
      ensures Valid() && currentView == Landing
      ensures controls == UpdateView(Landing, old(controls))
    {
      currentView := Landing;
      controls := UpdateView(currentView, controls);
    }
  }
}
