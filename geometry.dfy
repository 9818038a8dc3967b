/** The visibility predicates of the lazy-load plugin: the `LazyLoad.prototype`
    geometry getters, `$.belowthefold`, `$.rightoffold`, `$.abovethetop`,
    `$.leftofbegin`, `$.inviewport` and the custom-selector table.
    All geometry is in integer pixels, as the host reports it. */
module Geometry {

  import opened Wrappers

  /** An element's offset and size as the host reports them:
      `offset().top`, `offset().left`, `width()`, `height()`. */
  datatype Box = Box(top: int, left: int, width: int, height: int)

  /** The browser window. `innerHeight`/`innerWidth` are 0 when the property is
      missing or zero (both are falsy); `fallbackHeight`/`fallbackWidth` are what
      `$(window).height()`/`width()` report; then the scroll offsets. */
  datatype Viewport = Viewport(innerHeight: int, innerWidth: int,
                               fallbackHeight: int, fallbackWidth: int,
                               scrollTop: int, scrollLeft: int)

  /** The container after `getContainer`: the window, or a custom scrollable element. */
  datatype Container = Window(view: Viewport) | Custom(box: Box)

  /** The `container` setting as the caller gave it: left out (`undefined`), the
      window object, another falsy value (`null`, `false`, `0`, `""`), or an
      element the host can measure. */
  datatype ContainerOption = UndefinedContainer | WindowObject | OtherFalsy | ElementContainer(box: Box)

  /** The `threshold` setting: left out (`undefined`), or a number of pixels. */
  datatype Threshold = Absent | Px(n: int)

  /** The settings object handed to the predicates. */
  datatype Query = Query(threshold: Threshold, container: ContainerOption)

  /** A predicate either answers, or throws a TypeError: reading `.top` off
      `offset()` of a jQuery set with no element in it. */
  datatype Answer = Ok(holds: bool) | TypeError

  /** `threshold || 0` */
  function OrZero(t: Threshold): int {
    match t
    case Absent => 0
    case Px(n) => n
  }

  /** `getElementTop`: the element's top, pulled up by the threshold. */
  function ElementTop(el: Box, t: Threshold): int {
    el.top - OrZero(t)
  }

  /** `getElementLeft`: the element's left, pulled left by the threshold. */
  function ElementLeft(el: Box, t: Threshold): int {
    el.left - OrZero(t)
  }

  /** `getElementBottom`: the element's bottom, pushed down by the threshold. */
  function ElementBottom(el: Box, t: Threshold): int {
    el.top + OrZero(t) + el.height
  }

  /** `getWindowHeight`: `innerHeight`, or the host's height when that is falsy. */
  function WindowHeight(v: Viewport): int {
    if v.innerHeight != 0 then v.innerHeight else v.fallbackHeight
  }

  /** `getWindowWidth`: `innerWidth`, or the host's width when that is falsy. */
  function WindowWidth(v: Viewport): int {
    if v.innerWidth != 0 then v.innerWidth else v.fallbackWidth
  }

  /** `getFoldBottom` */
  function FoldBottom(c: Container): int {
    match c
    case Window(v) => WindowHeight(v) + v.scrollTop
    case Custom(b) => b.top + b.height
  }

  /** `getFoldRight`. For a custom container the source adds the container's
      HEIGHT to its left offset, not its width; the model keeps that. */
  function FoldRight(c: Container): int {
    match c
    case Window(v) => WindowWidth(v) + v.scrollLeft
    case Custom(b) => b.left + b.height
  }

  /** `getContainer`: `container || window`. */
  function GetContainer(opt: ContainerOption, win: Viewport): Container {
    match opt
    case ElementContainer(b) => Custom(b)
    case _ => Window(win)
  }

  /** `$.belowthefold` */
  predicate BelowTheFold(el: Box, q: Query, win: Viewport) {
    FoldBottom(GetContainer(q.container, win)) <= ElementTop(el, q.threshold)
  }

  /** `$.rightoffold` */
  predicate RightOfFold(el: Box, q: Query, win: Viewport) {
    FoldRight(GetContainer(q.container, win)) <= ElementLeft(el, q.threshold)
  }

  /** The top fold `$.abovethetop` uses: only `undefined` and the window object
      mean the window; any other value is passed to `$()` and measured, which
      throws when it selects nothing (the other falsy values). */
  function TopFold(opt: ContainerOption, win: Viewport): Option<int> {
    match opt
    case UndefinedContainer => Some(win.scrollTop)
    case WindowObject => Some(win.scrollTop)
    case ElementContainer(b) => Some(b.top)
    case OtherFalsy => None
  }

  /** The left fold `$.leftofbegin` uses, chosen as in `TopFold`. */
  function LeftFold(opt: ContainerOption, win: Viewport): Option<int> {
    match opt
    case UndefinedContainer => Some(win.scrollLeft)
    case WindowObject => Some(win.scrollLeft)
    case ElementContainer(b) => Some(b.left)
    case OtherFalsy => None
  }

  /** `$.abovethetop`. The threshold is added as it is: an absent threshold makes
      the sum NaN, and a comparison with NaN is false. */
  function AboveTheTop(el: Box, q: Query, win: Viewport): Answer {
    match TopFold(q.container, win)
    case None => TypeError
    case Some(fold) =>
      match q.threshold
      case Absent => Ok(false)
      case Px(t) => Ok(fold >= el.top + t + el.height)
  }

  /** `$.leftofbegin`, the horizontal twin of `AboveTheTop`. */
  function LeftOfBegin(el: Box, q: Query, win: Viewport): Answer {
    match LeftFold(q.container, win)
    case None => TypeError
    case Some(fold) =>
      match q.threshold
      case Absent => Ok(false)
      case Px(t) => Ok(fold >= el.left + t + el.width)
  }

  /** `$.inviewport`: `!right && !left && !below && !above`, evaluated left to
      right with JavaScript's short circuit, so a throwing predicate is only
      reached when every earlier operand was false. */
  function InViewport(el: Box, q: Query, win: Viewport): Answer {
    if RightOfFold(el, q, win) then Ok(false)
    else
      match LeftOfBegin(el, q, win)
      case TypeError => TypeError
      case Ok(left) =>
        if left then Ok(false)
        else if BelowTheFold(el, q, win) then Ok(false)
        else
          match AboveTheTop(el, q, win)
          case TypeError => TypeError
          case Ok(above) => Ok(!above)
  }

  /** The custom selectors registered on `$.expr[":"]`. */
  datatype Selector =
    | BelowTheFoldSelector    // ":below-the-fold"
    | AboveTheTopSelector     // ":above-the-top"
    | RightOfScreenSelector   // ":right-of-screen"
    | LeftOfScreenSelector    // ":left-of-screen"
    | InViewportSelector      // ":in-viewport"
    | AboveTheFoldSelector    // ":above-the-fold"
    | RightOfFoldSelector     // ":right-of-fold"
    | LeftOfFoldSelector      // ":left-of-fold"

  /** The settings every selector passes: `{threshold : 0}`, no container. */
  const SelectorQuery := Query(Px(0), UndefinedContainer)

  /** Whether element `el` matches selector `sel` (a filter keeps it iff true). */
  predicate Matches(sel: Selector, el: Box, win: Viewport) {
    match sel
    case BelowTheFoldSelector => BelowTheFold(el, SelectorQuery, win)
    case AboveTheTopSelector => !BelowTheFold(el, SelectorQuery, win)
    case RightOfScreenSelector => RightOfFold(el, SelectorQuery, win)
    case LeftOfScreenSelector => !RightOfFold(el, SelectorQuery, win)
    case InViewportSelector => InViewport(el, SelectorQuery, win) == Ok(true)
    case AboveTheFoldSelector => !BelowTheFold(el, SelectorQuery, win)
    case RightOfFoldSelector => RightOfFold(el, SelectorQuery, win)
    case LeftOfFoldSelector => !RightOfFold(el, SelectorQuery, win)
  }

  // ---------------------------------------------------------------------------
  // Properties of the predicates, stated on the raw geometry.
  // ---------------------------------------------------------------------------

  /** Below the fold iff the fold bottom is at or above the element's top less
      `threshold || 0`; the window's fold is its height (with fallback) plus its
      vertical scroll, a custom container's is its top plus its height. */
  lemma BelowTheFoldIff(el: Box, q: Query, win: Viewport)
    ensures BelowTheFold(el, q, win) <==>
      var fold := match q.container
        case ElementContainer(b) => b.top + b.height
        case _ => (if win.innerHeight != 0 then win.innerHeight else win.fallbackHeight) + win.scrollTop;
      fold <= el.top - (if q.threshold.Px? then q.threshold.n else 0)
  {
  }

  /** Right of the fold iff the fold right is at or left of the element's left
      less `threshold || 0`; a custom container's fold is its left plus its height. */
  lemma RightOfFoldIff(el: Box, q: Query, win: Viewport)
    ensures RightOfFold(el, q, win) <==>
      var fold := match q.container
        case ElementContainer(b) => b.left + b.height
        case _ => (if win.innerWidth != 0 then win.innerWidth else win.fallbackWidth) + win.scrollLeft;
      fold <= el.left - (if q.threshold.Px? then q.threshold.n else 0)
  {
  }

  /** Above the top iff the top fold is at or below the element's top plus the
      raw threshold plus its height; never with an absent threshold; and a
      TypeError for a falsy container other than `undefined`. */
  lemma AboveTheTopIff(el: Box, q: Query, win: Viewport)
    ensures q.container == OtherFalsy <==> AboveTheTop(el, q, win) == TypeError
    ensures q.container != OtherFalsy ==>
      var fold := if q.container.ElementContainer? then q.container.box.top else win.scrollTop;
      (AboveTheTop(el, q, win) == Ok(true) <==>
        q.threshold.Px? && fold >= el.top + q.threshold.n + el.height)
  {
  }

  /** Left of the beginning iff the left fold is at or right of the element's
      left plus the raw threshold plus its width; errors as in `AboveTheTopIff`. */
  lemma LeftOfBeginIff(el: Box, q: Query, win: Viewport)
    ensures q.container == OtherFalsy <==> LeftOfBegin(el, q, win) == TypeError
    ensures q.container != OtherFalsy ==>
      var fold := if q.container.ElementContainer? then q.container.box.left else win.scrollLeft;
      (LeftOfBegin(el, q, win) == Ok(true) <==>
        q.threshold.Px? && fold >= el.left + q.threshold.n + el.width)
  {
  }

  /** With a threshold given, `$.abovethetop` compares the top fold with
      `getElementBottom`; with none, the getter would use 0 but the predicate
      never holds. */
  lemma AboveTheTopUsesElementBottom(el: Box, q: Query, win: Viewport)
    requires q.container != OtherFalsy
    ensures q.threshold.Px? ==>
      (AboveTheTop(el, q, win) == Ok(true) <==> TopFold(q.container, win).value >= ElementBottom(el, q.threshold))
    ensures q.threshold == Absent ==> AboveTheTop(el, q, win) == Ok(false)
  {
  }

  /** `$.inviewport` is the conjunction of the four negated predicates whenever
      none of them throws; with another falsy container it answers false when
      the element is right of the fold and throws otherwise. */
  lemma InViewportIff(el: Box, q: Query, win: Viewport)
    ensures q.container != OtherFalsy ==>
      InViewport(el, q, win) ==
        Ok(!RightOfFold(el, q, win) && !LeftOfBegin(el, q, win).holds &&
           !BelowTheFold(el, q, win) && !AboveTheTop(el, q, win).holds)
    ensures q.container == OtherFalsy ==>
      InViewport(el, q, win) == if RightOfFold(el, q, win) then Ok(false) else TypeError
  {
  }

  /** The selectors and their aliases. `:above-the-top` and `:above-the-fold`
      are the negation of below-the-fold, and `:left-of-screen` and
      `:left-of-fold` the negation of right-of-fold, all at threshold 0 against
      the window; `:in-viewport` never throws. */
  lemma SelectorTable(el: Box, win: Viewport)
    ensures Matches(BelowTheFoldSelector, el, win) <==> WindowHeight(win) + win.scrollTop <= el.top
    ensures Matches(RightOfScreenSelector, el, win) <==> WindowWidth(win) + win.scrollLeft <= el.left
    ensures Matches(AboveTheTopSelector, el, win) == Matches(AboveTheFoldSelector, el, win)
                                                  == !Matches(BelowTheFoldSelector, el, win)
    ensures Matches(LeftOfScreenSelector, el, win) == Matches(LeftOfFoldSelector, el, win)
                                                   == !Matches(RightOfScreenSelector, el, win)
    ensures Matches(RightOfFoldSelector, el, win) == Matches(RightOfScreenSelector, el, win)
    ensures InViewport(el, SelectorQuery, win) != TypeError
    ensures Matches(InViewportSelector, el, win) == InViewport(el, SelectorQuery, win).holds
  {
  }

  /** `:above-the-top` is not `$.abovethetop`: an element inside a 1024 by 768
      window matches the selector although it is not above the top. */
  lemma AboveTheTopSelectorIsNotAboveTheTop()
    ensures Matches(AboveTheTopSelector, Box(100, 100, 20, 20), Viewport(768, 1024, 768, 1024, 0, 0))
    ensures AboveTheTop(Box(100, 100, 20, 20), SelectorQuery, Viewport(768, 1024, 768, 1024, 0, 0)) == Ok(false)
  {
  }

  /** All four directional predicates are antitone in the threshold: whatever
      holds at the larger threshold holds at the smaller one. */
  lemma ThresholdAntitone(el: Box, c: ContainerOption, win: Viewport, t1: int, t2: int)
    requires t1 <= t2
    ensures BelowTheFold(el, Query(Px(t2), c), win) ==> BelowTheFold(el, Query(Px(t1), c), win)
    ensures RightOfFold(el, Query(Px(t2), c), win) ==> RightOfFold(el, Query(Px(t1), c), win)
    ensures AboveTheTop(el, Query(Px(t2), c), win) == Ok(true) ==> AboveTheTop(el, Query(Px(t1), c), win) == Ok(true)
    ensures LeftOfBegin(el, Query(Px(t2), c), win) == Ok(true) ==> LeftOfBegin(el, Query(Px(t1), c), win) == Ok(true)
  {
  }

  /** An absent threshold means 0 to below/right but "never" to above/left. */
  lemma AbsentThreshold(el: Box, c: ContainerOption, win: Viewport)
    ensures BelowTheFold(el, Query(Absent, c), win) == BelowTheFold(el, Query(Px(0), c), win)
    ensures RightOfFold(el, Query(Absent, c), win) == RightOfFold(el, Query(Px(0), c), win)
    ensures c != OtherFalsy ==> AboveTheTop(el, Query(Absent, c), win) == Ok(false)
    ensures c != OtherFalsy ==> LeftOfBegin(el, Query(Absent, c), win) == Ok(false)
  {
  }

  /** Touching a fold counts as outside: an element whose threshold-adjusted top
      is exactly the fold bottom is below the fold and not in the viewport. */
  lemma TouchingTheFoldIsOutside(el: Box, q: Query, win: Viewport)
    requires ElementTop(el, q.threshold) == FoldBottom(GetContainer(q.container, win))
    ensures BelowTheFold(el, q, win)
    ensures InViewport(el, q, win) != Ok(true)
  {
  }

  /** Below and right treat another falsy container as the window, while above
      and left throw on it. */
  lemma OtherFalsyContainer(el: Box, t: Threshold, win: Viewport)
    ensures BelowTheFold(el, Query(t, OtherFalsy), win) == BelowTheFold(el, Query(t, WindowObject), win)
    ensures RightOfFold(el, Query(t, OtherFalsy), win) == RightOfFold(el, Query(t, WindowObject), win)
    ensures AboveTheTop(el, Query(t, OtherFalsy), win) == TypeError
    ensures LeftOfBegin(el, Query(t, OtherFalsy), win) == TypeError
  {
  }

  /** The right fold of a custom container ignores the container's width: a
      container 1024 wide and 768 tall at the origin puts an element whose left
      is at 800 right of the fold. */
  lemma CustomRightFoldUsesHeight(win: Viewport)
    ensures RightOfFold(Box(0, 800, 10, 10), Query(Px(0), ElementContainer(Box(0, 0, 1024, 768))), win)
  {
  }

  /** The visible height on the vertical axis, from the top fold to the bottom fold. */
  function VisibleHeight(opt: ContainerOption, win: Viewport): int {
    match opt
    case ElementContainer(b) => b.height
    case _ => WindowHeight(win)
  }

  /** With non-negative sizes and threshold, an element with some height (or a
      container with some height) is never both above the top and below the fold. */
  lemma NeverAboveAndBelow(el: Box, q: Query, win: Viewport)
    requires q.threshold.Px? && q.threshold.n >= 0
    requires el.height >= 0 && VisibleHeight(q.container, win) >= 0
    requires el.height + VisibleHeight(q.container, win) > 0
    ensures !(AboveTheTop(el, q, win) == Ok(true) && BelowTheFold(el, q, win))
  {
  }

  /** Scenarios from the plugin's test suite, at jsdom's 1024 by 768 window. */
  lemma TestSuiteScenarios()
    // below the fold, no container: element top 780
    ensures BelowTheFold(Box(780, 0, 0, 0), Query(Px(0), UndefinedContainer), Viewport(768, 1024, 768, 1024, 0, 0))
    ensures BelowTheFold(Box(780, 0, 0, 0), Query(Px(5), UndefinedContainer), Viewport(768, 1024, 768, 1024, 0, 0))
    ensures !BelowTheFold(Box(780, 0, 0, 0), Query(Px(20), UndefinedContainer), Viewport(768, 1024, 768, 1024, 0, 0))
    ensures !BelowTheFold(Box(760, 0, 0, 0), Query(Px(0), UndefinedContainer), Viewport(768, 1024, 768, 1024, 0, 0))
    // innerHeight not set: the host's height 768 is used; an element at 768 touches the fold
    ensures BelowTheFold(Box(768, 0, 0, 0), Query(Px(0), WindowObject), Viewport(0, 1024, 768, 1024, 0, 0))
    // above the top, scrolled to 768: element top 740, height 20
    ensures AboveTheTop(Box(740, 0, 0, 20), Query(Px(0), UndefinedContainer), Viewport(768, 1024, 768, 1024, 768, 0)) == Ok(true)
    ensures AboveTheTop(Box(740, 0, 0, 20), Query(Px(5), UndefinedContainer), Viewport(768, 1024, 768, 1024, 768, 0)) == Ok(true)
    ensures AboveTheTop(Box(740, 0, 0, 20), Query(Px(20), UndefinedContainer), Viewport(768, 1024, 768, 1024, 768, 0)) == Ok(false)
    ensures AboveTheTop(Box(750, 0, 0, 20), Query(Px(0), UndefinedContainer), Viewport(768, 1024, 768, 1024, 768, 0)) == Ok(false)
    // right of the fold, window 1024 wide: element left 1040
    ensures RightOfFold(Box(0, 1040, 0, 0), Query(Px(0), UndefinedContainer), Viewport(768, 1024, 768, 1024, 0, 0))
    ensures RightOfFold(Box(0, 1040, 0, 0), Query(Px(5), UndefinedContainer), Viewport(768, 1024, 768, 1024, 0, 0))
    ensures !RightOfFold(Box(0, 1040, 0, 0), Query(Px(20), UndefinedContainer), Viewport(768, 1024, 768, 1024, 0, 0))
    ensures !RightOfFold(Box(0, 1020, 0, 0), Query(Px(0), UndefinedContainer), Viewport(768, 1024, 768, 1024, 0, 0))
  {
  }
}
