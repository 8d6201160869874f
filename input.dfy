/**
 * The decisions the deck's event handlers make: which navigation request a
 * key press, a swipe, a wheel turn or a click on a slide turns into.
 * Coordinates and deltas are exact reals; browser floating point is not
 * modelled.
 */
module Input {

  /** What a handler asks the controller to do. */
  datatype Action = Next | Prev | Goto(n: int) | NoAction

  /** The request for the same gesture made in the other direction. */
  function Opposite(a: Action): Action {
    match a
    case Next => Prev
    case Prev => Next
    case _ => a
  }

  function Abs(x: real): real {
    if x < 0.0 then -x else x
  }

  /** The keys the deck reacts to; every other key is ignored. */
  const NavigationKeys: set<string> := {"ArrowLeft", "ArrowUp", "ArrowRight", "ArrowDown", " ", "Home", "End"}

  /** The keydown handler: arrows and space step, Home and End jump. */
  function KeyAction(key: string, totalSlides: int): (r: Action)
    ensures r != NoAction <==> key in NavigationKeys
    ensures r == Prev <==> key == "ArrowLeft" || key == "ArrowUp"
    ensures r == Next <==> key == "ArrowRight" || key == "ArrowDown" || key == " "
    ensures key == "Home" ==> r == Goto(1)
    ensures key == "End" ==> r == Goto(totalSlides)
    ensures r.Goto? ==> key == "Home" || key == "End"
  {
    match key
    case "ArrowLeft" => Prev
    case "ArrowUp" => Prev
    case "ArrowRight" => Next
    case "ArrowDown" => Next
    case " " => Next
    case "Home" => Goto(1)
    case "End" => Goto(totalSlides)
    case _ => NoAction
  }

  /** Minimum horizontal travel of a swipe, exclusive. */
  const SwipeThreshold: real := 50.0

  /**
   * The decision on a finished touch, from the displacement start - end:
   * a mostly horizontal travel beyond the threshold; a finger moving left
   * (positive diffX) asks for the next slide.
   */
  function SwipeGesture(diffX: real, diffY: real): (r: Action)
    ensures r != NoAction <==> Abs(diffX) > Abs(diffY) && Abs(diffX) > SwipeThreshold
    ensures r == Next || r == Prev || r == NoAction
    ensures r == Next ==> diffX > 0.0
    ensures r == Prev ==> diffX < 0.0
  {
    if Abs(diffX) > Abs(diffY) && Abs(diffX) > SwipeThreshold then
      (if diffX > 0.0 then Next else Prev)
    else
      NoAction
  }

  /** The touchend handler: a start coordinate of 0 means "no touch recorded". */
  function SwipeAction(startX: real, startY: real, endX: real, endY: real): (r: Action)
    ensures startX == 0.0 || startY == 0.0 ==> r == NoAction
    ensures startX != 0.0 && startY != 0.0 ==> r == SwipeGesture(startX - endX, startY - endY)
  {
    if startX == 0.0 || startY == 0.0 then NoAction
    else SwipeGesture(startX - endX, startY - endY)
  }

  /** The (debounced) wheel handler: scrolling down is next, up is previous. */
  function WheelAction(deltaY: real): (r: Action)
    ensures r == Next <==> deltaY > 0.0
    ensures r == Prev <==> deltaY < 0.0
    ensures r == NoAction <==> deltaY == 0.0
  {
    if deltaY > 0.0 then Next else if deltaY < 0.0 then Prev else NoAction
  }

  /** The click handler on a slide: left 30% goes back, right 30% goes forward. */
  function ClickAction(clickX: real, slideWidth: real): (r: Action)
    ensures r == Prev <==> clickX < slideWidth * 0.3
    ensures slideWidth >= 0.0 ==> (r == NoAction <==> slideWidth * 0.3 <= clickX <= slideWidth * 0.7)
    ensures r == Next || r == Prev || r == NoAction
  {
    if clickX < slideWidth * 0.3 then Prev
    else if clickX > slideWidth * 0.7 then Next
    else NoAction
  }

  /** A swipe made the other way round asks for the opposite step. */
  lemma SwipeGestureMirror(diffX: real, diffY: real)
    ensures SwipeGesture(-diffX, -diffY) == Opposite(SwipeGesture(diffX, diffY))
  {
  }

  /** A swipe that is short, or no more horizontal than vertical, does nothing. */
  lemma SwipeNeedsTravel(diffX: real, diffY: real)
    requires Abs(diffX) <= SwipeThreshold || Abs(diffX) <= Abs(diffY)
    ensures SwipeGesture(diffX, diffY) == NoAction
  {
  }

  /** Worked swipes: 60 to the left with 10 vertical goes forward; 40 or exactly 50 does nothing. */
  lemma SwipeExamples()
    ensures SwipeAction(200.0, 300.0, 140.0, 290.0) == Next
    ensures SwipeAction(140.0, 300.0, 200.0, 290.0) == Prev
    ensures SwipeAction(200.0, 300.0, 160.0, 290.0) == NoAction
    ensures SwipeAction(200.0, 300.0, 150.0, 300.0) == NoAction
    ensures SwipeAction(200.0, 300.0, 100.0, 200.0) == NoAction
    ensures SwipeAction(0.0, 300.0, 100.0, 300.0) == NoAction
  {
  }

  lemma WheelMirror(deltaY: real)
    ensures WheelAction(-deltaY) == Opposite(WheelAction(deltaY))
  {
  }

  /** The click zones are mirror images of each other about the slide's centre. */
  lemma ClickMirror(clickX: real, slideWidth: real)
    requires slideWidth >= 0.0
    ensures ClickAction(slideWidth - clickX, slideWidth) == Opposite(ClickAction(clickX, slideWidth))
  {
  }

  /**
   * The touch start coordinates the touch handlers share (the closure
   * variables startX and startY of the deck's event binding).
   */
  class TouchTracker {
    var startX: real
    var startY: real

    constructor ()
      ensures startX == 0.0 && startY == 0.0
    {
      startX, startY := 0.0, 0.0;
    }

    /** touchstart: remember where the first finger went down. */
    method TouchStart(x: real, y: real)
      modifies this
      ensures startX == x && startY == y
    {
      startX, startY := x, y;
    }

    /**
     * touchend: decide on the swipe, then forget the start point; when no
     * start point was recorded the handler returns before forgetting.
     */
    method TouchEnd(endX: real, endY: real) returns (a: Action)
      modifies this
      ensures a == SwipeAction(old(startX), old(startY), endX, endY)
      ensures old(startX) == 0.0 || old(startY) == 0.0 ==> startX == old(startX) && startY == old(startY)
      ensures old(startX) != 0.0 && old(startY) != 0.0 ==> startX == 0.0 && startY == 0.0
    {
      if startX == 0.0 || startY == 0.0 {
        return NoAction;
      }
      a := SwipeGesture(startX - endX, startY - endY);
      startX, startY := 0.0, 0.0;
    }
  }
}
