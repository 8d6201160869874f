/**
 * The deck's controller object: the current slide number, the `active`
 * flags of the `.slide` elements, the counter text and the two buttons'
 * disabled flags, updated in place. Every operation is proved to take the
 * object from a state to the state the Navigation functions prescribe.
 */
module Controller {
  import opened Wrappers
  import opened Input
  import Navigation

  class PresentationController {
    /** The number N of each `.slide` element's id `slide-N`, in document order. */
    const slideIds: seq<int>
    const totalSlides: int
    /** The `active` class of each `.slide` element. */
    const active: array<bool>
    var currentSlide: int
    var counterText: string
    var prevDisabled: bool
    var nextDisabled: bool

    /** The deck this object currently shows. */
    ghost function Snapshot(): Navigation.Deck
      reads this, active
    {
      Navigation.Deck(currentSlide, active[..], counterText, prevDisabled, nextDisabled)
    }

    ghost predicate Valid()
      reads this, active
    {
      && active.Length == |slideIds|
      && totalSlides == Navigation.TotalSlides
      && Navigation.Valid(slideIds, totalSlides, Snapshot())
    }

    /** Set up counter and buttons for slide 1, then show slide 1. */
    constructor (ids: seq<int>)
      ensures Valid() && fresh(active)
      ensures slideIds == ids && totalSlides == Navigation.TotalSlides
      ensures Snapshot() == Navigation.Init(ids, Navigation.TotalSlides)
      ensures currentSlide == 1
    {
      slideIds := ids;
      totalSlides := Navigation.TotalSlides;
      active := new bool[|ids|](_ => false);
      currentSlide := 1;
      counterText := "";
      prevDisabled, nextDisabled := false, false;
      new;
      UpdateSlideCounter();
      UpdateNavigationButtons();
      ghost var before := Snapshot();
      assert before.active == seq(|ids|, _ => false);
      ShowSlide(1);
      Navigation.InitValid(ids, totalSlides);
    }

    method UpdateSlideCounter()
      modifies this`counterText
      ensures counterText == Navigation.CounterText(currentSlide, totalSlides)
    {
      counterText := Navigation.CounterText(currentSlide, totalSlides);
    }

    method UpdateNavigationButtons()
      modifies this`prevDisabled, this`nextDisabled
      ensures prevDisabled <==> currentSlide == 1
      ensures nextDisabled <==> currentSlide == totalSlides
    {
      prevDisabled := currentSlide == 1;
      nextDisabled := currentSlide == totalSlides;
    }

    /** Clear every slide's flag, then show slide n if an element has id `slide-n`. */
    method ShowSlide(slideNumber: int)
      requires active.Length == |slideIds|
      modifies this, active
      ensures Snapshot() == Navigation.ShowSlide(slideIds, totalSlides, old(Snapshot()), slideNumber)
    {
      for i := 0 to active.Length
        modifies active
        invariant forall j :: 0 <= j < i ==> !active[j]
      {
        active[i] := false;
      }
      match Navigation.FirstIndex(slideIds, slideNumber)
      case None =>
        assert active[..] == seq(|slideIds|, i => Navigation.FirstIndex(slideIds, slideNumber) == Some(i));
      case Some(k) =>
        active[k] := true;
        currentSlide := slideNumber;
        UpdateSlideCounter();
        UpdateNavigationButtons();
        assert active[..] == seq(|slideIds|, i => Navigation.FirstIndex(slideIds, slideNumber) == Some(i));
    }

    method NextSlide()
      requires Valid()
      modifies this, active
      ensures Valid()
      ensures Snapshot() == Navigation.NextSlide(slideIds, totalSlides, old(Snapshot()))
    {
      ghost var before := Snapshot();
      if currentSlide < totalSlides {
        ShowSlide(currentSlide + 1);
      }
      Navigation.ApplyValid(slideIds, totalSlides, before, Next);
    }

    method PreviousSlide()
      requires Valid()
      modifies this, active
      ensures Valid()
      ensures Snapshot() == Navigation.PreviousSlide(slideIds, totalSlides, old(Snapshot()))
    {
      ghost var before := Snapshot();
      if currentSlide > 1 {
        ShowSlide(currentSlide - 1);
      }
      Navigation.ApplyValid(slideIds, totalSlides, before, Prev);
    }

    method GoToSlide(slideNumber: int)
      requires Valid()
      modifies this, active
      ensures Valid()
      ensures Snapshot() == Navigation.GoToSlide(slideIds, totalSlides, old(Snapshot()), slideNumber)
    {
      ghost var before := Snapshot();
      if slideNumber >= 1 && slideNumber <= totalSlides {
        ShowSlide(slideNumber);
      }
      Navigation.ApplyValid(slideIds, totalSlides, before, Goto(slideNumber));
    }

    /** What every event handler does with its decision. */
    method Dispatch(a: Action)
      requires Valid()
      modifies this, active
      ensures Valid()
      ensures Snapshot() == Navigation.Apply(slideIds, totalSlides, old(Snapshot()), a)
    {
      match a
      case Next => NextSlide();
      case Prev => PreviousSlide();
      case Goto(n) => GoToSlide(n);
      case NoAction =>
    }

    /** The keydown handler. */
    method OnKeyDown(key: string)
      requires Valid()
      modifies this, active
      ensures Valid()
      ensures Snapshot() == Navigation.Apply(slideIds, totalSlides, old(Snapshot()), KeyAction(key, totalSlides))
    {
      Dispatch(KeyAction(key, totalSlides));
    }

    /** The touchend handler, with the start point kept by the tracker. */
    method OnTouchEnd(tracker: TouchTracker, endX: real, endY: real)
      requires Valid()
      modifies this, active, tracker
      ensures Valid()
      ensures Snapshot() == Navigation.Apply(slideIds, totalSlides, old(Snapshot()),
                                             SwipeAction(old(tracker.startX), old(tracker.startY), endX, endY))
      ensures old(tracker.startX) == 0.0 || old(tracker.startY) == 0.0 ==>
                tracker.startX == old(tracker.startX) && tracker.startY == old(tracker.startY)
      ensures old(tracker.startX) != 0.0 && old(tracker.startY) != 0.0 ==> tracker.startX == 0.0 && tracker.startY == 0.0
    {
      var a := tracker.TouchEnd(endX, endY);
      Dispatch(a);
    }

    /** The wheel handler, once its 100 ms debounce has elapsed. */
    method OnWheel(deltaY: real)
      requires Valid()
      modifies this, active
      ensures Valid()
      ensures Snapshot() == Navigation.Apply(slideIds, totalSlides, old(Snapshot()), WheelAction(deltaY))
    {
      Dispatch(WheelAction(deltaY));
    }

    /** The click handler of a slide, with the click's offset from the slide's left edge. */
    method OnSlideClick(clickX: real, slideWidth: real)
      requires Valid()
      modifies this, active
      ensures Valid()
      ensures Snapshot() == Navigation.Apply(slideIds, totalSlides, old(Snapshot()), ClickAction(clickX, slideWidth))
    {
      Dispatch(ClickAction(clickX, slideWidth));
    }
  }
}
