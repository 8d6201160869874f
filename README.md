# Slide deck navigation, modelled in Dafny

The investor deck's script drives a browser slide presentation through one
controller object, `PresentationController`. The controller keeps the
number of the current slide, starting at 1. It also keeps a slide count that
is fixed at 14. Every navigation request (next, previous, go to slide n)
goes through `showSlide`. That operation:

- takes the `active` class off every `.slide` element;
- looks up the element with id `slide-n`;
- only if that element exists, marks it active, makes n current and
  refreshes the counter text `"current / total"` and the disabled state of
  the previous and next buttons.

Several event handlers turn user input into requests:

- keys: arrows, space, Home and End;
- touch swipes: more than 50 units of mostly horizontal travel;
- the mouse wheel: the sign of `deltaY`;
- clicks on a slide: the left 30% and the right 30% of its width.

The project has five modules:

- `Input` (input.dfy): the request datatype `Action` and the decision each
  handler makes, as functions. It also holds `TouchTracker`, a class for
  the touch start point that the touch handlers share and reset.
- `Navigation` (navigation.dfy): the state machine as values. A `Deck`
  holds the current slide, the `active` flag of every `.slide` element, the
  counter text and the two button flags. There is one function per
  controller operation, and the lemmas about them: the range invariant,
  "nothing else changes", the boundary behaviour, repeated presses, and
  Home/End.
- `Controller` (controller.dfy): `PresentationController` as a class. The
  `active` flags live in an array that `ShowSlide` clears with a loop. Each
  method is proved to move the object to the state the `Navigation`
  function gives. The constructor establishes the object invariant
  `Valid()`, and `NextSlide`, `PreviousSlide`, `GoToSlide`, `Dispatch` and
  the four handler methods keep it. `ShowSlide`, `UpdateSlideCounter` and
  `UpdateNavigationButtons` do not promise it: `ShowSlide` may be asked for
  any slide number, and the two update methods are the steps it is made of.
- `Decimal` (decimal.dfy): the decimal text of an integer, as the counter
  template renders a slide number. It comes with its inverse, so the counter text
  determines the current slide.
- `Wrappers` (wrappers.dfy): `Option`.

The slides on the page are given to the model as `slideIds`: the number N
of each `.slide` element's id `slide-N`, in document order. A lookup of
`slide-n` finds the first such element (`FirstIndex`). A `.slide` element
whose id is not `slide-` followed by the plain decimal text of an integer
(no id at all, or an id such as `slide-01`) can never be found by such a
lookup; it is entered in `slideIds` as 0, a number outside 1..14 that no
navigation request asks for.

## Behaviour worth knowing

- `goToSlide(n)` with n equal to the current slide calls `showSlide` again
  (script.js:145-148); it is not skipped. `Navigation.GoToCurrentNotNoOp`
  shows a state in which this changes the deck, and
  `Navigation.GoToCurrentWhenShown` shows that the deck comes back unchanged
  when the current slide's element is the one shown.
- A request for a slide number within 1..14 whose `slide-N` element is
  missing still takes `active` off every slide (script.js:116-118); only the
  current slide, the counter and the buttons stay as they were
  (script.js:122-126). After such a request no slide is shown.

## Model

| member | source | states |
|---|---|---|
| `Input.KeyAction` | script.js:28-50 | exactly the seven navigation keys produce a request; ArrowLeft/ArrowUp and only they give previous; ArrowRight/ArrowDown/space and only they give next; Home gives a jump to slide 1, End a jump to the last slide, and no other key gives a jump |
| `Input.SwipeGesture` | script.js:67-79 | a swipe acts iff its horizontal travel is strictly larger than its vertical travel and strictly above 50; a finger moving left gives next, moving right gives previous |
| `Input.SwipeAction` | script.js:61-79 | a start coordinate of 0 (no touch recorded) suppresses the swipe; otherwise the decision is SwipeGesture on startX - endX and startY - endY |
| `Input.SwipeGestureMirror` | script.js:67-79 | the same swipe made the other way round asks for the opposite step |
| `Input.SwipeNeedsTravel` | script.js:71-72 | travel of at most 50, or no more horizontal than vertical, does nothing |
| `Input.SwipeExamples` | script.js:61-83 | 60 left with 10 vertical goes forward; 40, exactly 50, or a diagonal swipe does nothing; a zero start does nothing |
| `Input.WheelAction` | script.js:90-94 | deltaY > 0 gives next, deltaY < 0 gives previous, and deltaY = 0 gives nothing |
| `Input.WheelMirror` | script.js:90-94 | reversing the wheel direction reverses the request |
| `Input.ClickAction` | script.js:101-109 | a click left of 30% of the width goes back; for a non-negative width, the band from 30% to 70% inclusive does nothing and right of 70% goes forward |
| `Input.ClickMirror` | script.js:105-109 | the two click zones mirror each other about the slide's centre |
| `Input.TouchTracker.constructor` | script.js:53-54 | no touch start is recorded at first (both coordinates 0) |
| `Input.TouchTracker.TouchStart` | script.js:56-59 | touchstart records the start point |
| `Input.TouchTracker.TouchEnd` | script.js:61-83 | touchend decides by SwipeAction on the recorded start; it resets both coordinates to 0 only when neither was 0 (the early return skips the reset) |
| `Navigation.FirstIndex` | script.js:121 | the lookup of `slide-n` finds an element iff one carries that id, and then the first one |
| `Navigation.ShowSlide` | script.js:114-131 | afterwards exactly the first `slide-n` element is active and every other slide is not; if slide n exists it becomes current and the counter and buttons describe it; otherwise index, counter and buttons are unchanged |
| `Navigation.NextSlide` | script.js:133-137 | at the last slide or beyond, nothing changes (not even the active flags); otherwise the current slide becomes current+1 iff that slide exists, and the flags follow the target |
| `Navigation.PreviousSlide` | script.js:139-143 | at slide 1, nothing changes; otherwise the current slide becomes current-1 iff that slide exists, and the flags follow the target |
| `Navigation.GoToSlide` | script.js:145-149 | slide n becomes current iff 1 <= n <= 14 and it exists; outside that range the deck is untouched; a missing slide leaves counter and buttons as they were |
| `Navigation.ShowSlideConsistent` | script.js:114-131 | whatever slide is asked for, the counter and buttons keep describing the current slide, and the only slide that can be active is the current one's element |
| `Navigation.ApplyValid` | script.js:133-149 | every request keeps the current slide within 1..total and the display consistent |
| `Navigation.RunValid` | script.js:133-149 | any sequence of requests keeps the deck valid |
| `Navigation.InitValid` | script.js:4-20 | the deck starts on slide 1, valid, whether or not slide 1 exists |
| `Navigation.ReachableValid` | script.js:5-6 | every state reachable from construction has 1 <= current <= total |
| `Navigation.CounterIdentifiesSlide` | script.js:151-153 | two consistent decks with the same counter text are on the same slide |
| `Navigation.StepByOne` | script.js:133-143 | with every slide present, next moves by exactly +1 and previous by exactly -1, except at the ends, where they do not move |
| `Navigation.NextRepeated` | script.js:133-137 | with every slide present, k presses of next land on min(current + k, total) |
| `Navigation.PreviousRepeated` | script.js:139-143 | with every slide present, k presses of previous land on max(current - k, 1) |
| `Navigation.HomeAndEnd` | script.js:41-48 | Home reaches slide 1 and End the last slide whenever those slides exist; otherwise the current slide stays |
| `Navigation.GoToCurrentWhenShown` | script.js:145-149 | asking for the current slide while its element is active leaves the deck as it was |
| `Navigation.GoToCurrentNotNoOp` | script.js:145-149 | asking for the current slide is not a no-op: after a step towards a missing slide it makes the current slide active again |
| `Decimal.NatText` | script.js:152 | the text of a number is a non-empty string of digits |
| `Decimal.IntText` | script.js:152 | the text of an integer has no space and starts with '-' iff the integer is negative |
| `Decimal.NatTextRoundTrip` | script.js:152 | reading back the digits of n gives n |
| `Decimal.IntTextRoundTrip` | script.js:152 | reading back the text of any integer gives that integer |
| `Decimal.IntTextInjective` | script.js:152 | different numbers never render as the same text |
| `Decimal.SplitAtSeparator` | script.js:152 | a counter "a / b" made of space-free parts splits back into a and b |
| `Controller.PresentationController.constructor` | script.js:4-20 | the controller starts valid, in the deck state `Navigation.Init`, on slide 1 |
| `Controller.PresentationController.UpdateSlideCounter` | script.js:151-153 | the counter text becomes "current / total" |
| `Controller.PresentationController.UpdateNavigationButtons` | script.js:155-158 | previous is disabled iff on slide 1; next is disabled iff on the last slide |
| `Controller.PresentationController.ShowSlide` | script.js:114-131 | clears every flag in a loop, then takes the object to `Navigation.ShowSlide` of its old state |
| `Controller.PresentationController.NextSlide` | script.js:133-137 | keeps the object valid and takes it to `Navigation.NextSlide` of its old state |
| `Controller.PresentationController.PreviousSlide` | script.js:139-143 | keeps the object valid and takes it to `Navigation.PreviousSlide` of its old state |
| `Controller.PresentationController.GoToSlide` | script.js:145-149 | keeps the object valid and takes it to `Navigation.GoToSlide` of its old state |
| `Controller.PresentationController.Dispatch` | script.js:24-25 | a request from a handler or a button has the effect `Navigation.Apply` gives, and the object stays valid |
| `Controller.PresentationController.OnKeyDown` | script.js:28-50 | a key press acts as its KeyAction |
| `Controller.PresentationController.OnTouchEnd` | script.js:61-83 | a finished touch acts as its SwipeAction on the recorded start; the start point is reset to 0 when both coordinates were recorded and left as it was otherwise |
| `Controller.PresentationController.OnWheel` | script.js:87-96 | a wheel event, once its debounce has elapsed, acts as its WheelAction |
| `Controller.PresentationController.OnSlideClick` | script.js:99-111 | a click on a slide acts as its ClickAction |

## Left out

- DOM lookup and event wiring (`querySelectorAll`, `getElementById`, `addEventListener`, `preventDefault`). The slides are given as a sequence of ids, and each handler is a method that receives the event's data.
- The model assumes that every element with an id `slide-N` is one of the `.slide` elements. An element with such an id but without the class would be activated by `showSlide` without being cleared first; the model does not capture that.
- The initial `active` classes from the page are not modelled. The constructor ends with `showSlide(1)`, which clears them all, so they do not affect any state after construction.
- `triggerSlideAnimations`, `animateMarketStats`, `animateRevenueChart` (script.js:160-212), and the call to them at script.js:129: timed style changes with no effect on navigation state.
- `Controller.PresentationController.OnWheel`: the 100 ms debounce (`setTimeout`/`clearTimeout`, script.js:86-96) is not modelled. Only the decision made when the timer fires is modelled, so one request per burst of wheel events is not stated.
- `PresentationUtils` (script.js:216-339): hover effects, the progress bar, the fullscreen toggle and the overview mode are styling and browser calls. Overview mode reaches the controller only through `goToSlide` and `showSlide`, which are modelled. The progress bar wraps `showSlide`, and so does the preload hook (script.js:359-381); both are observers with no effect on navigation state.
- The body fade-in and the presentation-mode cursor hiding (script.js:352-357, 384-408): timers and cosmetics.
- Coordinates, deltas and widths are exact reals, not IEEE doubles. `slideWidth * 0.3` is exact, and a NaN start coordinate (which JavaScript also treats as "no start") is not modelled.
- `Decimal.IntText` renders whole numbers as plain digits. JavaScript prints numbers of magnitude 10^21 or more in exponent form ("1e+21"), and has its own text for fractional, infinite or NaN numbers; none of this is modelled, because slide numbers are small integers.
