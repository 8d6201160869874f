/**
 * The slide-navigation state machine of the deck, as values: what the
 * controller's state is after each of its operations. The class in
 * controller.dfy is proved to follow these functions step by step.
 *
 * The state the deck shows: the current slide number, the `active` flag of
 * every `.slide` element (in document order), the counter text and the
 * disabled state of the previous and next buttons. The slides themselves
 * are given by `ids`: the number N of each element's id `slide-N`.
 */
module Navigation {
  import opened Wrappers
  import opened Decimal
  import opened Input

  /** The slide count the controller is built with. */
  const TotalSlides: int := 14

  datatype Deck = Deck(current: int, active: seq<bool>, counter: string, prevDisabled: bool, nextDisabled: bool)

  /** The element a lookup of id `slide-n` finds: the first one carrying it. */
  function FirstIndex(ids: seq<int>, n: int): (r: Option<nat>)
    ensures r.None? <==> n !in ids
    ensures r.Some? ==> r.value < |ids| && ids[r.value] == n && n !in ids[..r.value]
  {
    if ids == [] then None
    else if ids[0] == n then Some(0)
    else match FirstIndex(ids[1..], n)
      case None => None
      case Some(k) => assert ids[..k + 1] == [ids[0]] + ids[1..][..k]; Some(k + 1)
  }

  /** The counter's text, "current / total". */
  function CounterText(current: int, total: int): string {
    IntText(current) + " / " + IntText(total)
  }

  /**
   * showSlide: every slide loses `active`; if slide n exists it alone
   * gains it and becomes current, and the counter and buttons follow.
   */
  function ShowSlide(ids: seq<int>, total: int, d: Deck, n: int): (r: Deck)
    ensures |r.active| == |ids|
    ensures forall i {:trigger r.active[i]} :: 0 <= i < |ids| ==> (r.active[i] <==> ids[i] == n && n !in ids[..i])
    ensures n in ids ==> r.current == n && r.counter == CounterText(n, total)
                         && (r.prevDisabled <==> n == 1) && (r.nextDisabled <==> n == total)
    ensures n !in ids ==> r.current == d.current && r.counter == d.counter
                          && r.prevDisabled == d.prevDisabled && r.nextDisabled == d.nextDisabled
  {
    var target := FirstIndex(ids, n);
    var active := seq(|ids|, i => target == Some(i));
    if target.None? then d.(active := active)
    else Deck(n, active, CounterText(n, total), n == 1, n == total)
  }

  /** nextSlide: show the following slide unless already at the last one. */
  function NextSlide(ids: seq<int>, total: int, d: Deck): (r: Deck)
    ensures d.current >= total ==> r == d
    ensures r.current == if d.current < total && d.current + 1 in ids then d.current + 1 else d.current
    ensures d.current < total ==> |r.active| == |ids| && forall i {:trigger r.active[i]} :: 0 <= i < |ids| ==>
              (r.active[i] <==> ids[i] == d.current + 1 && d.current + 1 !in ids[..i])
  {
    if d.current < total then ShowSlide(ids, total, d, d.current + 1) else d
  }

  /** previousSlide: show the preceding slide unless already at the first one. */
  function PreviousSlide(ids: seq<int>, total: int, d: Deck): (r: Deck)
    ensures d.current <= 1 ==> r == d
    ensures r.current == if d.current > 1 && d.current - 1 in ids then d.current - 1 else d.current
    ensures d.current > 1 ==> |r.active| == |ids| && forall i {:trigger r.active[i]} :: 0 <= i < |ids| ==>
              (r.active[i] <==> ids[i] == d.current - 1 && d.current - 1 !in ids[..i])
  {
    if d.current > 1 then ShowSlide(ids, total, d, d.current - 1) else d
  }

  /** goToSlide: show slide n when it is within 1..total; ignore it otherwise. */
  function GoToSlide(ids: seq<int>, total: int, d: Deck, n: int): (r: Deck)
    ensures r.current == if 1 <= n <= total && n in ids then n else d.current
    ensures !(1 <= n <= total) ==> r == d
    ensures n !in ids ==> r.counter == d.counter && r.prevDisabled == d.prevDisabled && r.nextDisabled == d.nextDisabled
    ensures 1 <= n <= total ==> |r.active| == |ids| && forall i {:trigger r.active[i]} :: 0 <= i < |ids| ==> (r.active[i] <==> ids[i] == n && n !in ids[..i])
  {
    if 1 <= n && n <= total then ShowSlide(ids, total, d, n) else d
  }

  /** What a handler's request does to the deck. */
  function Apply(ids: seq<int>, total: int, d: Deck, a: Action): Deck {
    match a
    case Next => NextSlide(ids, total, d)
    case Prev => PreviousSlide(ids, total, d)
    case Goto(n) => GoToSlide(ids, total, d, n)
    case NoAction => d
  }

  /** A series of requests, handled in order. */
  function Run(ids: seq<int>, total: int, d: Deck, actions: seq<Action>): Deck
    decreases |actions|
  {
    if actions == [] then d else Run(ids, total, Apply(ids, total, d, actions[0]), actions[1..])
  }

  /**
   * The deck once constructed: slide 1 current, counter and buttons set
   * for it, then showSlide(1).
   */
  function Init(ids: seq<int>, total: int): Deck {
    ShowSlide(ids, total, Deck(1, seq(|ids|, _ => false), CounterText(1, total), true, 1 == total), 1)
  }

  /**
   * What holds in every state: the counter and buttons describe the current
   * slide, and the only slide that can be active is the one a lookup of the
   * current slide's id finds.
   */
  predicate Consistent(ids: seq<int>, total: int, d: Deck) {
    && |d.active| == |ids|
    && d.counter == CounterText(d.current, total)
    && d.prevDisabled == (d.current == 1)
    && d.nextDisabled == (d.current == total)
    && forall i :: 0 <= i < |d.active| && d.active[i] ==> FirstIndex(ids, d.current) == Some(i)
  }

  /** Consistent and the current slide within 1..total. */
  predicate Valid(ids: seq<int>, total: int, d: Deck) {
    Consistent(ids, total, d) && 1 <= d.current <= total
  }

  /** Every slide number 1..total has an element. */
  predicate AllPresent(ids: seq<int>, total: int) {
    forall k :: 1 <= k <= total ==> k in ids
  }

  /** Whatever showSlide is asked for, the counter and buttons stay in step. */
  lemma ShowSlideConsistent(ids: seq<int>, total: int, d: Deck, n: int)
    requires Consistent(ids, total, d)
    ensures Consistent(ids, total, ShowSlide(ids, total, d, n))
  {
  }

  /** Every request keeps the deck valid: the current slide never leaves 1..total. */
  lemma ApplyValid(ids: seq<int>, total: int, d: Deck, a: Action)
    requires Valid(ids, total, d)
    ensures Valid(ids, total, Apply(ids, total, d, a))
  {
  }

  lemma {:induction false} RunValid(ids: seq<int>, total: int, d: Deck, actions: seq<Action>)
    requires Valid(ids, total, d)
    ensures Valid(ids, total, Run(ids, total, d, actions))
    decreases |actions|
  {
    if actions != [] {
      ApplyValid(ids, total, d, actions[0]);
      RunValid(ids, total, Apply(ids, total, d, actions[0]), actions[1..]);
    }
  }

  /** The deck starts valid, on slide 1, whether or not slide 1 exists. */
  lemma InitValid(ids: seq<int>, total: int)
    requires total >= 1
    ensures Valid(ids, total, Init(ids, total))
    ensures Init(ids, total).current == 1
  {
  }

  /** Every state reachable from construction is valid. */
  lemma ReachableValid(ids: seq<int>, total: int, actions: seq<Action>)
    requires total >= 1
    ensures Valid(ids, total, Run(ids, total, Init(ids, total), actions))
  {
    InitValid(ids, total);
    RunValid(ids, total, Init(ids, total), actions);
  }

  /** The counter alone tells which slide is current. */
  lemma CounterIdentifiesSlide(ids: seq<int>, total: int, d: Deck, d': Deck)
    requires Consistent(ids, total, d) && Consistent(ids, total, d')
    requires d.counter == d'.counter
    ensures d.current == d'.current
  {
    SplitAtSeparator(IntText(d.current), IntText(total), IntText(d'.current), IntText(total), " / ");
    IntTextInjective(d.current, d'.current);
  }

  /**
   * With every slide present, next moves by exactly one and previous by
   * exactly minus one, except at the ends, where they change nothing.
   */
  lemma StepByOne(ids: seq<int>, total: int, d: Deck)
    requires 1 <= d.current <= total && AllPresent(ids, total)
    ensures NextSlide(ids, total, d).current == if d.current < total then d.current + 1 else d.current
    ensures PreviousSlide(ids, total, d).current == if d.current > 1 then d.current - 1 else d.current
  {
  }

  /** The request repeated k times. */
  function Repeat(a: Action, k: nat): (r: seq<Action>)
    ensures |r| == k && forall i :: 0 <= i < k ==> r[i] == a
  {
    if k == 0 then [] else [a] + Repeat(a, k - 1)
  }

  /** The deck after the same request k times. */
  function Presses(ids: seq<int>, total: int, d: Deck, a: Action, k: nat): Deck
    decreases k
  {
    if k == 0 then d else Presses(ids, total, Apply(ids, total, d, a), a, k - 1)
  }

  lemma {:induction false} RunRepeat(ids: seq<int>, total: int, d: Deck, a: Action, k: nat)
    ensures Run(ids, total, d, Repeat(a, k)) == Presses(ids, total, d, a, k)
    decreases k
  {
    if k > 0 {
      var rest := Repeat(a, k);
      assert rest[0] == a && rest[1..] == Repeat(a, k - 1);
      RunRepeat(ids, total, Apply(ids, total, d, a), a, k - 1);
    }
  }

  lemma {:induction false} NextPresses(ids: seq<int>, total: int, d: Deck, k: nat)
    requires 1 <= d.current <= total && AllPresent(ids, total)
    ensures Presses(ids, total, d, Next, k).current == if d.current + k <= total then d.current + k else total
    decreases k
  {
    if k > 0 {
      StepByOne(ids, total, d);
      NextPresses(ids, total, Apply(ids, total, d, Next), k - 1);
    }
  }

  lemma {:induction false} PreviousPresses(ids: seq<int>, total: int, d: Deck, k: nat)
    requires 1 <= d.current <= total && AllPresent(ids, total)
    ensures Presses(ids, total, d, Prev, k).current == if d.current - k >= 1 then d.current - k else 1
    decreases k
  {
    if k > 0 {
      StepByOne(ids, total, d);
      PreviousPresses(ids, total, Apply(ids, total, d, Prev), k - 1);
    }
  }

  /** Pressing next k times with every slide present lands on min(current + k, total). */
  lemma NextRepeated(ids: seq<int>, total: int, d: Deck, k: nat)
    requires 1 <= d.current <= total && AllPresent(ids, total)
    ensures Run(ids, total, d, Repeat(Next, k)).current == if d.current + k <= total then d.current + k else total
  {
    RunRepeat(ids, total, d, Next, k);
    NextPresses(ids, total, d, k);
  }

  /** Pressing previous k times with every slide present lands on max(current - k, 1). */
  lemma PreviousRepeated(ids: seq<int>, total: int, d: Deck, k: nat)
    requires 1 <= d.current <= total && AllPresent(ids, total)
    ensures Run(ids, total, d, Repeat(Prev, k)).current == if d.current - k >= 1 then d.current - k else 1
  {
    RunRepeat(ids, total, d, Prev, k);
    PreviousPresses(ids, total, d, k);
  }

  /** Home goes to slide 1 and End to the last slide, whenever those slides exist. */
  lemma HomeAndEnd(ids: seq<int>, total: int, d: Deck)
    requires Valid(ids, total, d)
    ensures Apply(ids, total, d, KeyAction("Home", total)).current == if 1 in ids then 1 else d.current
    ensures Apply(ids, total, d, KeyAction("End", total)).current == if total in ids then total else d.current
  {
  }

  /**
   * Asking for the current slide again redraws it: when the current slide's
   * element is the active one the deck comes back unchanged.
   */
  lemma GoToCurrentWhenShown(ids: seq<int>, total: int, d: Deck)
    requires Valid(ids, total, d)
    requires FirstIndex(ids, d.current).Some? && d.active[FirstIndex(ids, d.current).value]
    ensures GoToSlide(ids, total, d, d.current) == d
  {
  }

  /**
   * ... but it is not a no-op in general: after a step towards a missing
   * slide has left no slide active, asking for the current slide shows it
   * again.
   */
  lemma GoToCurrentNotNoOp()
    ensures var ids := [1, 3];
            var d := Run(ids, TotalSlides, Init(ids, TotalSlides), [Next]);
            d.current == 1 && d.active == [false, false] &&
            GoToSlide(ids, TotalSlides, d, d.current) != d
  {
    var ids := [1, 3];
    var d0 := Init(ids, TotalSlides);
    assert d0.current == 1;
    var d := Apply(ids, TotalSlides, d0, Next);
    assert Run(ids, TotalSlides, d0, [Next]) == Run(ids, TotalSlides, d, []);
    assert 2 !in ids;
    assert d.active == [false, false];
    var r := GoToSlide(ids, TotalSlides, d, 1);
    assert r.active[0];
  }
}
