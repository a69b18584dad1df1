/** The testimonial carousel's position logic. Slide widths are percentages
    kept in hundredths (100% is 10000, 33.33% is 3333), so
    `Math.floor(100 / slideWidth)` is integer division of 10000 by the width.
 */
module Slider {

  const FullWidth: nat := 10000
  const HalfWidth: nat := 5000
  const ThirdWidth: nat := 3333

  predicate ValidWidth(w: nat) {
    w == FullWidth || w == HalfWidth || w == ThirdWidth
  }

  /** `handleResize`: one slide below 768 pixels, two below 1024, else three. */
  function SlideWidth(windowWidth: int): (w: nat)
    ensures ValidWidth(w)
    ensures w == FullWidth <==> windowWidth < 768
    ensures w == HalfWidth <==> 768 <= windowWidth < 1024
    ensures w == ThirdWidth <==> 1024 <= windowWidth
  {
    if windowWidth < 768 then FullWidth
    else if windowWidth < 1024 then HalfWidth
    else ThirdWidth
  }

  /** `Math.floor(100 / slideWidth)`. */
  function SlidesPerView(w: nat): nat
    requires w > 0
  {
    FullWidth / w
  }

  /** The slides a window shows at once follow the width bands. */
  lemma {:induction false} SlidesPerViewBands(windowWidth: int)
    ensures windowWidth < 768 ==> SlidesPerView(SlideWidth(windowWidth)) == 1
    ensures 768 <= windowWidth < 1024 ==> SlidesPerView(SlideWidth(windowWidth)) == 2
    ensures 1024 <= windowWidth ==> SlidesPerView(SlideWidth(windowWidth)) == 3
  {
  }

  /** `Math.max(0, count - Math.floor(100 / slideWidth))`. */
  function MaxPosition(count: nat, w: nat): (m: nat)
    requires w > 0
    ensures m + SlidesPerView(w) >= count
    ensures m > 0 ==> m + SlidesPerView(w) == count
  {
    if count > SlidesPerView(w) then count - SlidesPerView(w) else 0
  }

  /** The component's state: `position`, `slideWidth`, `maxPosition`, and
      the number of testimonials the query currently holds. */
  datatype Slider = Slider(position: int, slideWidth: nat, maxPosition: int, count: nat)

  /** The first render: position 0, width 33.33%, `maxPosition` 0, whatever
      the initial testimonials are. */
  function Initial(count: nat): (s: Slider)
    ensures s.position == 0 && s.maxPosition == 0 && s.slideWidth == ThirdWidth && s.count == count
  {
    Slider(0, ThirdWidth, 0, count)
  }

  /** `goToPrev`: one step back, never below 0. */
  function GoToPrev(s: Slider): (r: Slider)
    ensures r.position >= 0
    ensures r.position == if s.position > 0 then s.position - 1 else 0
    ensures r == s.(position := r.position)
  {
    s.(position := if s.position - 1 > 0 then s.position - 1 else 0)
  }

  /** `goToNext`: one step on, never past `maxPosition`. */
  function GoToNext(s: Slider): (r: Slider)
    ensures r.position <= s.maxPosition
    ensures r.position <= s.position + 1
    ensures s.position < s.maxPosition ==> r.position == s.position + 1
    ensures s.position >= s.maxPosition ==> r.position == s.maxPosition
    ensures r == s.(position := r.position)
  {
    s.(position := if s.maxPosition < s.position + 1 then s.maxPosition else s.position + 1)
  }

  /** `disabled={position === 0}`. */
  predicate PrevDisabled(s: Slider) {
    s.position == 0
  }

  /** `disabled={position >= maxPosition}`. */
  predicate NextDisabled(s: Slider) {
    s.position >= s.maxPosition
  }

  /** The effect on `[testimonials, slideWidth]`: only `maxPosition` is
      recomputed; `position` is left where it was. */
  function Recompute(s: Slider): (r: Slider)
    requires ValidWidth(s.slideWidth)
    ensures r.position == s.position && r.slideWidth == s.slideWidth && r.count == s.count
    ensures r.maxPosition >= 0
    ensures r.maxPosition + SlidesPerView(s.slideWidth) >= s.count
    ensures r.maxPosition == MaxPosition(s.count, s.slideWidth)
  {
    s.(maxPosition := MaxPosition(s.count, s.slideWidth))
  }

  /** A window resize: the width band changes, then the effect recomputes
      `maxPosition`. */
  function Resize(s: Slider, windowWidth: int): (r: Slider)
    ensures r.position == s.position && r.count == s.count
    ensures r.slideWidth == SlideWidth(windowWidth)
    ensures r.maxPosition == MaxPosition(s.count, SlideWidth(windowWidth))
  {
    Recompute(s.(slideWidth := SlideWidth(windowWidth)))
  }

  /** The query delivers a list of `count` testimonials. */
  function Loaded(s: Slider, count: nat): (r: Slider)
    requires ValidWidth(s.slideWidth)
    ensures r.position == s.position && r.slideWidth == s.slideWidth && r.count == count
    ensures r.maxPosition == MaxPosition(count, s.slideWidth)
  {
    Recompute(s.(count := count))
  }

  datatype Action = Prev | Next | ResizeTo(windowWidth: int) | Load(count: nat)

  predicate Inv(s: Slider) {
    s.position >= 0 && s.maxPosition >= 0 && ValidWidth(s.slideWidth)
  }

  function Step(s: Slider, a: Action): Slider
    requires ValidWidth(s.slideWidth)
  {
    match a
    case Prev => GoToPrev(s)
    case Next => GoToNext(s)
    case ResizeTo(w) => Resize(s, w)
    case Load(n) => Loaded(s, n)
  }

  /** Every action keeps the position and `maxPosition` non-negative and
      the width one of the three bands. */
  lemma {:induction false} StepKeepsInv(s: Slider, a: Action)
    requires Inv(s)
    ensures Inv(Step(s, a))
  {
  }

  function Run(s: Slider, actions: seq<Action>): Slider
    requires Inv(s)
    decreases |actions|
  {
    if actions == [] then s
    else
      StepKeepsInv(s, actions[0]);
      Run(Step(s, actions[0]), actions[1..])
  }

  /** From the first render, no sequence of clicks, resizes and loads ever
      makes the position negative. */
  lemma {:induction false} RunKeepsInv(s: Slider, actions: seq<Action>)
    requires Inv(s)
    ensures Inv(Run(s, actions))
    decreases |actions|
  {
    if actions != [] {
      StepKeepsInv(s, actions[0]);
      RunKeepsInv(Step(s, actions[0]), actions[1..]);
    }
  }

  /** A disabled button's action changes nothing while the position is
      within `maxPosition`; an enabled one moves by exactly one slide. */
  lemma {:induction false} ButtonsMatchTheirFlags(s: Slider)
    requires Inv(s) && s.position <= s.maxPosition
    ensures PrevDisabled(s) <==> GoToPrev(s) == s
    ensures NextDisabled(s) <==> GoToNext(s) == s
    ensures !PrevDisabled(s) ==> GoToPrev(s).position == s.position - 1
    ensures !NextDisabled(s) ==> GoToNext(s).position == s.position + 1
  {
  }

  /** The prev button's flag holds in every reachable state: it is disabled
      exactly when its click changes nothing, and otherwise steps back one. */
  lemma {:induction false} PrevButtonMatchesFlag(s: Slider)
    requires Inv(s)
    ensures PrevDisabled(s) <==> GoToPrev(s) == s
    ensures !PrevDisabled(s) ==> GoToPrev(s).position == s.position - 1
  {
  }

  /** Past `maxPosition` the next button is disabled although `goToNext`
      would still move the slider, back to `maxPosition`. */
  lemma {:induction false} StrandedNextIsDisabled(s: Slider)
    requires Inv(s) && s.position > s.maxPosition
    ensures NextDisabled(s)
    ensures GoToNext(s) != s && GoToNext(s).position == s.maxPosition
  {
  }

  /** Widening the window lowers `maxPosition` without moving the slides,
      so the position can end up past `maxPosition`. The next button is
      then disabled, although `goToNext` would pull the position back to
      `maxPosition`; `goToPrev` only steps back by one. */
  lemma {:induction false} ResizeCanStrandPosition()
    ensures var narrow := Resize(Initial(3), 500);
            var there := GoToNext(GoToNext(narrow));
            var wide := Resize(there, 1200);
            && there.position == 2 && wide.position == 2 && wide.maxPosition == 0
            && NextDisabled(wide) && !PrevDisabled(wide)
            && GoToNext(wide).position == 0
            && GoToPrev(wide).position == 1
  {
  }
}
