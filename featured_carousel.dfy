/**
  The featured-products strip of client/src/components/home/featured-products.tsx: a window
  of one (mobile) or four (desktop) products slid over the list by previous and next buttons.

  `position` is the index of the first product shown; `maxPosition` is recomputed whenever
  the product list or the layout changes, and the position itself is left as it was.
*/
module FeaturedCarousel {

  function Max(a: int, b: int): (r: int)
    ensures r >= a && r >= b && (r == a || r == b)
  {
    if a >= b then a else b
  }

  function Min(a: int, b: int): (r: int)
    ensures r <= a && r <= b && (r == a || r == b)
  {
    if a <= b then a else b
  }

  /** `visibleSlides`. */
  function Visible(isMobile: bool): (r: nat)
    ensures r == 1 <==> isMobile
    ensures !isMobile ==> r == 4
  {
    if isMobile then 1 else 4
  }

  /** `slideWidth`, in percent of the strip: one product per width. */
  function SlideWidth(isMobile: bool): (r: nat)
    ensures r * Visible(isMobile) == 100
  {
    if isMobile then 100 else 25
  }

  /** The `maxPosition` the effect sets for `count` products. */
  function MaxPositionFor(count: nat, isMobile: bool): (r: nat)
    ensures r == 0 <==> count <= Visible(isMobile)
    ensures count >= Visible(isMobile) ==> r + Visible(isMobile) == count
  {
    Max(0, count - Visible(isMobile))
  }

  /** `handlePrev`'s update. */
  function PrevPosition(p: int): (r: int)
    ensures r >= 0
    ensures p > 0 ==> r == p - 1
    ensures p <= 0 ==> r == 0
  {
    Max(0, p - 1)
  }

  /** `handleNext`'s update. */
  function NextPosition(p: int, maxPosition: int): (r: int)
    ensures r <= maxPosition
    ensures p < maxPosition ==> r == p + 1
    ensures p >= maxPosition ==> r == maxPosition
  {
    Min(maxPosition, p + 1)
  }

  /** The previous button's `disabled`. */
  predicate PrevDisabled(p: int) {
    p == 0
  }

  /** The next button's `disabled`. */
  predicate NextDisabled(p: int, maxPosition: int) {
    p >= maxPosition
  }

  /** Within range, a button is disabled exactly when pressing it would not move the strip. */
  lemma DisabledMeansNoMove(p: int, maxPosition: int)
    requires 0 <= p <= maxPosition
    ensures PrevDisabled(p) <==> PrevPosition(p) == p
    ensures NextDisabled(p, maxPosition) <==> NextPosition(p, maxPosition) == p
  {
  }

  /** The position after a run of presses, `true` for next and `false` for previous. */
  function Presses(p: int, maxPosition: int, next: seq<bool>): (r: int)
    decreases |next|
  {
    if next == [] then p
    else Presses(if next[0] then NextPosition(p, maxPosition) else PrevPosition(p), maxPosition, next[1..])
  }

  /** While the list and layout stay put, no run of presses leaves `[0, maxPosition]`. */
  lemma {:induction false} PressesStayInRange(p: int, maxPosition: int, next: seq<bool>)
    requires 0 <= p <= maxPosition
    ensures 0 <= Presses(p, maxPosition, next) <= maxPosition
    decreases |next|
  {
    if next != [] {
      PressesStayInRange(if next[0] then NextPosition(p, maxPosition) else PrevPosition(p), maxPosition, next[1..]);
    }
  }

  /** Enough presses of next reach the last window from anywhere in range. */
  lemma {:induction false} NextReachesEnd(p: int, maxPosition: int, n: nat)
    requires 0 <= p <= maxPosition && p + n >= maxPosition
    ensures Presses(p, maxPosition, seq(n, i => true)) == maxPosition
    decreases n
  {
    if n > 0 {
      assert seq(n, i => true)[1..] == seq(n - 1, i => true);
      NextReachesEnd(NextPosition(p, maxPosition), maxPosition, n - 1);
    } else {
      assert seq(n, i => true) == [];
    }
  }

  /** The strip's `translateX`, in percent to the left. */
  function Offset(p: int, isMobile: bool): (r: int)
    ensures p >= 0 ==> r >= 0
    ensures r == 0 <==> p == 0
  {
    p * SlideWidth(isMobile)
  }

  class Strip {
    var position: int
    var maxPosition: int

    ghost predicate Valid()
      reads this
    {
      0 <= position && 0 <= maxPosition
    }

    constructor ()
      ensures Valid() && position == 0 && maxPosition == 0
    {
      position, maxPosition := 0, 0;
    }

    /** The effect run when the products arrive or the layout changes; the position is not clamped. */
    method SetProducts(count: nat, isMobile: bool)
      requires Valid()
      modifies this`maxPosition
      ensures Valid()
      ensures maxPosition == MaxPositionFor(count, isMobile)
    {
      maxPosition := Max(0, count - Visible(isMobile));
    }

    method Prev()
      requires Valid()
      modifies this`position
      ensures Valid()
      ensures position == PrevPosition(old(position))
    {
      position := Max(0, position - 1);
    }

    /** `handleNext`; from a position past the end it pulls the strip back to `maxPosition`. */
    method Next()
      requires Valid()
      modifies this`position
      ensures Valid()
      ensures position == NextPosition(old(position), maxPosition)
    {
      position := Min(maxPosition, position + 1);
    }
  }

  /**
    On the last window the final products are the ones shown: the window starts at
    `maxPosition` and ends with the list.
  */
  lemma LastWindowEndsWithList(count: nat, isMobile: bool)
    requires count >= Visible(isMobile)
    ensures MaxPositionFor(count, isMobile) + Visible(isMobile) == count
    ensures Offset(MaxPositionFor(count, isMobile), isMobile) + 100 == count * SlideWidth(isMobile)
  {
    var v := Visible(isMobile);
    var w := SlideWidth(isMobile);
    var m := MaxPositionFor(count, isMobile);
    assert (m + v) * w == m * w + v * w;
  }
}
