/**
  The home-page banner carousel of client/src/components/home/hero-banner.tsx: three fixed
  banners, the current slide, and the animation lock that makes a second move ignored until
  the first one's animation has finished.

  The two timers are events here: the 500 ms `setTimeout` is `AnimationEnd`. The 5 s
  `setInterval` callback, as written, consults the lock its closure captured when the slide
  last changed, which is always set after the first move: `StaleTick` models that, and
  `RotationStallsAfterOneMove` shows the rotation stopping. The class below runs each tick as
  evidently intended, as a call of `NextSlide` that consults the live lock (`Tick`).
*/
module HeroBanner {
  import Storage

  datatype Banner = Banner(id: int, title: string, description: string, buttonText: string, imageUrl: string, link: string)

  const SummerBannerImage := "https://images.pexels.com/photos/934070/pexels-photo-934070.jpeg?auto=compress&cs=tinysrgb&w=1600"
  const WinterBannerImage := "https://images.pexels.com/photos/1030946/pexels-photo-1030946.jpeg?auto=compress&cs=tinysrgb&w=1600"
  const PartyBannerImage := "https://images.pexels.com/photos/1488463/pexels-photo-1488463.jpeg?auto=compress&cs=tinysrgb&w=1600"

  const CategoryPrefix := "/category/"

  /** The `banners` array, in display order. */
  function Banners(): (r: seq<Banner>)
    ensures |r| == 3
    ensures forall i :: 0 <= i < 3 ==> r[i].id == i + 1
  {
    [ Banner(1, "New Summer Collection", "Discover the latest trends for the season", "Shop Now",
             SummerBannerImage, CategoryPrefix + "summer-articles"),
      Banner(2, "Winter Collection", "Stay warm with our stylish winter wear", "Explore Now",
             WinterBannerImage, CategoryPrefix + "winter-articles"),
      Banner(3, "Party Wear Collection", "Make a statement at your next event", "View Collection",
             PartyBannerImage, CategoryPrefix + "party-wear") ]
  }

  /** Each banner links to the category page of the seeded category with the same position. */
  lemma BannerLinksAreSeededCategories(i: nat)
    requires i < 3
    ensures Banners()[i].link == CategoryPrefix + Storage.SeedCategories()[i].1
  {
  }

  /** `nextSlide`'s index. */
  function NextIndex(i: int): (r: int)
    requires 0 <= i < |Banners()|
    ensures 0 <= r < |Banners()|
    ensures i < |Banners()| - 1 ==> r == i + 1
    ensures i == |Banners()| - 1 ==> r == 0
  {
    (i + 1) % |Banners()|
  }

  /**
    `prevSlide`'s index. The dividend `i - 1 + n` is never negative here, so Dafny's `%` and
    JavaScript's agree.
  */
  function PrevIndex(i: int): (r: int)
    requires 0 <= i < |Banners()|
    ensures 0 <= r < |Banners()|
    ensures i > 0 ==> r == i - 1
    ensures i == 0 ==> r == |Banners()| - 1
  {
    (i - 1 + |Banners()|) % |Banners()|
  }

  /** Previous undoes next and next undoes previous. */
  lemma PrevUndoesNext(i: int)
    requires 0 <= i < |Banners()|
    ensures PrevIndex(NextIndex(i)) == i
    ensures NextIndex(PrevIndex(i)) == i
  {
  }

  /** The slide reached from `i` after `n` accepted moves forward. */
  function Advance(i: int, n: nat): (r: int)
    requires 0 <= i < |Banners()|
    ensures 0 <= r < |Banners()|
  {
    if n == 0 then i else NextIndex(Advance(i, n - 1))
  }

  /** `n` moves forward land on `(i + n) mod 3`. */
  lemma {:induction false} AdvanceIsModular(i: int, n: nat)
    requires 0 <= i < |Banners()|
    ensures Advance(i, n) == (i + n) % |Banners()|
  {
    if n > 0 {
      AdvanceIsModular(i, n - 1);
    }
  }

  /** A full round of three moves forward comes back to the starting slide. */
  lemma FullRound(i: int)
    requires 0 <= i < |Banners()|
    ensures Advance(i, |Banners()|) == i
    ensures forall n: nat :: 0 < n < |Banners()| ==> Advance(i, n) != i
  {
    AdvanceIsModular(i, 3);
    AdvanceIsModular(i, 1);
    AdvanceIsModular(i, 2);
  }

  /**
    The carousel as the interval callback sees it: the slide, the live lock, and the lock
    captured by the callback. The effect that installs the interval re-runs only when the
    slide changes, in the render that the move produced, where the lock is already set; the
    lock's release re-renders without re-installing the interval.
  */
  datatype Carousel = Carousel(slide: int, animating: bool, tickSeesAnimating: bool)

  predicate InRange(c: Carousel) {
    0 <= c.slide < |Banners()|
  }

  /** The first render: slide 0, no lock, and an interval whose closure saw no lock. */
  const Start := Carousel(0, false, false)

  /**
    `goToSlide` from a closure that sees `locked`: a move sets the lock. Only a change of
    slide re-runs the effect, whose new interval captures that lock; a move to the slide
    already shown keeps the interval and what its closure saw.
  */
  function MoveSeeing(c: Carousel, locked: bool, index: int): (r: Carousel)
    ensures locked ==> r == c
    ensures !locked ==> r.slide == index && r.animating
    ensures !locked ==> (r.tickSeesAnimating <==> index != c.slide || c.tickSeesAnimating)
  {
    if locked then c
    else if index == c.slide then c.(animating := true)
    else Carousel(index, true, true)
  }

  /** The 500 ms timeout: the live lock is released; the interval's closure is not renewed. */
  function Release(c: Carousel): (r: Carousel)
    ensures r.slide == c.slide && !r.animating && r.tickSeesAnimating == c.tickSeesAnimating
    ensures InRange(r) <==> InRange(c)
  {
    c.(animating := false)
  }

  /** The interval callback as written: `nextSlide` with the lock its closure captured. */
  function StaleTick(c: Carousel): (r: Carousel)
    requires InRange(c)
    ensures InRange(r)
    ensures c.tickSeesAnimating ==> r == c
  {
    MoveSeeing(c, c.tickSeesAnimating, NextIndex(c.slide))
  }

  /** The tick evidently intended: `nextSlide` checked against the live lock. */
  function Tick(c: Carousel): (r: Carousel)
    requires InRange(c)
    ensures InRange(r)
    ensures c.animating ==> r == c
    ensures !c.animating ==> r.slide == NextIndex(c.slide) && r.animating
  {
    MoveSeeing(c, c.animating, NextIndex(c.slide))
  }

  /** `n` periods of the interval as written, each tick followed by the release of its lock. */
  function RotateAsWritten(c: Carousel, n: nat): (r: Carousel)
    requires InRange(c)
    ensures InRange(r)
  {
    if n == 0 then c else Release(StaleTick(RotateAsWritten(c, n - 1)))
  }

  /** `n` periods of the intended interval. */
  function Rotate(c: Carousel, n: nat): (r: Carousel)
    requires InRange(c)
    ensures InRange(r)
  {
    if n == 0 then c else Release(Tick(Rotate(c, n - 1)))
  }

  /** As intended, a carousel left alone moves one slide per period: after `n` it shows `(i + n) mod 3`. */
  lemma {:induction false} RotateAdvances(c: Carousel, n: nat)
    requires InRange(c) && !c.animating
    ensures Rotate(c, n).slide == Advance(c.slide, n) && !Rotate(c, n).animating
  {
    if n > 0 {
      RotateAdvances(c, n - 1);
    }
  }

  /**
    As written, a carousel left alone moves at most once: the first tick moves only if its
    closure saw no lock, and every later tick sees the lock that move set.
  */
  lemma {:induction false} RotationStallsAfterOneMove(c: Carousel, n: nat)
    requires InRange(c) && n >= 1
    ensures RotateAsWritten(c, n).slide == (if c.tickSeesAnimating then c.slide else NextIndex(c.slide))
    ensures RotateAsWritten(c, n).tickSeesAnimating
  {
    if n > 1 {
      RotationStallsAfterOneMove(c, n - 1);
    }
  }

  /** A move to another slide, by an arrow or a dot, stops the rotation as written for good. */
  lemma MoveStopsRotation(c: Carousel, index: int, n: nat)
    requires InRange(c) && !c.animating && 0 <= index < |Banners()| && index != c.slide
    ensures RotateAsWritten(Release(MoveSeeing(c, c.animating, index)), n).slide == index
  {
    if n >= 1 {
      RotationStallsAfterOneMove(Release(MoveSeeing(c, c.animating, index)), n);
    }
  }

  /**
    A click on the dot of the slide already shown leaves the interval as it was: once the
    lock is released, the rotation as written goes on exactly as it would have from `c`.
  */
  lemma SameDotKeepsRotation(c: Carousel, n: nat)
    requires InRange(c) && !c.animating
    ensures RotateAsWritten(Release(MoveSeeing(c, c.animating, c.slide)), n) == RotateAsWritten(c, n)
  {
    assert Release(MoveSeeing(c, c.animating, c.slide)) == c;
  }

  /** Ten seconds on a fresh page: two ticks show the second banner, not the third. */
  lemma TwoTicksFromStart()
    ensures RotateAsWritten(Start, 2).slide == 1
    ensures Rotate(Start, 2).slide == 2
  {
    RotationStallsAfterOneMove(Start, 2);
    RotateAdvances(Start, 2);
  }

  /** The component's state: `currentSlide` starts at 0 and `isAnimating` at false. */
  class Slider {
    var currentSlide: int
    var isAnimating: bool

    ghost predicate Valid()
      reads this
    {
      0 <= currentSlide < |Banners()|
    }

    constructor ()
      ensures Valid() && currentSlide == 0 && !isAnimating
    {
      currentSlide, isAnimating := 0, false;
    }

    /**
      `goToSlide`: ignored while a move is animating; otherwise moves to `index` and locks
      until `AnimationEnd`. The dots pass indices of `banners`, and so do next and previous.
    */
    method GoToSlide(index: int)
      requires Valid() && 0 <= index < |Banners()|
      modifies this
      ensures Valid()
      ensures old(isAnimating) ==> currentSlide == old(currentSlide) && isAnimating
      ensures !old(isAnimating) ==> currentSlide == index && isAnimating
    {
      if isAnimating {
        return;
      }
      isAnimating := true;
      currentSlide := index;
    }

    method NextSlide()
      requires Valid()
      modifies this
      ensures Valid()
      ensures old(isAnimating) ==> currentSlide == old(currentSlide) && isAnimating
      ensures !old(isAnimating) ==> currentSlide == NextIndex(old(currentSlide)) && isAnimating
    {
      GoToSlide(NextIndex(currentSlide));
    }

    method PrevSlide()
      requires Valid()
      modifies this
      ensures Valid()
      ensures old(isAnimating) ==> currentSlide == old(currentSlide) && isAnimating
      ensures !old(isAnimating) ==> currentSlide == PrevIndex(old(currentSlide)) && isAnimating
    {
      GoToSlide(PrevIndex(currentSlide));
    }

    /** The 500 ms timeout: the lock is released and the slide stays. */
    method AnimationEnd()
      requires Valid()
      modifies this`isAnimating
      ensures Valid() && !isAnimating
    {
      isAnimating := false;
    }
  }
}
