/**
 * The hero carousel (`HeroSlider` in src/App.jsx): the index of the slide on
 * show, advanced by a 5-second interval and set by the indicator buttons.
 */
module Hero {

  /** `slides.length`: the carousel has three slides. */
  const SlideCount: nat := 3

  /** The interval's update `(prev + 1) % slides.length`: the next slide, wrapping after the last. */
  function Next(i: nat): (j: nat)
    requires i < SlideCount
    ensures j < SlideCount
    ensures i < SlideCount - 1 ==> j == i + 1
    ensures i == SlideCount - 1 ==> j == 0
  {
    (i + 1) % SlideCount
  }

  /** The slide on show after `k` ticks of the interval, starting from slide `i`. */
  function AfterTicks(i: nat, k: nat): (j: nat)
    requires i < SlideCount
    ensures j < SlideCount
  {
    if k == 0 then i else Next(AfterTicks(i, k - 1))
  }

  /** `k` ticks move the carousel `k` slides on, modulo the slide count. */
  lemma {:induction false} AfterTicksIsModulo(i: nat, k: nat)
    requires i < SlideCount
    ensures AfterTicks(i, k) == (i + k) % SlideCount
  {
    if k > 0 {
      AfterTicksIsModulo(i, k - 1);
      var p := AfterTicks(i, k - 1);
      assert p == (i + k - 1) % SlideCount;
      assert (p + 1) % SlideCount == (i + k) % SlideCount;
    }
  }

  /** After one full round of ticks the carousel is back where it was. */
  lemma FullRoundReturns(i: nat)
    requires i < SlideCount
    ensures AfterTicks(i, SlideCount) == i
  {
    AfterTicksIsModulo(i, SlideCount);
  }

  /** Starting from the first slide, every slide is on show within one round. */
  lemma EverySlideShown(j: nat)
    requires j < SlideCount
    ensures AfterTicks(0, j) == j
  {
    AfterTicksIsModulo(0, j);
  }

  class HeroSlider {
    /** `currentSlide`. */
    var current: nat

    ghost predicate Valid()
      reads this
    {
      current < SlideCount
    }

    /** `useState(0)`: the first slide. */
    constructor ()
      ensures Valid() && current == 0
    {
      current := 0;
    }

    /** One tick of the 5-second interval. */
    method Advance()
      requires Valid()
      modifies this
      ensures Valid()
      ensures current == Next(old(current))
    {
      current := (current + 1) % SlideCount;
    }

    /** An indicator button: `setCurrentSlide(index)`, for the index of one of the slides. */
    method Select(index: nat)
      requires index < SlideCount
      modifies this
      ensures Valid()
      ensures current == index
    {
      current := index;
    }
  }
}
