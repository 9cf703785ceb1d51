/** The hero banner's scroll parallax: while the page is scrolled less than
    800 px, the background moves at half the scroll speed; further down the
    handler leaves it where it was. */
module Hero {
  import opened Common

  const ParallaxLimit: real := 800.0
  const ParallaxFactor: real := 0.5

  /** The `background-position-y` a scroll event sets, if any. */
  function ParallaxOffset(scrollY: real): Option<real>
  {
    if scrollY < ParallaxLimit then Some(scrollY * ParallaxFactor) else None
  }

  /** Within the active range the background moves at half the scroll speed:
      the offset never goes down as the page scrolls, stays in [0, 400) px,
      and two positions' offsets differ by half their distance. */
  lemma ParallaxOffsetMonotone(s1: real, s2: real)
    requires 0.0 <= s1 <= s2 < ParallaxLimit
    ensures ParallaxOffset(s1).Some? && ParallaxOffset(s2).Some?
    ensures 0.0 <= ParallaxOffset(s1).value <= ParallaxOffset(s2).value < ParallaxLimit * ParallaxFactor
    ensures 2.0 * (ParallaxOffset(s2).value - ParallaxOffset(s1).value) == s2 - s1
  {
  }

  class HeroBackground {
    /** Whether `#hero` exists; without it the handler throws before setting anything. */
    const hasHero: bool
    /** The inline `background-position-y`, once set. */
    var positionY: Option<real>

    constructor (hasHero: bool)
      ensures this.hasHero == hasHero && positionY == None
    {
      this.hasHero := hasHero;
      positionY := None;
    }

    /** The window's `scroll` event with `window.scrollY == scrollY`. */
    method OnScroll(scrollY: real)
      modifies this
      ensures hasHero && scrollY < ParallaxLimit ==> positionY == Some(scrollY * ParallaxFactor)
      ensures !hasHero || scrollY >= ParallaxLimit ==> positionY == old(positionY)
    {
      var offset := ParallaxOffset(scrollY);
      if hasHero && offset.Some? {
        positionY := offset;
      }
    }
  }
}
