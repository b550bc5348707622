/**
 * The awards carousel: one award per slide, arrows that step through them
 * with wrap-around, and one dot per award that jumps to it. The arrows and
 * the dots are drawn only when there is more than one award.
 */
module AwardsCarousel {
  import Carousel

  /** What is drawn around the slides: nothing, or the arrows and one dot per award (true for the current one). */
  datatype Controls = NoControls | ArrowsAndDots(dots: seq<bool>)

  /** The controls for `count` awards while award `idx` is shown. */
  function ControlsFor(count: nat, idx: nat): (c: Controls)
    ensures c.ArrowsAndDots? <==> count > 1
    ensures c.ArrowsAndDots? ==> |c.dots| == count
    ensures c.ArrowsAndDots? ==> forall k :: 0 <= k < count ==> (c.dots[k] <==> k == idx)
  {
    if count > 1 then ArrowsAndDots(seq(count, k => k == idx)) else NoControls
  }

  /** Dot `k` sets the index to `k`: afterwards that dot, and only that one, is highlighted. */
  function ClickDot(count: nat, k: nat): (idx: nat)
    requires k < count
    ensures idx < count
    ensures count > 1 ==>
      (ControlsFor(count, idx).dots[k] && forall d :: 0 <= d < count && d != k ==> !ControlsFor(count, idx).dots[d])
  {
    k
  }
}
