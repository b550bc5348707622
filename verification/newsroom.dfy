/**
 * The newsroom's event carousel: the upcoming events are shown two to a
 * slide; the arrows step through the slides with wrap-around and appear only
 * when there is more than one slide.
 */
module Newsroom {
  import opened Seqs
  import Carousel

  const EventsPerSlide: nat := 2

  /** `Math.ceil(events / eventsPerSlide)`: the fewest slides that hold every event. */
  function TotalSlides(events: nat): (t: nat)
    ensures EventsPerSlide * t >= events
    ensures t > 0 ==> EventsPerSlide * (t - 1) < events
  {
    (events + EventsPerSlide - 1) / EventsPerSlide
  }

  /** The events on slide `i`: `events.slice(i * 2, (i + 1) * 2)`. */
  function SlideEvents<E>(events: seq<E>, i: nat): seq<E>
  {
    Slice(events, i * EventsPerSlide, (i + 1) * EventsPerSlide)
  }

  /** Every slide holds one or two events, the ones at positions `2i` and `2i + 1`. */
  lemma SlideContents<E>(events: seq<E>, i: nat)
    requires i < TotalSlides(|events|)
    ensures 1 <= |SlideEvents(events, i)| <= EventsPerSlide
    ensures SlideEvents(events, i) == events[2 * i..if 2 * i + 2 <= |events| then 2 * i + 2 else |events|]
  {
  }

  /** The slides drawn: `Array.from({ length: totalSlides })`, each with its events. */
  function Slides<E>(events: seq<E>): (slides: seq<seq<E>>)
    ensures |slides| == TotalSlides(|events|)
  {
    seq(TotalSlides(|events|), i requires 0 <= i < TotalSlides(|events|) => SlideEvents(events, i))
  }

  /** The slides one after the other. */
  function Flatten<E>(slides: seq<seq<E>>): seq<E>
  {
    if slides == [] then [] else Flatten(slides[..|slides| - 1]) + slides[|slides| - 1]
  }

  /** The first `k` slides hold exactly the first `2k` events (or all of them). */
  lemma {:induction false} FlattenPrefix<E>(events: seq<E>, k: nat)
    requires k <= TotalSlides(|events|)
    ensures Flatten(Slides(events)[..k]) == events[..if 2 * k <= |events| then 2 * k else |events|]
  {
    if k > 0 {
      FlattenPrefix(events, k - 1);
      var slides := Slides(events)[..k];
      assert slides[..k - 1] == Slides(events)[..k - 1];
      SlideContents(events, k - 1);
      assert 2 * (k - 1) <= |events|;
    }
  }

  /** The slides partition the events: together, in order, each event exactly once. */
  lemma SlidesPartition<E>(events: seq<E>)
    ensures Flatten(Slides(events)) == events
  {
    var t := TotalSlides(|events|);
    FlattenPrefix(events, t);
    assert Slides(events)[..t] == Slides(events);
  }

  /** The arrows and the counter appear when `totalSlides > 1`: with three events or more. */
  predicate ShowsControls(events: nat)
  {
    TotalSlides(events) > 1
  }

  lemma ControlsNeedThreeEvents(events: nat)
    ensures ShowsControls(events) <==> events > EventsPerSlide
  {
  }
}
