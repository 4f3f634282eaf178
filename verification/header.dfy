/** The header's `scrolled` class on both kinds of page. The main page adds
    it past 30 pixels of vertical scroll and also runs its handler once at
    load; the product pages add it past 50 pixels and run theirs only on
    scroll events. */
module HeaderScroll {
  import opened Dom

  const Scrolled: string := "scrolled"

  /** Threshold of the main page's handler, in pixels. */
  const MainPageThreshold: real := 30.0
  /** Threshold of the product pages' handler, in pixels. */
  const ProductPageThreshold: real := 50.0

  /** One run of a scroll handler with the page's threshold. */
  function HandleScroll(header: ClassList, scrollY: real, threshold: real): (r: ClassList)
    ensures Scrolled in r <==> scrollY > threshold
    ensures r - {Scrolled} == header - {Scrolled}
  {
    if scrollY > threshold then Add(header, Scrolled) else Remove(header, Scrolled)
  }

  /** `handleHeaderScroll` of the main page. */
  function MainPageScroll(header: ClassList, scrollY: real): (r: ClassList)
    ensures Scrolled in r <==> scrollY > 30.0
    ensures r - {Scrolled} == header - {Scrolled}
  {
    HandleScroll(header, scrollY, MainPageThreshold)
  }

  /** The scroll listener of the product pages. */
  function ProductPageScroll(header: ClassList, scrollY: real): (r: ClassList)
    ensures Scrolled in r <==> scrollY > 50.0
    ensures r - {Scrolled} == header - {Scrolled}
  {
    HandleScroll(header, scrollY, ProductPageThreshold)
  }

  /** The handler only reads the scroll position: running it again at the
      same position changes nothing. */
  lemma HandleScrollIdempotent(header: ClassList, scrollY: real, threshold: real)
    ensures HandleScroll(HandleScroll(header, scrollY, threshold), scrollY, threshold)
            == HandleScroll(header, scrollY, threshold)
  {
  }

  /** The header after one handler run per scroll position, in order. */
  function AfterScrolls(header: ClassList, positions: seq<real>, threshold: real): ClassList
    decreases |positions|
  {
    if |positions| == 0 then header
    else AfterScrolls(HandleScroll(header, positions[0], threshold), positions[1..], threshold)
  }

  /** After any run of scroll events only the latest position matters: the
      class is present exactly when it exceeds the threshold, and no other
      class is touched. With no events the header is as it was. */
  lemma {:induction false} LatestScrollWins(header: ClassList, positions: seq<real>, threshold: real)
    ensures |positions| == 0 ==> AfterScrolls(header, positions, threshold) == header
    ensures |positions| > 0 ==>
              (Scrolled in AfterScrolls(header, positions, threshold) <==>
               positions[|positions| - 1] > threshold)
    ensures AfterScrolls(header, positions, threshold) - {Scrolled} == header - {Scrolled}
    decreases |positions|
  {
    if |positions| > 0 {
      var next := HandleScroll(header, positions[0], threshold);
      LatestScrollWins(next, positions[1..], threshold);
      if |positions| > 1 {
        assert positions[1..][|positions[1..]| - 1] == positions[|positions| - 1];
      }
    }
  }

  /** The main page's header over a page lifetime: the handler runs once at
      load with the load-time position, then once per scroll event. */
  function MainPageLifetime(header: ClassList, atLoad: real, positions: seq<real>): ClassList
  {
    AfterScrolls(MainPageScroll(header, atLoad), positions, MainPageThreshold)
  }

  /** On the main page `scrolled` reflects the most recent position seen,
      the load-time one when nobody has scrolled since. */
  lemma MainPageReflectsLatest(header: ClassList, atLoad: real, positions: seq<real>)
    ensures var latest := if |positions| == 0 then atLoad else positions[|positions| - 1];
            Scrolled in MainPageLifetime(header, atLoad, positions) <==> latest > 30.0
    ensures MainPageLifetime(header, atLoad, positions) - {Scrolled} == header - {Scrolled}
  {
    LatestScrollWins(MainPageScroll(header, atLoad), positions, MainPageThreshold);
  }

  /** On a product page `scrolled` reflects the most recent scroll event's
      position over 50 pixels, and before any scroll event the header keeps
      the classes of its markup. */
  lemma ProductPageReflectsLatest(header: ClassList, positions: seq<real>)
    ensures |positions| == 0 ==> AfterScrolls(header, positions, ProductPageThreshold) == header
    ensures |positions| > 0 ==>
              (Scrolled in AfterScrolls(header, positions, ProductPageThreshold) <==>
               positions[|positions| - 1] > 50.0)
  {
    LatestScrollWins(header, positions, ProductPageThreshold);
  }
}
