/**
 * Deferred image loading: an image carrying `data-src` is observed, and on
 * its first intersection the placeholder value becomes its `src`, the
 * attribute is removed and the image is no longer observed.
 */
module LazyImages {
  import opened Wrappers

  class LazyImage {
    var src: Option<string>
    var dataSrc: Option<string>
    var observed: bool

    /** Only an image that still has its placeholder can be observed. */
    ghost predicate Valid()
      reads this
    {
      observed ==> dataSrc.Some?
    }

    /**
     * Page set-up: `img[data-src]` elements are observed, and only when the
     * browser offers IntersectionObserver at all.
     */
    constructor (src: Option<string>, dataSrc: Option<string>, observerAvailable: bool)
      ensures Valid()
      ensures this.src == src && this.dataSrc == dataSrc
      ensures observed == (observerAvailable && dataSrc.Some?)
    {
      this.src := src;
      this.dataSrc := dataSrc;
      observed := observerAvailable && dataSrc.Some?;
    }

    /**
     * The image observer's callback for this image. An empty `data-src` is
     * falsy, so such an image is neither promoted nor unobserved.
     */
    method OnIntersection(isIntersecting: bool) returns (promoted: bool)
      requires Valid()
      modifies this
      ensures Valid()
      ensures promoted <==> old(observed) && isIntersecting && old(dataSrc).Some? && old(dataSrc).value != ""
      ensures promoted ==> src == old(dataSrc) && dataSrc == None && !observed
      ensures !promoted ==> src == old(src) && dataSrc == old(dataSrc) && observed == old(observed)
    {
      promoted := false;
      if observed && isIntersecting {
        if dataSrc.value != "" {
          src := dataSrc;
          dataSrc := None;
          observed := false;
          promoted := true;
        }
      }
    }
  }

  /** An image is promoted at most once: later intersections change nothing. */
  method PromotedOnce(url: string) returns (first: bool, second: bool, src: Option<string>)
    requires url != ""
    ensures first && !second && src == Some(url)
  {
    var img := new LazyImage(None, Some(url), true);
    first := img.OnIntersection(true);
    second := img.OnIntersection(true);
    src := img.src;
  }
}
