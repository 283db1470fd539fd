/**
 * The scroll listeners: the navbar turns solid past 100 pixels of scroll
 * and the scroll-to-top button shows past 300; clicking the button
 * scrolls back to the top.
 */
module ScrollEffects {

  const SolidNavbarOffset: real := 100.0
  const ScrollTopButtonOffset: real := 300.0

  datatype NavbarStyle = Solid | Translucent

  /** The navbar background the scroll handler applies at a vertical offset. */
  function NavbarStyleAt(offset: real): (s: NavbarStyle)
    ensures s == Solid <==> offset > SolidNavbarOffset
  {
    if offset > SolidNavbarOffset then Solid else Translucent
  }

  /** Whether the scroll-to-top button is displayed at a vertical offset. */
  function ScrollTopButtonShownAt(offset: real): (shown: bool)
    ensures shown <==> offset > ScrollTopButtonOffset
  {
    offset > ScrollTopButtonOffset
  }

  /** Whenever the button is shown the navbar is already solid; scrolling further down never reverts either. */
  lemma ScrollThresholdsNest(offset: real, further: real)
    requires offset <= further
    ensures ScrollTopButtonShownAt(offset) ==> NavbarStyleAt(offset) == Solid
    ensures NavbarStyleAt(offset) == Solid ==> NavbarStyleAt(further) == Solid
    ensures ScrollTopButtonShownAt(offset) ==> ScrollTopButtonShownAt(further)
  {
  }

  /** The scroll-to-top button's click target. */
  const ScrollTopTarget: int := 0

  /** What the two scroll listeners leave behind. */
  class ScrollState {
    var navbar: NavbarStyle
    var scrollTopShown: bool
    var lastScroll: real

    constructor ()
      ensures navbar == Translucent && !scrollTopShown && lastScroll == 0.0
    {
      navbar, scrollTopShown, lastScroll := Translucent, false, 0.0;
    }

    method OnScroll(offset: real)
      modifies this
      ensures navbar == NavbarStyleAt(offset)
      ensures scrollTopShown == ScrollTopButtonShownAt(offset)
      ensures lastScroll == offset
    {
      if offset > SolidNavbarOffset {
        navbar := Solid;
      } else {
        navbar := Translucent;
      }
      lastScroll := offset;
      scrollTopShown := offset > ScrollTopButtonOffset;
    }
  }

  /** Scrolling from 99 to 101 makes the navbar solid; scrolling back reverts it. */
  method NavbarFlipsAtThreshold() returns (at101: NavbarStyle, backAt99: NavbarStyle)
    ensures at101 == Solid && backAt99 == Translucent
  {
    var state := new ScrollState();
    state.OnScroll(99.0);
    state.OnScroll(101.0);
    at101 := state.navbar;
    state.OnScroll(99.0);
    backAt99 := state.navbar;
  }
}
