/**
 * The navigation controller: the mobile menu toggle, the close on any
 * menu-link click, and in-page anchor links that scroll their target to
 * 80 pixels below the top of the viewport, clearing the fixed header.
 */
module Navigation {
  import opened Wrappers

  /** Height kept clear above an anchor's target. */
  const HeaderOffset: int := 80

  /** The `active` classes of the toggle button and of the menu panel. */
  class Menu {
    var menuActive: bool
    var toggleActive: bool

    /** The two flags only ever change together: the menu is open or closed. */
    ghost predicate Valid()
      reads this
    {
      menuActive == toggleActive
    }

    constructor ()
      ensures Valid() && !menuActive && !toggleActive
    {
      menuActive, toggleActive := false, false;
    }

    predicate IsOpen()
      reads this
    {
      menuActive
    }

    /** A click on `.mobile-menu-toggle` toggles both classes. */
    method Toggle()
      requires Valid()
      modifies this
      ensures Valid()
      ensures menuActive == !old(menuActive) && toggleActive == !old(toggleActive)
    {
      menuActive := !menuActive;
      toggleActive := !toggleActive;
    }

    /** A click on any `.nav-menu a` removes both classes. */
    method CloseFromLink()
      requires Valid()
      modifies this
      ensures Valid() && !menuActive && !toggleActive
    {
      menuActive := false;
      toggleActive := false;
    }
  }

  /** Toggling twice restores the menu; closing twice is the same as closing once. */
  method ToggleTwiceThenCloseTwice(openAtStart: bool) returns (afterToggles: bool, afterCloses: bool)
    ensures afterToggles == openAtStart && !afterCloses
  {
    var menu := new Menu();
    if openAtStart {
      menu.Toggle();
    }
    menu.Toggle();
    menu.Toggle();
    afterToggles := menu.IsOpen();
    menu.CloseFromLink();
    menu.CloseFromLink();
    afterCloses := menu.IsOpen();
  }

  /** What a click on an `a[href^="#"]` does. */
  datatype AnchorAction =
    | FollowLink                       // the browser's own handling of `#`
    | Prevented(scrollTo: Option<int>) // navigation cancelled; smooth scroll to a top offset, if any

  /**
   * The anchor click handler, given the top offset of the element `href`
   * selects (None when there is no such element).
   */
  function AnchorClick(href: string, targetTop: Option<int>): (a: AnchorAction)
    requires |href| > 0 && href[0] == '#'
    ensures a == FollowLink <==> href == "#"
    ensures a.Prevented? ==> (a.scrollTo.Some? <==> targetTop.Some?)
    ensures a.Prevented? && targetTop.Some? ==> a.scrollTo.value + HeaderOffset == targetTop.value
  {
    if href == "#" then FollowLink
    else match targetTop
      case None => Prevented(None)
      case Some(top) => Prevented(Some(top - HeaderOffset))
  }
}
