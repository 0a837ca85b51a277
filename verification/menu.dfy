/**
 * The mobile-menu disclosure of `initializeMobileMenu`, at settled states: the panel's
 * `hidden` class and the toggle button's bars/times icon.
 */
module Menu {

  datatype MenuIcon = Bars | Times

  datatype MobileMenu = MobileMenu(hidden: bool, icon: MenuIcon)

  /** The state the markup starts in. */
  const Closed: MobileMenu := MobileMenu(true, Bars)

  /** The close icon shows exactly while the menu is open. */
  predicate IconMatches(m: MobileMenu) {
    m.icon == Times <==> !m.hidden
  }

  /** The toggle button: opens a hidden menu, otherwise closes it; the icon follows. */
  function Toggle(m: MobileMenu): (r: MobileMenu)
    ensures r.hidden == !m.hidden
    ensures IconMatches(r)
  {
    if m.hidden then MobileMenu(false, Times) else MobileMenu(true, Bars)
  }

  /** A click on a link inside the menu: closed with the bars icon, from either state. */
  function LinkClick(m: MobileMenu): (r: MobileMenu)
    ensures r == Closed
  {
    MobileMenu(true, Bars)
  }

  /** Two toggles give back a consistent state; a link click after opening closes again. */
  lemma ToggleTwiceRestores(m: MobileMenu)
    requires IconMatches(m)
    ensures Toggle(Toggle(m)) == m
    ensures LinkClick(Toggle(Closed)) == Closed
  {
  }
}
