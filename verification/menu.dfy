/** The mobile navigation menu. On the main page a click on the menu button
    flips `active` on the navigation links. On the product pages the button
    flips `active` on itself and on the links and swaps its Material icon
    text between `menu` and `close`; a click on any link inside the
    navigation clears `active` on both. */
module MobileMenu {
  import opened Dom

  const Active: string := "active"
  const MenuIcon: string := "menu"
  const CloseIcon: string := "close"

  /** Main page: the button's click handler on the links' class list. */
  function MainMenuClick(navLinks: ClassList): (r: ClassList)
    ensures Active in r <==> Active !in navLinks
    ensures r - {Active} == navLinks - {Active}
  {
    Toggle(navLinks, Active)
  }

  /** Two clicks on the main page's menu button restore the links. */
  lemma MainMenuClickTwice(navLinks: ClassList)
    ensures MainMenuClick(MainMenuClick(navLinks)) == navLinks
  {
  }

  /** The product pages' `.mobile-menu-toggle` button: its classes and the
      text of its `.material-icons` child, when it has one. */
  datatype MenuButton = MenuButton(classes: ClassList, icon: Option<string>)

  /** The part of a product page the menu code reaches: the button and the
      `.nav-links` element, each of which the page may lack. */
  datatype Nav = Nav(button: Option<MenuButton>, links: Option<ClassList>)

  /** The icon swap: `menu` becomes `close`, any other text becomes `menu`. */
  function NextIcon(text: string): (r: string)
    ensures r == CloseIcon <==> text == MenuIcon
    ensures r == MenuIcon <==> text != MenuIcon
  {
    if text == MenuIcon then CloseIcon else MenuIcon
  }

  function ToggleIfPresent(cl: Option<ClassList>, name: string): Option<ClassList>
  {
    match cl
    case None => None
    case Some(c) => Some(Toggle(c, name))
  }

  /** A click on the menu button (`toggleMobileMenu`). Without a button no
      listener is registered and nothing happens. */
  function ToggleMobileMenu(nav: Nav): (r: Nav)
    ensures nav.button.None? ==> r == nav
    ensures nav.button.Some? ==>
              && r.button.Some?
              && (Active in r.button.value.classes <==> Active !in nav.button.value.classes)
              && r.button.value.classes - {Active} == nav.button.value.classes - {Active}
              && r.button.value.icon.Some? == nav.button.value.icon.Some?
              && (nav.button.value.icon.Some? ==>
                    r.button.value.icon.value == (if nav.button.value.icon.value == MenuIcon then CloseIcon else MenuIcon))
              && r.links.Some? == nav.links.Some?
              && (nav.links.Some? ==>
                    (Active in r.links.value <==> Active !in nav.links.value)
                    && r.links.value - {Active} == nav.links.value - {Active})
  {
    match nav.button
    case None => nav
    case Some(b) =>
      var icon := match b.icon
        case None => None
        case Some(t) => Some(NextIcon(t));
      Nav(Some(MenuButton(Toggle(b.classes, Active), icon)), ToggleIfPresent(nav.links, Active))
  }

  /** A click on a navigation link. Links exist only inside `.nav-links`, so
      without it there is no link to click and nothing happens. */
  function LinkClick(nav: Nav): (r: Nav)
    ensures nav.links.None? ==> r == nav
    ensures nav.links.Some? ==>
              && r.links.Some? && Active !in r.links.value
              && r.links.value - {Active} == nav.links.value - {Active}
              && r.button.Some? == nav.button.Some?
              && (nav.button.Some? ==>
                    Active !in r.button.value.classes
                    && r.button.value.classes - {Active} == nav.button.value.classes - {Active}
                    && r.button.value.icon == nav.button.value.icon)
  {
    match nav.links
    case None => nav
    case Some(l) =>
      var button := match nav.button
        case None => None
        case Some(b) => Some(b.(classes := Remove(b.classes, Active)));
      Nav(button, Some(Remove(l, Active)))
  }

  /** Clicking a link a second time changes nothing. */
  lemma LinkClickIdempotent(nav: Nav)
    ensures LinkClick(LinkClick(nav)) == LinkClick(nav)
  {
  }

  /** Two clicks on the button restore the whole navigation exactly when the
      icon text starts out as `menu` or `close` (or there is no icon); any
      other text comes back as `close`. */
  lemma ToggleMobileMenuTwice(nav: Nav)
    ensures ToggleMobileMenu(ToggleMobileMenu(nav)) == nav <==>
              (nav.button.None? || nav.button.value.icon.None? ||
               nav.button.value.icon.value == MenuIcon || nav.button.value.icon.value == CloseIcon)
  {
    if nav.button.Some? {
      var b := nav.button.value;
      var twice := ToggleMobileMenu(ToggleMobileMenu(nav));
      Dom.ToggleTwice(b.classes, Active);
      if nav.links.Some? {
        Dom.ToggleTwice(nav.links.value, Active);
      }
      if b.icon.Some? && b.icon.value != MenuIcon && b.icon.value != CloseIcon {
        assert twice.button.value.icon == Some(CloseIcon);
      }
    }
  }

  /** The button, the links and the icon all agree on whether the menu is
      open: both carry `active` or neither does, and the icon offers the
      action a click would take (`close` while open, `menu` while closed). */
  predicate Synced(nav: Nav)
  {
    && nav.button.Some? && nav.links.Some? && nav.button.value.icon.Some?
    && (Active in nav.button.value.classes <==> Active in nav.links.value)
    && nav.button.value.icon.value == (if Active in nav.links.value then CloseIcon else MenuIcon)
  }

  /** The button click keeps the three in agreement. */
  lemma ToggleKeepsSynced(nav: Nav)
    requires Synced(nav)
    ensures Synced(ToggleMobileMenu(nav))
  {
  }

  /** The link click as written clears `active` but leaves the icon text
      alone: from an open menu it leaves a closed menu whose icon still reads
      `close`, so the next button click opens the menu while the icon turns
      to `menu`. */
  lemma LinkClickLeavesCloseIcon()
    ensures var open := Nav(Some(MenuButton({Active}, Some(CloseIcon))), Some({Active}));
            && Synced(open)
            && !Synced(LinkClick(open))
            && LinkClick(open).button.value.icon == Some(CloseIcon)
            && Active !in LinkClick(open).links.value
  {
  }

  /** The link click as evidently intended: it closes the menu and also puts
      the icon back to `menu`. */
  function LinkClickResettingIcon(nav: Nav): (r: Nav)
    ensures nav.links.None? ==> r == nav
    ensures nav.links.Some? ==>
              && r.links.Some? && Active !in r.links.value
              && r.links.value - {Active} == nav.links.value - {Active}
              && r.button.Some? == nav.button.Some?
              && (nav.button.Some? ==>
                    Active !in r.button.value.classes
                    && r.button.value.classes - {Active} == nav.button.value.classes - {Active}
                    && (nav.button.value.icon.Some? <==> r.button.value.icon == Some(MenuIcon)))
  {
    var closed := LinkClick(nav);
    if nav.links.Some? && closed.button.Some? && closed.button.value.icon.Some? then
      closed.(button := Some(closed.button.value.(icon := Some(MenuIcon))))
    else
      closed
  }

  /** The corrected link click keeps the button, links and icon in
      agreement, and a button click after it opens the menu showing `close`. */
  lemma LinkClickResettingIconKeepsSynced(nav: Nav)
    requires Synced(nav)
    ensures Synced(LinkClickResettingIcon(nav))
    ensures Active !in LinkClickResettingIcon(nav).links.value
    ensures ToggleMobileMenu(LinkClickResettingIcon(nav)).button.value.icon == Some(CloseIcon)
  {
  }
}
