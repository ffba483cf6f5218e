/** The navigation controller: the mobile panel's `active` flag, the toggle button's
    `active` flag and its icon glyph (fa-bars / fa-times), and one `active` flag per
    dropdown. Click targets and the viewport width are parameters of the events. */
module Navigation {

  /** At or below this width (CSS pixels) the page uses the mobile layout. */
  const MobileMaxWidth: int := 768

  class NavMenu {
    var panelActive: bool
    var buttonActive: bool
    var iconBars: bool
    var iconTimes: bool
    var dropdownOpen: seq<bool>
    /** initDropdowns attaches the hover listeners only when the viewport is wider
        than MobileMaxWidth at start-up; later resizes do not change this. */
    const hoverListeners: bool

    /** The button and icon follow the panel: fa-times exactly while it is open. */
    ghost predicate Valid()
      reads this
    {
      buttonActive == panelActive && iconTimes == panelActive && iconBars == !panelActive
    }

    ghost predicate AllDropdownsClosed()
      reads this
    {
      forall i :: 0 <= i < |dropdownOpen| ==> !dropdownOpen[i]
    }

    constructor (dropdownCount: nat, startupWidth: int)
      ensures Valid() && !panelActive
      ensures |dropdownOpen| == dropdownCount && AllDropdownsClosed()
      ensures hoverListeners == (startupWidth > MobileMaxWidth)
    {
      panelActive, buttonActive := false, false;
      iconBars, iconTimes := true, false;
      dropdownOpen := seq(dropdownCount, _ => false);
      hoverListeners := startupWidth > MobileMaxWidth;
    }

    /** Click on the menu button (it stops propagation, so no outside-click follows). */
    method ToggleMenu()
      requires Valid()
      modifies this
      ensures Valid()
      ensures panelActive == !old(panelActive)
      ensures dropdownOpen == old(dropdownOpen)
    {
      panelActive := !panelActive;
      buttonActive := !buttonActive;
      if iconBars {
        iconBars := false;
        iconTimes := true;
      } else {
        iconTimes := false;
        iconBars := true;
      }
    }

    /** closeMobileMenu: panel closed, icon back to fa-bars, every dropdown closed. */
    method CloseMobileMenu()
      modifies this
      ensures Valid() && !panelActive && !iconTimes && iconBars
      ensures |dropdownOpen| == |old(dropdownOpen)| && AllDropdownsClosed()
    {
      panelActive := false;
      buttonActive := false;
      iconTimes := false;
      iconBars := true;
      var i := 0;
      while i < |dropdownOpen|
        invariant 0 <= i <= |dropdownOpen| == |old(dropdownOpen)|
        invariant forall j :: 0 <= j < i ==> !dropdownOpen[j]
        invariant !panelActive && !buttonActive && !iconTimes && iconBars
      {
        dropdownOpen := dropdownOpen[i := false];
        i := i + 1;
      }
    }

    /** A click anywhere in the document: closes an open panel unless the click fell
        inside the panel or on the menu button. */
    method DocumentClick(insidePanel: bool, onMenuButton: bool)
      requires Valid()
      modifies this
      ensures Valid()
      ensures old(panelActive) && !insidePanel && !onMenuButton ==> !panelActive && AllDropdownsClosed()
      ensures !(old(panelActive) && !insidePanel && !onMenuButton) ==>
                panelActive == old(panelActive) && dropdownOpen == old(dropdownOpen)
      ensures |dropdownOpen| == |old(dropdownOpen)|
    {
      if panelActive && !insidePanel && !onMenuButton {
        CloseMobileMenu();
      }
    }

    /** A key press: Escape closes the panel, and only when it is open. */
    method KeyDown(key: string)
      requires Valid()
      modifies this
      ensures Valid()
      ensures key == "Escape" && old(panelActive) ==> !panelActive && AllDropdownsClosed()
      ensures !(key == "Escape" && old(panelActive)) ==>
                panelActive == old(panelActive) && dropdownOpen == old(dropdownOpen)
      ensures |dropdownOpen| == |old(dropdownOpen)|
    {
      if key == "Escape" && panelActive {
        CloseMobileMenu();
      }
    }

    /** A click on the link of dropdown i: on a mobile-width viewport (checked at the
        time of the click) it toggles that dropdown and cancels the navigation. */
    method DropdownLinkClick(i: nat, width: int) returns (prevented: bool)
      requires i < |dropdownOpen|
      requires Valid()
      modifies this
      ensures Valid() && panelActive == old(panelActive)
      ensures prevented <==> width <= MobileMaxWidth
      ensures dropdownOpen == if prevented then old(dropdownOpen)[i := !old(dropdownOpen)[i]]
                              else old(dropdownOpen)
    {
      prevented := width <= MobileMaxWidth;
      if prevented {
        dropdownOpen := dropdownOpen[i := !dropdownOpen[i]];
      }
    }

    /** Pointer enters dropdown i: opens it when the hover listeners were attached. */
    method MouseEnter(i: nat)
      requires i < |dropdownOpen|
      modifies this
      ensures panelActive == old(panelActive) && buttonActive == old(buttonActive)
      ensures iconBars == old(iconBars) && iconTimes == old(iconTimes)
      ensures dropdownOpen == if hoverListeners then old(dropdownOpen)[i := true] else old(dropdownOpen)
    {
      if hoverListeners {
        dropdownOpen := dropdownOpen[i := true];
      }
    }

    /** Pointer leaves dropdown i: closes it when the hover listeners were attached. */
    method MouseLeave(i: nat)
      requires i < |dropdownOpen|
      modifies this
      ensures panelActive == old(panelActive) && buttonActive == old(buttonActive)
      ensures iconBars == old(iconBars) && iconTimes == old(iconTimes)
      ensures dropdownOpen == if hoverListeners then old(dropdownOpen)[i := false] else old(dropdownOpen)
    {
      if hoverListeners {
        dropdownOpen := dropdownOpen[i := false];
      }
    }

    /** A click on an in-page anchor: "#" and "#!" are ignored, as is an anchor whose
        target is missing; otherwise the panel closes if open and every dropdown closes
        before the page scrolls to the target. */
    method AnchorClick(href: string, targetExists: bool) returns (jumps: bool)
      requires Valid()
      modifies this
      ensures Valid()
      ensures jumps <==> href != "#" && href != "#!" && targetExists
      ensures jumps ==> !panelActive && AllDropdownsClosed() && |dropdownOpen| == |old(dropdownOpen)|
      ensures !jumps ==> panelActive == old(panelActive) && dropdownOpen == old(dropdownOpen)
    {
      if href == "#" || href == "#!" {
        return false;
      }
      jumps := targetExists;
      if jumps {
        if panelActive {
          panelActive := false;
          buttonActive := false;
          iconTimes := false;
          iconBars := true;
        }
        dropdownOpen := seq(|dropdownOpen|, _ => false);
      }
    }
  }

  /** Opening the panel, opening a dropdown in it, then pressing Escape leaves the
      panel closed and no dropdown open. */
  method ToggleOpenThenEscape(dropdownCount: nat, width: int, k: nat) returns (panelOpen: bool, anyDropdownOpen: bool)
    ensures !panelOpen && !anyDropdownOpen
  {
    var menu := new NavMenu(dropdownCount, width);
    menu.ToggleMenu();
    if k < dropdownCount {
      var _ := menu.DropdownLinkClick(k, width);
    }
    menu.KeyDown("Escape");
    panelOpen := menu.panelActive;
    anyDropdownOpen := true in menu.dropdownOpen;
  }
}
