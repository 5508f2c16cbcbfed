/** The main activity's pure decisions: the scroll-direction detector that
    shows and hides the add button, the navigation layout chosen from the
    window size, and the navigation items with their click rule. */
module MainActivity {
  import opened Kotlin
  import Components

  /** The decision of `isScrollingUp` given the remembered position and the
      current one: a change of first visible item compares indices, otherwise
      the offsets are compared. */
  function ScrollingUp(previousIndex: int, previousOffset: int, index: int, offset: int): (up: bool)
    ensures index < previousIndex ==> up
    ensures index > previousIndex ==> !up
  {
    if previousIndex != index then previousIndex > index else previousOffset >= offset
  }

  /** The list counts as scrolling up exactly when the new position is not
      after the old one in (index, offset) order. */
  lemma ScrollingUpIffNotFurtherDown(previousIndex: int, previousOffset: int, index: int, offset: int)
    ensures ScrollingUp(previousIndex, previousOffset, index, offset)
        <==> (index < previousIndex || (index == previousIndex && offset <= previousOffset))
  {
  }

  /** The two remembered values of `isScrollingUp`, shared by its list and
      staggered-grid overloads. */
  class ScrollTracker {
    var previousIndex: int
    var previousScrollOffset: int

    /** Both values start from the list's position when first composed. */
    constructor(firstVisibleItemIndex: int, firstVisibleItemScrollOffset: int)
      ensures previousIndex == firstVisibleItemIndex
      ensures previousScrollOffset == firstVisibleItemScrollOffset
    {
      previousIndex := firstVisibleItemIndex;
      previousScrollOffset := firstVisibleItemScrollOffset;
    }

    /** One read of the derived state: the decision against the remembered
      position, after which the current position is remembered. */
    method IsScrollingUp(firstVisibleItemIndex: int, firstVisibleItemScrollOffset: int) returns (up: bool)
      modifies this
      ensures up <==> (firstVisibleItemIndex < old(previousIndex)
                       || (firstVisibleItemIndex == old(previousIndex) && firstVisibleItemScrollOffset <= old(previousScrollOffset)))
      ensures previousIndex == firstVisibleItemIndex
      ensures previousScrollOffset == firstVisibleItemScrollOffset
    {
      if previousIndex != firstVisibleItemIndex {
        up := previousIndex > firstVisibleItemIndex;
      } else {
        up := previousScrollOffset >= firstVisibleItemScrollOffset;
      }
      previousIndex := firstVisibleItemIndex;
      previousScrollOffset := firstVisibleItemScrollOffset;
    }
  }

  /** A list that has not moved since the last read counts as scrolling up,
      so the button stays shown. */
  lemma StillListScrollsUp(index: int, offset: int)
    ensures ScrollingUp(index, offset, index, offset)
  {
  }

  datatype NavigationSuiteType = ShortNavigationBarMedium | WideNavigationRailCollapsed

  /** `navigationSuiteType`: a compact width gets the bottom bar; every other
      window, tabletop or not, gets the collapsed rail. */
  function NavigationLayout(minWidthDp: int, minHeightDp: int, isTabletop: bool): (t: NavigationSuiteType)
    ensures t == ShortNavigationBarMedium <==> minWidthDp == Components.WidthCompact
  {
    if minWidthDp == Components.WidthCompact then ShortNavigationBarMedium
    else if isTabletop || minHeightDp == Components.HeightCompact then WideNavigationRailCollapsed
    else WideNavigationRailCollapsed
  }

  /** The layout does not depend on the posture or the height. */
  lemma NavigationLayoutIgnoresPostureAndHeight(minWidthDp: int, h1: int, h2: int, t1: bool, t2: bool)
    ensures NavigationLayout(minWidthDp, h1, t1) == NavigationLayout(minWidthDp, h2, t2)
  {
  }

  /** The root routes of the navigation graph. */
  const NoteGraphRoute: string := "note_graph"
  const ToDoListRoute: string := "to_do_list"

  datatype NavItem = NavItem(title: string, route: string)

  const NavItems: seq<NavItem> := [NavItem("Notes", NoteGraphRoute), NavItem("To-Do List", ToDoListRoute)]

  /** An item is selected when it is the current root destination's route. */
  predicate IsSelected(currentRoute: Option<string>, item: NavItem) {
    currentRoute == Some(item.route)
  }

  /** The route a click on `item` navigates to: none when it is already
      selected. */
  function NavItemClick(currentRoute: Option<string>, item: NavItem): (target: Option<string>)
    ensures target.None? <==> IsSelected(currentRoute, item)
    ensures target.Some? ==> target.value == item.route
  {
    if !IsSelected(currentRoute, item) then Some(item.route) else None
  }

  /** At most one item is selected, and a second click on the item just
      navigated to does nothing. */
  lemma {:induction false} NavClickSettles(currentRoute: Option<string>, i: nat, j: nat)
    requires i < |NavItems| && j < |NavItems|
    ensures IsSelected(currentRoute, NavItems[i]) && IsSelected(currentRoute, NavItems[j]) ==> i == j
    ensures NavItemClick(currentRoute, NavItems[i]).Some? ==>
      NavItemClick(NavItemClick(currentRoute, NavItems[i]), NavItems[i]).None?
  {
    assert NavItems[0].route != NavItems[1].route by {
      assert NavItems[0].route[0] != NavItems[1].route[0];
    }
  }
}
