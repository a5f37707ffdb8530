/**
 * The tabbed portfolio page (src/App.js): an integer `activeTab`, starting at 1,
 * moved by the arrow keys and set by the five navigation items, selecting the
 * page's CSS class.
 */
module TabNavigation {

  /** The five navigation items, top to bottom. */
  datatype NavItem = Home | About | Projects | Work | Contact

  /** A user action the page reacts to: a key press (by its `key` name) or a click on a nav item. */
  datatype Event = KeyPress(key: string) | NavClick(item: NavItem)

  const InitialTab: int := 1
  const FirstTab: int := 1
  const LastTab: int := 5

  predicate InRange(tab: int) {
    FirstTab <= tab <= LastTab
  }

  /** The tab a nav item's click handler sets. */
  function TabOf(item: NavItem): (k: int)
    ensures InRange(k)
  {
    match item
    case Home => 1
    case About => 2
    case Projects => 3
    case Work => 4
    case Contact => 5
  }

  /** The nav item that stands for a tab. */
  function ItemOf(tab: int): (item: NavItem)
    requires InRange(tab)
  {
    if tab == 1 then Home
    else if tab == 2 then About
    else if tab == 3 then Projects
    else if tab == 4 then Work
    else Contact
  }

  /** Nav items and tabs 1..5 are in one-to-one correspondence. */
  lemma TabOfRoundTrip(item: NavItem, tab: int)
    ensures ItemOf(TabOf(item)) == item
    ensures InRange(tab) ==> TabOf(ItemOf(tab)) == tab
  {
  }

  /** The key handler: ArrowDown advances from tabs 1-4, ArrowUp goes back from tabs 2-5, any other key is ignored. */
  function NextTab(tab: int, key: string): (r: int)
    ensures key != "ArrowDown" && key != "ArrowUp" ==> r == tab
    ensures key == "ArrowDown" ==> (r == tab + 1 <==> 1 <= tab <= 4) && (r != tab + 1 ==> r == tab)
    ensures key == "ArrowUp" ==> (r == tab - 1 <==> 2 <= tab <= 5) && (r != tab - 1 ==> r == tab)
  {
    if key == "ArrowDown" then
      if tab == 1 || tab == 2 || tab == 3 || tab == 4 then tab + 1 else tab
    else if key == "ArrowUp" then
      if tab == 2 || tab == 3 || tab == 4 || tab == 5 then tab - 1 else tab
    else
      tab
  }

  /** Both edges are sticky: ArrowDown on the last tab and ArrowUp on the first change nothing. */
  lemma EdgesStay()
    ensures NextTab(LastTab, "ArrowDown") == LastTab
    ensures NextTab(FirstTab, "ArrowUp") == FirstTab
  {
  }

  /** ArrowDown then ArrowUp returns to the start from tabs 1-4; ArrowUp then ArrowDown from tabs 2-5. */
  lemma DownUpInverse(tab: int)
    ensures 1 <= tab <= 4 ==> NextTab(NextTab(tab, "ArrowDown"), "ArrowUp") == tab
    ensures 2 <= tab <= 5 ==> NextTab(NextTab(tab, "ArrowUp"), "ArrowDown") == tab
  {
  }

  /** The effect of one event on the active tab. */
  function Step(tab: int, e: Event): (r: int)
    ensures InRange(tab) ==> InRange(r)
    ensures e.NavClick? ==> r == TabOf(e.item)
  {
    match e
    case KeyPress(key) => NextTab(tab, key)
    case NavClick(item) => TabOf(item)
  }

  /** The active tab after a sequence of events, applied left to right. */
  function Run(tab: int, events: seq<Event>): int
    decreases |events|
  {
    if events == [] then tab else Run(Step(tab, events[0]), events[1..])
  }

  /** From any tab in range, and so from the initial tab, every sequence of events keeps the tab in 1..5. */
  lemma {:induction false} RunInRange(tab: int, events: seq<Event>)
    requires InRange(tab)
    ensures InRange(Run(tab, events))
    decreases |events|
  {
    if events != [] {
      RunInRange(Step(tab, events[0]), events[1..]);
    }
  }

  /** A nav click at the end of any sequence decides the tab, whatever came before. */
  lemma {:induction false} RunEndsWithClick(tab: int, events: seq<Event>, item: NavItem)
    ensures Run(tab, events + [NavClick(item)]) == TabOf(item)
    decreases |events|
  {
    if events == [] {
      assert events + [NavClick(item)] == [NavClick(item)];
    } else {
      assert (events + [NavClick(item)])[1..] == events[1..] + [NavClick(item)];
      RunEndsWithClick(Step(tab, events[0]), events[1..], item);
    }
  }

  /** The decimal digit character for 0..9. */
  function DigitChar(d: int): char
    requires 0 <= d <= 9
  {
    ('0' as int + d) as char
  }

  /** The class of the page's `main` element: "nm8-k" for tab k in 1..5, empty otherwise. */
  function PageClass(tab: int): (r: string)
    ensures InRange(tab) ==> r == "nm8-" + [DigitChar(tab)]
    ensures !InRange(tab) ==> r == ""
  {
    if tab == 1 then "nm8-1"
    else if tab == 2 then "nm8-2"
    else if tab == 3 then "nm8-3"
    else if tab == 4 then "nm8-4"
    else if tab == 5 then "nm8-5"
    else ""
  }

  /** Distinct tabs in range select distinct page classes. */
  lemma PageClassInjective(a: int, b: int)
    requires InRange(a) && InRange(b) && PageClass(a) == PageClass(b)
    ensures a == b
  {
    assert PageClass(a)[4] == DigitChar(a);
  }

  const NavBase: string := "nav-item secondary-text fw-600 py-md"

  /** The class of a nav item: active when it stands for the current tab (HOME also carries "nm8-link"). */
  function NavItemClass(item: NavItem, tab: int): (r: string)
    ensures TabOf(item) != tab ==> r == NavBase
    ensures TabOf(item) == tab ==> |r| >= |NavBase| + 7 && r[..7] == "active " && r[|r| - |NavBase|..] == NavBase
  {
    if TabOf(item) == tab then
      if item == Home then "active nm8-link " + NavBase else "active " + NavBase
    else NavBase
  }

  /** For a tab in range exactly one nav item is shown active. */
  lemma ExactlyOneActive(tab: int, item: NavItem)
    requires InRange(tab)
    ensures NavItemClass(item, tab) != NavBase <==> item == ItemOf(tab)
  {
    TabOfRoundTrip(item, tab);
  }

  /** The page component's tab state. */
  class TabState {
    var activeTab: int

    ghost predicate Valid()
      reads this
    {
      InRange(activeTab)
    }

    constructor ()
      ensures Valid() && activeTab == InitialTab
    {
      activeTab := InitialTab;
    }

    /** The window's keydown handler. */
    method KeyDown(key: string)
      requires Valid()
      modifies this
      ensures Valid()
      ensures activeTab == NextTab(old(activeTab), key)
    {
      if key == "ArrowDown" {
        if activeTab == 1 || activeTab == 2 || activeTab == 3 || activeTab == 4 {
          activeTab := activeTab + 1;
        }
      } else if key == "ArrowUp" {
        if activeTab == 2 || activeTab == 3 || activeTab == 4 || activeTab == 5 {
          activeTab := activeTab - 1;
        }
      }
    }

    /** A nav item's click handler. */
    method Click(item: NavItem)
      requires Valid()
      modifies this
      ensures Valid()
      ensures activeTab == TabOf(item)
    {
      activeTab := TabOf(item);
    }
  }
}
