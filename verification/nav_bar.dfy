/**
 * `PortfolioNavBar`: three tabs, the active-tab selection, the mobile
 * breakpoint flag and the mount gate, plus the `BlurredStagger` title and
 * the hero heading, which both use the letter glyph map.
 */
module NavBar {
  import opened Maybe
  import Glyphs
  import opened ClassNames

  datatype Icon = VideoIcon | FolderOpenIcon | ImageIcon

  datatype NavItem = NavItem(name: string, url: string, icon: Icon)

  const NavItems: seq<NavItem> := [
    NavItem("Videos", "#videos", VideoIcon),
    NavItem("Collections", "#collections", FolderOpenIcon),
    NavItem("Photos", "#photos", ImageIcon)
  ]

  /** Window widths strictly below this many pixels count as mobile. */
  const MobileBreakpoint: int := 768

  datatype NavState = NavState(mounted: bool, activeTab: string, isMobile: bool)

  /** The state of the first render: not mounted, "Videos" active, desktop. */
  const Initial: NavState := NavState(false, "Videos", false)

  /**
   * What can change the state: the mount effects (which set `mounted` and
   * run the resize handler once), a later resize, a click on a tab.
   */
  datatype Event = Mount(innerWidth: int) | Resize(innerWidth: int) | Click(item: NavItem)

  /** `handleResize`: the flag for a window of the given width. */
  function IsMobileWidth(innerWidth: int): (mobile: bool)
    ensures mobile <==> innerWidth < MobileBreakpoint
  {
    innerWidth < 768
  }

  /** The two mount effects, in order: `setMounted(true)`, then the first `handleResize()`. */
  function OnMount(s: NavState, innerWidth: int): (r: NavState)
    ensures r.mounted && r.activeTab == s.activeTab
    ensures r.isMobile <==> innerWidth < MobileBreakpoint
  {
    s.(mounted := true, isMobile := IsMobileWidth(innerWidth))
  }

  /** A window resize: only the mobile flag is recomputed. */
  function OnResize(s: NavState, innerWidth: int): (r: NavState)
    ensures r.mounted == s.mounted && r.activeTab == s.activeTab
    ensures r.isMobile <==> innerWidth < MobileBreakpoint
  {
    s.(isMobile := IsMobileWidth(innerWidth))
  }

  /** A click on a tab: the active tab becomes that tab's name and nothing else changes. */
  function OnClick(s: NavState, item: NavItem): (r: NavState)
    ensures r.activeTab == item.name
    ensures r.mounted == s.mounted && r.isMobile == s.isMobile
  {
    s.(activeTab := item.name)
  }

  /** The state after one event; no event unmounts the bar. */
  function Apply(s: NavState, e: Event): (r: NavState)
    ensures s.mounted ==> r.mounted
  {
    match e
    case Mount(w) => OnMount(s, w)
    case Resize(w) => OnResize(s, w)
    case Click(item) => OnClick(s, item)
  }

  /** The state after a sequence of events, oldest first. */
  function Run(s: NavState, events: seq<Event>): NavState
    decreases |events|
  {
    if events == [] then s else Run(Apply(s, events[0]), events[1..])
  }

  /** Once mounted, the bar stays mounted whatever happens next. */
  lemma {:induction false} MountedStays(s: NavState, events: seq<Event>)
    requires s.mounted
    ensures Run(s, events).mounted
    decreases |events|
  {
    if events != [] {
      MountedStays(Apply(s, events[0]), events[1..]);
    }
  }

  /** One tab as rendered: its item, whether it is active, and its class list. */
  datatype TabView = TabView(item: NavItem, isActive: bool, className: string)

  datatype NavView = NavView(title: seq<Glyphs.Span>, desktop: seq<TabView>, mobile: seq<TabView>, hero: seq<Glyphs.Span>)

  const DesktopBase: string := "relative cursor-pointer text-sm font-semibold px-6 py-2 rounded-full transition-colors"
  const MobileBase: string := "relative cursor-pointer p-2 rounded-full transition-colors"
  const TabColors: string := "text-gray-300 hover:text-white"

  /** `cn(base, "text-gray-300 hover:text-white", isActive && "text-white")`. */
  function TabClass(base: string, isActive: bool): (c: string)
    requires base != ""
    ensures c == base + " " + TabColors + (if isActive then " text-white" else "")
  {
    var last := if isActive then Text("text-white") else Flag(false);
    var args := [Text(base), Text(TabColors), last];
    var ws := [base, TabColors] + KeptHead(last);
    assert args[1..][1..] == [last];
    assert Filter([last]) == KeptHead(last) by { assert [last][1..] == []; }
    assert TabColors[0] == 't';
    assert Filter(args[1..]) == [TabColors] + KeptHead(last);
    assert Filter(args) == ws;
    assert Join(ws) == base + " " + Join(ws[1..]);
    Cn(args)
  }

  function Tabs(base: string, activeTab: string): (tabs: seq<TabView>)
    requires base != ""
    ensures |tabs| == |NavItems|
    ensures forall i :: 0 <= i < |tabs| ==> tabs[i].item == NavItems[i]
    ensures forall i :: 0 <= i < |tabs| ==> (tabs[i].isActive <==> NavItems[i].name == activeTab)
  {
    seq(|NavItems|, i requires 0 <= i < |NavItems| =>
      TabView(NavItems[i], activeTab == NavItems[i].name, TabClass(base, activeTab == NavItems[i].name)))
  }

  /** `BlurredStagger`: one glyph span per character of `text`. */
  function StaggerLetters(text: string): (spans: seq<Glyphs.Span>)
    ensures |spans| == |text|
    ensures forall i :: 0 <= i < |text| ==> spans[i] == Glyphs.Span(i, Glyphs.Glyph(text[i]))
  {
    Glyphs.Render(text)
  }

  /**
   * The modelled part of the component's output: nothing until mounted,
   * then the title, both tab rows and the hero heading (the section
   * headings and the rest of the page are not modelled).
   */
  function Render(s: NavState): (v: Option<NavView>)
    ensures v.None? <==> !s.mounted
  {
    if !s.mounted then None
    else Some(NavView(StaggerLetters("Vishnu Adari"), Tabs(DesktopBase, s.activeTab), Tabs(MobileBase, s.activeTab),
                      Glyphs.Render(HeroText)))
  }

  function ActiveCount(tabs: seq<TabView>): nat
  {
    if tabs == [] then 0 else (if tabs[0].isActive then 1 else 0) + ActiveCount(tabs[1..])
  }

  /** Tab names are pairwise distinct. */
  lemma NamesDistinct()
    ensures forall i, j :: 0 <= i < j < |NavItems| ==> NavItems[i].name != NavItems[j].name
  {
    assert NavItems[0].name[0] == 'V';
    assert NavItems[1].name[0] == 'C';
    assert NavItems[2].name[0] == 'P';
  }

  /** In each tab row, exactly one tab is active when the active tab is a tab's name, and none otherwise. */
  lemma ActiveTabs(base: string, activeTab: string)
    requires base != ""
    ensures ActiveCount(Tabs(base, activeTab)) == if exists i :: 0 <= i < |NavItems| && NavItems[i].name == activeTab then 1 else 0
  {
    var tabs := Tabs(base, activeTab);
    NamesDistinct();
    assert tabs[1..][1..] == [tabs[2]];
    assert [tabs[2]][1..] == [];
    assert ActiveCount([tabs[2]]) == if tabs[2].isActive then 1 else 0;
    assert ActiveCount(tabs[1..]) == (if tabs[1].isActive then 1 else 0) + ActiveCount([tabs[2]]);
    assert ActiveCount(tabs) == (if tabs[0].isActive then 1 else 0) + (if tabs[1].isActive then 1 else 0) + (if tabs[2].isActive then 1 else 0);
  }

  /** Clicks on the bar's own tabs keep the active tab a tab name, so every mounted render highlights exactly one tab per row. */
  lemma {:induction false} ExactlyOneActive(s: NavState, events: seq<Event>)
    requires exists i :: 0 <= i < |NavItems| && NavItems[i].name == s.activeTab
    requires forall k :: 0 <= k < |events| ==> events[k].Click? ==> events[k].item in NavItems
    requires Run(s, events).mounted
    ensures ActiveCount(Render(Run(s, events)).value.desktop) == 1
    ensures ActiveCount(Render(Run(s, events)).value.mobile) == 1
    decreases |events|
  {
    if events == [] {
      ActiveTabs(DesktopBase, s.activeTab);
      ActiveTabs(MobileBase, s.activeTab);
    } else {
      var s' := Apply(s, events[0]);
      if events[0].Click? {
        var j :| 0 <= j < |NavItems| && NavItems[j] == events[0].item;
        assert NavItems[j].name == s'.activeTab;
      }
      assert forall k :: 0 <= k < |events[1..]| ==> events[1..][k] == events[k + 1];
      ExactlyOneActive(s', events[1..]);
    }
  }

  /** The hero heading's text, "Adari Vishnu". */
  const HeroFirst: string := "Adari"
  const HeroLast: string := "Vishnu"
  const HeroText: string := HeroFirst + [Glyphs.Space] + HeroLast

  lemma HeroWords()
    ensures HeroText == "Adari Vishnu"
    ensures Glyphs.Space !in HeroFirst && Glyphs.Space !in HeroLast
    ensures Glyphs.Nbsp !in HeroFirst && Glyphs.Nbsp !in HeroLast
  {
  }

  /** The hero heading: twelve keyed spans showing "Adari", a no-break space, "Vishnu"; it reads back as its text. */
  lemma HeroHeading()
    ensures HeroText == "Adari Vishnu"
    ensures |Glyphs.Render(HeroText)| == 12
    ensures Glyphs.Shown(Glyphs.Render(HeroText)) == HeroFirst + [Glyphs.Nbsp] + HeroLast
    ensures Glyphs.Restore(Glyphs.Shown(Glyphs.Render(HeroText))) == HeroText
  {
    HeroWords();
    Glyphs.RenderTwoWords(HeroFirst, HeroLast);
  }
}
