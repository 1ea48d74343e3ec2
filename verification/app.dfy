/** The egui application object: its state fields, the event drain, the one-time index
    load with its fallback to demonstration data, and the header's buttons. */
module App {
  import opened Wrappers
  import opened Seqs
  import opened Text
  import opened XmlParser
  import opened Events
  import ConfigThemes

  datatype AppView = Welcome | PackageList

  /** The fields events change. */
  datatype Selection = Selection(category: string, component: string, view: AppView, showSettings: bool)

  /** The effect of handling one event. */
  function Apply(s: Selection, e: AppEvent): Selection {
    match e
    case CategorySelected(c) => s.(category := c, view := PackageList)
    case ComponentSelected(c) => s.(component := c, view := PackageList)
    case ShowSettings => s.(showSettings := true)
  }

  /** Handling the pending events the way `handle_events` pops them: the most recently
      pushed first, the earliest pushed last. */
  function Drain(s: Selection, pending: seq<AppEvent>): Selection
    decreases |pending|
  {
    if pending == [] then s
    else Drain(Apply(s, pending[|pending| - 1]), pending[..|pending| - 1])
  }

  /** Without a category event the category stays. */
  lemma {:induction false} DrainKeepsCategory(s: Selection, pending: seq<AppEvent>)
    requires forall j :: 0 <= j < |pending| ==> !pending[j].CategorySelected?
    ensures Drain(s, pending).category == s.category
    decreases |pending|
  {
    if pending != [] {
      DrainKeepsCategory(Apply(s, pending[|pending| - 1]), pending[..|pending| - 1]);
    }
  }

  /** Of several pending category events, the earliest pushed decides: it is handled last. */
  lemma {:induction false} EarliestCategoryWins(s: Selection, pending: seq<AppEvent>, i: nat)
    requires i < |pending| && pending[i].CategorySelected?
    requires forall j :: 0 <= j < i ==> !pending[j].CategorySelected?
    ensures Drain(s, pending).category == pending[i].category
    decreases |pending|
  {
    var n := |pending| - 1;
    if i < n {
      EarliestCategoryWins(Apply(s, pending[n]), pending[..n], i);
    } else {
      DrainKeepsCategory(Apply(s, pending[n]), pending[..n]);
    }
  }

  /** Without a component event the component stays. */
  lemma {:induction false} DrainKeepsComponent(s: Selection, pending: seq<AppEvent>)
    requires forall j :: 0 <= j < |pending| ==> !pending[j].ComponentSelected?
    ensures Drain(s, pending).component == s.component
    decreases |pending|
  {
    if pending != [] {
      DrainKeepsComponent(Apply(s, pending[|pending| - 1]), pending[..|pending| - 1]);
    }
  }

  /** Of several pending component events, the earliest pushed decides. */
  lemma {:induction false} EarliestComponentWins(s: Selection, pending: seq<AppEvent>, i: nat)
    requires i < |pending| && pending[i].ComponentSelected?
    requires forall j :: 0 <= j < i ==> !pending[j].ComponentSelected?
    ensures Drain(s, pending).component == pending[i].component
    decreases |pending|
  {
    var n := |pending| - 1;
    if i < n {
      EarliestComponentWins(Apply(s, pending[n]), pending[..n], i);
    } else {
      DrainKeepsComponent(Apply(s, pending[n]), pending[..n]);
    }
  }

  /** Any selection event switches to the package list, nothing switches back; the
      settings dialog opens when a `ShowSettings` event is pending, nothing closes it. */
  lemma {:induction false} DrainViewAndSettings(s: Selection, pending: seq<AppEvent>)
    ensures Drain(s, pending).view == (if exists j :: 0 <= j < |pending| && !pending[j].ShowSettings? then PackageList else s.view)
    ensures Drain(s, pending).showSettings == (s.showSettings || exists j :: 0 <= j < |pending| && pending[j].ShowSettings?)
    decreases |pending|
  {
    if pending != [] {
      var n := |pending| - 1;
      DrainViewAndSettings(Apply(s, pending[n]), pending[..n]);
      assert forall j :: 0 <= j < n ==> pending[..n][j] == pending[j];
    }
  }

  /** The two demonstration records `create_mock_data` installs. */
  function MockPackages(): (r: seq<PackageInfo>)
    ensures |r| == 2
  {
    [ PackageInfo("firefox", "Mozilla Firefox Web Browser", "Fast and secure web browser", "115.0", 1,
        "MPL-2.0", "web", 97_000_000, 245_000_000, "1.0", "PisiLinux", "2.0", "x86_64",
        Some(Source("firefox", "https://www.mozilla.org/firefox/")), [], []),
      PackageInfo("libreoffice", "LibreOffice Office Suite", "Complete office productivity suite", "7.5.0", 1,
        "MPL-2.0", "office", 245_000_000, 512_000_000, "1.0", "PisiLinux", "2.0", "x86_64",
        Some(Source("libreoffice", "https://www.libreoffice.org/")), [], []) ]
  }

  /** One demonstration package each under "web" and "office", none elsewhere. */
  lemma MockCounts(k: string)
    ensures Count(MockPackages(), k) == (if k == "web" || k == "office" then 1 else 0)
  {
    var ps := MockPackages();
    assert ComponentName(ps[0]) == "web" && ComponentName(ps[1]) == "office";
    assert ps[1..][1..] == [];
    assert Filter(InComponent(k), ps[1..]) == (if k == "office" then [ps[1]] else []);
  }

  /** The component list of the demonstration data is ("All", 2), ("office", 1),
      ("web", 1), in this order and no other. */
  lemma MockComponentList(cs: seq<Component>)
    requires IsComponentList(MockPackages(), cs)
    ensures cs == [Component("All", 2), Component("office", 1), Component("web", 1)]
  {
    var i :| (0 <= i < |cs| && cs[i] == Component("All", |MockPackages()|)
      && (forall j :: 0 <= j < i ==> cs[j].name != "All")
      && IsCountTable(MockPackages(), cs[..i] + cs[i + 1..]));
    var rest := cs[..i] + cs[i + 1..];
    MockCountTable(rest);
    MockNamesOrder();
    SortedFirst(cs, i);
    assert cs[0] in rest || cs[0] == cs[i];
    assert i == 0;
    assert cs == [cs[0]] + rest;
    assert LexLe(cs[1].name, cs[2].name);
  }

  /** The first entry of a list sorted by name has the least name. */
  lemma SortedFirst(cs: seq<Component>, i: nat)
    requires SortedByName(cs) && i < |cs|
    ensures LexLe(cs[0].name, cs[i].name)
  {
    if i == 0 {
      LexLeReflexive(cs[0].name);
    }
  }

  /** How the three names compare. */
  lemma MockNamesOrder()
    ensures LexLe("All", "office") && LexLe("office", "web") && LexLe("All", "web")
    ensures !LexLe("office", "All") && !LexLe("web", "office") && !LexLe("web", "All")
  {
  }

  /** The count table of the demonstration data holds ("web", 1) and ("office", 1) and
      nothing else. */
  lemma MockCountTable(t: seq<Component>)
    requires IsCountTable(MockPackages(), t)
    ensures t == [Component("web", 1), Component("office", 1)] || t == [Component("office", 1), Component("web", 1)]
  {
    var web, office := Component("web", 1), Component("office", 1);
    MockCounts("web");
    MockCounts("office");
    assert Named("web", t) == [web];
    assert Named("office", t) == [office];
    assert Named("web", t)[0] in t && Named("office", t)[0] in t;
    forall j | 0 <= j < |t| ensures t[j] == web || t[j] == office {
      MockEntry(t, j);
    }
    CountTableEntries(MockPackages(), t);
    var notWeb := (c: Component) => c.name != "web";
    FilterSplits(NameIs("web"), notWeb, t);
    FilterCongruent(notWeb, NameIs("office"), t);
    assert |t| == 2;
    assert t == [t[0], t[1]];
  }

  lemma MockEntry(t: seq<Component>, j: nat)
    requires j < |t| && Named(t[j].name, t) == CountEntry(MockPackages(), t[j].name)
    ensures t[j] == Component("web", 1) || t[j] == Component("office", 1)
  {
    assert t[j] in Named(t[j].name, t);
    MockCounts(t[j].name);
  }

  class PackageManagerApp {
    var currentTheme: ConfigThemes.Theme
    var showSettings: bool
    var currentView: AppView
    var packages: seq<PackageInfo>
    var components: seq<Component>
    var selectedComponent: string
    var selectedCategory: string
    var selectedPackage: Option<PackageInfo>
    const eventManager: EventManager

    /** `PackageManagerApp::new`: light theme, welcome view, settings closed, component "All",
        category "Installed", no packages, components or selection, no pending events. */
    constructor ()
      ensures currentTheme == ConfigThemes.Light && !showSettings && currentView == Welcome
      ensures packages == [] && components == [] && selectedPackage == None
      ensures selectedComponent == "All" && selectedCategory == "Installed"
      ensures fresh(eventManager) && eventManager.events == []
    {
      currentTheme := ConfigThemes.Light;
      showSettings := false;
      currentView := Welcome;
      packages := [];
      components := [];
      selectedComponent := "All";
      selectedCategory := "Installed";
      selectedPackage := None;
      eventManager := new EventManager();
    }

    /** The fields the events change. */
    function Ui(): Selection
      reads this
    {
      Selection(selectedCategory, selectedComponent, currentView, showSettings)
    }

    /** `handle_events`: pops and handles events until the queue is empty. */
    method HandleEvents()
      modifies this, eventManager
      ensures eventManager.events == []
      ensures Ui() == Drain(old(Ui()), old(eventManager.events))
      ensures packages == old(packages) && components == old(components)
      ensures currentTheme == old(currentTheme) && selectedPackage == old(selectedPackage)
    {
      while true
        invariant Drain(Ui(), eventManager.events) == Drain(old(Ui()), old(eventManager.events))
        invariant packages == old(packages) && components == old(components)
        invariant currentTheme == old(currentTheme) && selectedPackage == old(selectedPackage)
        decreases |eventManager.events|
      {
        var next := eventManager.Pop();
        if next.None? {
          break;
        }
        match next.value
        case CategorySelected(category) =>
          selectedCategory := category;
          currentView := PackageList;
        case ComponentSelected(component) =>
          selectedComponent := component;
          currentView := PackageList;
        case ShowSettings =>
          showSettings := true;
      }
    }

    /** `create_mock_data`: the two demonstration records and their component list. */
    method CreateMockData()
      modifies this
      ensures packages == MockPackages()
      ensures components == [Component("All", 2), Component("office", 1), Component("web", 1)]
      ensures Ui() == old(Ui()) && currentTheme == old(currentTheme) && selectedPackage == old(selectedPackage)
    {
      packages := MockPackages();
      components := ParseComponents(packages);
      MockComponentList(components);
    }

    /** `load_packages_from_xml`, given what reading the index yields: nothing happens once
        packages are present; otherwise the index's records, or on error the demonstration
        data, become the packages, and their component list the components. */
    method LoadPackagesFromXml(loaded: Result<seq<PackageInfo>, string>)
      modifies this
      ensures old(packages) != [] ==> packages == old(packages) && components == old(components)
      ensures old(packages) == [] && loaded.Ok? ==> packages == loaded.value && IsComponentList(packages, components)
      ensures old(packages) == [] && loaded.Err? ==>
        packages == MockPackages() && components == [Component("All", 2), Component("office", 1), Component("web", 1)]
      ensures Ui() == old(Ui()) && currentTheme == old(currentTheme) && selectedPackage == old(selectedPackage)
    {
      if packages != [] {
        return;
      }
      match loaded
      case Ok(list) =>
        packages := list;
        components := ParseComponents(packages);
      case Err(_) =>
        CreateMockData();
    }

    /** The header's theme button: the next theme. */
    method ClickThemeButton()
      modifies this
      ensures currentTheme == ConfigThemes.Next(old(currentTheme))
      ensures Ui() == old(Ui()) && packages == old(packages) && components == old(components)
      ensures selectedPackage == old(selectedPackage)
    {
      currentTheme := ConfigThemes.Next(currentTheme);
    }

    /** The header's settings button: the settings dialog opens. */
    method ClickSettingsButton()
      modifies this
      ensures showSettings
      ensures currentTheme == old(currentTheme) && currentView == old(currentView)
      ensures selectedCategory == old(selectedCategory) && selectedComponent == old(selectedComponent)
      ensures packages == old(packages) && components == old(components)
      ensures selectedPackage == old(selectedPackage)
    {
      showSettings := true;
    }
  }
}
