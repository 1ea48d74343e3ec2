/** The web front end's page state: the module-level globals of the page script (the package
    list, the filtered list, the current component, category and filter, the dark-mode flag)
    and the parts of the page they drive (grid and empty-state visibility, the package cards,
    the component buttons, the theme toggle). The browser's local storage is a map field;
    which page elements exist is fixed when the page is set up. HTML templating, event
    wiring, the search debounce timer and the back-end calls are not modelled. */
module FrontendApp {
  import opened Wrappers
  import opened Seqs
  import opened Text

  /** A package as the page receives it from the back end. `version` is None when the
      object has no such field (the page's mock data omits it). */
  datatype PackageView = PackageView(name: string, summary: string, partOf: string, version: Option<string>)

  datatype ComponentView = ComponentView(name: string, packageCount: nat)

  /** A rendered package card: the name, the version label, the summary and the component. */
  datatype Card = Card(name: string, versionLabel: string, summary: string, partOf: string)

  /** A rendered component button and whether it carries the `active` class. */
  datatype ComponentButton = ComponentButton(name: string, packageCount: nat, active: bool)

  /** The search query: the search box's value lowered and trimmed, or "" without a box. */
  function Query(searchInput: Option<string>): (q: string)
  {
    match searchInput
    case None => ""
    case Some(v) => JsTrim(ToLower(v))
  }

  /** The query holds no upper-case ASCII letter and has nothing left to trim. */
  lemma QueryNormalized(searchInput: Option<string>)
    ensures forall i :: 0 <= i < |Query(searchInput)| ==> !('A' <= Query(searchInput)[i] <= 'Z')
    ensures JsTrim(Query(searchInput)) == Query(searchInput)
  {
    if searchInput.Some? {
      var lowered := ToLower(searchInput.value);
      TrimShape(IsJsWhitespace, lowered);
      TrimIdempotent(IsJsWhitespace, lowered);
    }
  }

  /** The filter of `filterAndRender`: with a non-empty query the lowered name or summary must
      contain it, and unless the current component is the literal 'all' the package's
      `part_of` must equal it. */
  function Keeps(query: string, component: string): PackageView -> bool {
    (p: PackageView) =>
      (query == "" || Contains(ToLower(p.name), query) || Contains(ToLower(p.summary), query))
      && (component == "all" || p.partOf == component)
  }

  function Visible(packages: seq<PackageView>, query: string, component: string): (r: seq<PackageView>)
    ensures IsSubsequence(r, packages)
  {
    FilterIsSubsequence(Keeps(query, component), packages);
    Filter(Keeps(query, component), packages)
  }

  /** A package is shown exactly when it matches the query and the component. */
  lemma VisibleExactly(packages: seq<PackageView>, query: string, component: string)
    ensures forall p :: p in Visible(packages, query, component) <==>
      (p in packages
        && (query == "" || Contains(ToLower(p.name), query) || Contains(ToLower(p.summary), query))
        && (component == "all" || p.partOf == component))
  {
  }

  /** Only the lower-case 'all' switches the component test off. The back end's synthetic
      component is named "All", and selecting it compares `part_of` with "All" literally:
      it shows only packages whose component is literally "All". */
  lemma CapitalAllIsLiteral(packages: seq<PackageView>)
    ensures Visible(packages, "", "all") == packages
    ensures forall p :: p in Visible(packages, "", "All") <==> p in packages && p.partOf == "All"
    ensures (forall i :: 0 <= i < |packages| ==> packages[i].partOf != "All") ==> Visible(packages, "", "All") == []
  {
    FilterKeepsAll(Keeps("", "all"), packages);
    if forall i :: 0 <= i < |packages| ==> packages[i].partOf != "All" {
      FilterKeepsNone(Keeps("", "All"), packages);
    }
  }

  /** The version a card shows: the package's version, or '0.1' when it is missing or empty. */
  function VersionShown(version: Option<string>): (r: string)
    ensures r != ""
    ensures version.Some? && version.value != "" ==> r == version.value
  {
    if version.Some? && version.value != "" then version.value else "0.1"
  }

  function CardOf(p: PackageView): Card {
    Card(p.name, "v" + VersionShown(p.version), p.summary, p.partOf)
  }

  function ButtonOf(currentComponent: string): ComponentView -> ComponentButton {
    (c: ComponentView) => ComponentButton(c.name, c.packageCount, c.name == currentComponent)
  }

  class Page {
    var packages: seq<PackageView>
    var filteredPackages: seq<PackageView>
    var selectedPackage: Option<PackageView>
    var currentCategory: string
    var currentComponent: string
    var currentFilter: string
    var isDarkMode: bool
    var storage: map<string, string>
    /** The search box's current value; None when the page has no search box. */
    var searchInput: Option<string>
    const hasGrid: bool
    const hasEmptyState: bool
    const hasComponentsList: bool
    const hasThemeToggle: bool
    const hasLoading: bool
    var loadingDisplay: string
    var gridDisplay: string
    var emptyStateDisplay: string
    var cards: seq<Card>
    var componentButtons: seq<ComponentButton>
    var bodyDark: bool
    var themeToggleLabel: string

    /** The page script's globals as loaded, and the body's dark class applied on start-up:
        dark mode is on only when local storage holds exactly "true" under "darkMode". */
    constructor (storage: map<string, string>, searchInput: Option<string>,
                 hasGrid: bool, hasEmptyState: bool, hasComponentsList: bool, hasThemeToggle: bool,
                 hasLoading: bool)
      ensures this.storage == storage && this.searchInput == searchInput
      ensures this.hasGrid == hasGrid && this.hasEmptyState == hasEmptyState
      ensures this.hasComponentsList == hasComponentsList && this.hasThemeToggle == hasThemeToggle
      ensures this.hasLoading == hasLoading
      ensures packages == [] && filteredPackages == [] && selectedPackage == None
      ensures currentCategory == "all" && currentComponent == "all" && currentFilter == "all"
      ensures isDarkMode <==> "darkMode" in storage && storage["darkMode"] == "true"
      ensures bodyDark == isDarkMode
      ensures cards == [] && componentButtons == []
    {
      this.storage := storage;
      this.searchInput := searchInput;
      this.hasGrid := hasGrid;
      this.hasEmptyState := hasEmptyState;
      this.hasComponentsList := hasComponentsList;
      this.hasThemeToggle := hasThemeToggle;
      this.hasLoading := hasLoading;
      packages := [];
      filteredPackages := [];
      selectedPackage := None;
      currentCategory := "all";
      currentComponent := "all";
      currentFilter := "all";
      isDarkMode := "darkMode" in storage && storage["darkMode"] == "true";
      bodyDark := "darkMode" in storage && storage["darkMode"] == "true";
      loadingDisplay := "";
      gridDisplay := "";
      emptyStateDisplay := "";
      cards := [];
      componentButtons := [];
      themeToggleLabel := "";
    }

    /** `filterAndRender`: recompute the filtered list from the query and the current
        component (the current category and filter play no part), then render it. */
    method FilterAndRender()
      modifies this
      ensures filteredPackages == Visible(packages, Query(searchInput), currentComponent)
      ensures RenderedFrom(old(gridDisplay), old(emptyStateDisplay), old(cards))
      ensures packages == old(packages) && selectedPackage == old(selectedPackage)
      ensures currentCategory == old(currentCategory) && currentComponent == old(currentComponent)
      ensures currentFilter == old(currentFilter) && isDarkMode == old(isDarkMode)
      ensures storage == old(storage) && searchInput == old(searchInput)
      ensures componentButtons == old(componentButtons) && bodyDark == old(bodyDark)
      ensures themeToggleLabel == old(themeToggleLabel)
      ensures loadingDisplay == old(loadingDisplay)
    {
      filteredPackages := Visible(packages, Query(searchInput), currentComponent);
      RenderPackages();
    }

    /** What `renderPackages` leaves on the page for the current filtered list: without a
        grid element nothing changes; an empty list hides the grid and shows the empty
        state; otherwise the grid shows one card per filtered package, in order, and the
        empty state is hidden. */
    predicate RenderedFrom(grid0: string, empty0: string, cards0: seq<Card>)
      reads this
    {
      if !hasGrid then gridDisplay == grid0 && emptyStateDisplay == empty0 && cards == cards0
      else if filteredPackages == [] then
        gridDisplay == "none" && emptyStateDisplay == (if hasEmptyState then "block" else empty0) && cards == cards0
      else
        gridDisplay == "grid" && emptyStateDisplay == (if hasEmptyState then "none" else empty0)
        && cards == Map(CardOf, filteredPackages)
    }

    /** `renderPackages`. */
    method RenderPackages()
      modifies this
      ensures RenderedFrom(old(gridDisplay), old(emptyStateDisplay), old(cards))
      ensures packages == old(packages) && filteredPackages == old(filteredPackages)
      ensures selectedPackage == old(selectedPackage)
      ensures currentCategory == old(currentCategory) && currentComponent == old(currentComponent)
      ensures currentFilter == old(currentFilter) && isDarkMode == old(isDarkMode)
      ensures storage == old(storage) && searchInput == old(searchInput)
      ensures componentButtons == old(componentButtons) && bodyDark == old(bodyDark)
      ensures themeToggleLabel == old(themeToggleLabel)
      ensures loadingDisplay == old(loadingDisplay)
    {
      if !hasGrid {
        return;
      }
      if |filteredPackages| == 0 {
        gridDisplay := "none";
        if hasEmptyState {
          emptyStateDisplay := "block";
        }
        return;
      }
      gridDisplay := "grid";
      if hasEmptyState {
        emptyStateDisplay := "none";
      }
      cards := Map(CardOf, filteredPackages);
    }

    /** `renderComponents`: one button per component, in order, the one named like the
        current component marked active. */
    method RenderComponents(components: seq<ComponentView>)
      modifies this
      ensures hasComponentsList ==> componentButtons == Map(ButtonOf(currentComponent), components)
      ensures !hasComponentsList ==> componentButtons == old(componentButtons)
      ensures packages == old(packages) && filteredPackages == old(filteredPackages)
      ensures selectedPackage == old(selectedPackage)
      ensures currentCategory == old(currentCategory) && currentComponent == old(currentComponent)
      ensures currentFilter == old(currentFilter) && isDarkMode == old(isDarkMode)
      ensures storage == old(storage) && searchInput == old(searchInput)
      ensures gridDisplay == old(gridDisplay) && emptyStateDisplay == old(emptyStateDisplay)
      ensures cards == old(cards) && bodyDark == old(bodyDark) && themeToggleLabel == old(themeToggleLabel)
      ensures loadingDisplay == old(loadingDisplay)
    {
      if !hasComponentsList {
        return;
      }
      componentButtons := Map(ButtonOf(currentComponent), components);
    }

    /** The data `refreshData` receives from the back end: the package list is stored, the
        component buttons rendered and the grid filtered. `RefreshData` then shows the grid
        again when it hides the loading indicator. */
    method ReceiveData(newPackages: seq<PackageView>, components: seq<ComponentView>)
      modifies this
      ensures packages == newPackages
      ensures hasComponentsList ==> componentButtons == Map(ButtonOf(currentComponent), components)
      ensures !hasComponentsList ==> componentButtons == old(componentButtons)
      ensures filteredPackages == Visible(newPackages, Query(searchInput), currentComponent)
      ensures RenderedFrom(old(gridDisplay), old(emptyStateDisplay), old(cards))
      ensures selectedPackage == old(selectedPackage)
      ensures currentCategory == old(currentCategory) && currentComponent == old(currentComponent)
      ensures currentFilter == old(currentFilter) && isDarkMode == old(isDarkMode)
      ensures storage == old(storage) && searchInput == old(searchInput)
      ensures bodyDark == old(bodyDark) && themeToggleLabel == old(themeToggleLabel)
      ensures loadingDisplay == old(loadingDisplay)
    {
      packages := newPackages;
      RenderComponents(components);
      FilterAndRender();
    }

    /** `showLoading`: the loading indicator and the grid take turns. While loading the
        indicator is shown and the grid hidden; afterwards the grid is shown, whatever it
        holds. */
    method ShowLoading(show: bool)
      modifies this
      ensures hasLoading ==> loadingDisplay == (if show then "flex" else "none")
      ensures !hasLoading ==> loadingDisplay == old(loadingDisplay)
      ensures hasGrid ==> gridDisplay == (if show then "none" else "grid")
      ensures !hasGrid ==> gridDisplay == old(gridDisplay)
      ensures packages == old(packages) && filteredPackages == old(filteredPackages)
      ensures selectedPackage == old(selectedPackage)
      ensures currentCategory == old(currentCategory) && currentComponent == old(currentComponent)
      ensures currentFilter == old(currentFilter) && isDarkMode == old(isDarkMode)
      ensures storage == old(storage) && searchInput == old(searchInput)
      ensures emptyStateDisplay == old(emptyStateDisplay) && cards == old(cards)
      ensures componentButtons == old(componentButtons) && bodyDark == old(bodyDark)
      ensures themeToggleLabel == old(themeToggleLabel)
    {
      if hasLoading {
        loadingDisplay := if show then "flex" else "none";
      }
      if hasGrid {
        gridDisplay := if show then "none" else "grid";
      }
    }

    /** `refreshData`. Each back-end call either answers or throws: `statsAnswered` says
        whether the statistics call answered, and `fetchedPackages` and `fetchedComponents`
        hold the answers of the package and component calls, None when a call threw. A
        throw ends the work, and the loading indicator is hidden in any case. So a refresh
        always leaves the grid shown, even when the filtered list is empty and the empty
        state is shown beside it. */
    method RefreshData(statsAnswered: bool, fetchedPackages: Option<seq<PackageView>>,
                       fetchedComponents: Option<seq<ComponentView>>)
      modifies this
      ensures hasLoading ==> loadingDisplay == "none"
      ensures !hasLoading ==> loadingDisplay == old(loadingDisplay)
      ensures hasGrid ==> gridDisplay == "grid"
      ensures !hasGrid ==> gridDisplay == old(gridDisplay)
      ensures packages == if statsAnswered && fetchedPackages.Some? then fetchedPackages.value else old(packages)
      ensures statsAnswered && fetchedPackages.Some? && fetchedComponents.Some? ==>
        && (hasComponentsList ==> componentButtons == Map(ButtonOf(currentComponent), fetchedComponents.value))
        && (!hasComponentsList ==> componentButtons == old(componentButtons))
        && filteredPackages == Visible(packages, Query(searchInput), currentComponent)
        && emptyStateDisplay == (if hasGrid && hasEmptyState then (if filteredPackages == [] then "block" else "none")
                                 else old(emptyStateDisplay))
        && cards == (if hasGrid && filteredPackages != [] then Map(CardOf, filteredPackages) else old(cards))
      ensures !(statsAnswered && fetchedPackages.Some? && fetchedComponents.Some?) ==>
        && componentButtons == old(componentButtons) && filteredPackages == old(filteredPackages)
        && emptyStateDisplay == old(emptyStateDisplay) && cards == old(cards)
      ensures selectedPackage == old(selectedPackage)
      ensures currentCategory == old(currentCategory) && currentComponent == old(currentComponent)
      ensures currentFilter == old(currentFilter) && isDarkMode == old(isDarkMode)
      ensures storage == old(storage) && searchInput == old(searchInput)
      ensures bodyDark == old(bodyDark) && themeToggleLabel == old(themeToggleLabel)
    {
      if statsAnswered {
        ShowLoading(true);
        if fetchedPackages.Some? {
          if fetchedComponents.Some? {
            ReceiveData(fetchedPackages.value, fetchedComponents.value);
          } else {
            packages := fetchedPackages.value;
          }
        }
      }
      ShowLoading(false);
    }

    /** A click on the component button at `index`: only that button is active, the current
        component becomes its name, and the grid is filtered again. */
    method ClickComponent(index: nat)
      requires index < |componentButtons|
      modifies this
      ensures currentComponent == old(componentButtons[index].name)
      ensures |componentButtons| == |old(componentButtons)|
      ensures forall i :: 0 <= i < |componentButtons| ==>
        componentButtons[i] == old(componentButtons[i]).(active := i == index)
      ensures filteredPackages == Visible(packages, Query(searchInput), currentComponent)
      ensures RenderedFrom(old(gridDisplay), old(emptyStateDisplay), old(cards))
      ensures packages == old(packages) && selectedPackage == old(selectedPackage)
      ensures currentCategory == old(currentCategory) && currentFilter == old(currentFilter)
      ensures isDarkMode == old(isDarkMode) && storage == old(storage) && searchInput == old(searchInput)
      ensures bodyDark == old(bodyDark) && themeToggleLabel == old(themeToggleLabel)
      ensures loadingDisplay == old(loadingDisplay)
    {
      var buttons := componentButtons;
      componentButtons := seq(|buttons|, i requires 0 <= i < |buttons| => buttons[i].(active := i == index));
      currentComponent := buttons[index].name;
      FilterAndRender();
    }

    /** A click on a category button: the category is recorded and the grid filtered again,
        which the category does not affect. */
    method ClickCategory(category: string)
      modifies this
      ensures currentCategory == category
      ensures filteredPackages == Visible(packages, Query(searchInput), currentComponent)
      ensures RenderedFrom(old(gridDisplay), old(emptyStateDisplay), old(cards))
      ensures packages == old(packages) && selectedPackage == old(selectedPackage)
      ensures currentComponent == old(currentComponent) && currentFilter == old(currentFilter)
      ensures isDarkMode == old(isDarkMode) && storage == old(storage) && searchInput == old(searchInput)
      ensures componentButtons == old(componentButtons) && bodyDark == old(bodyDark)
      ensures themeToggleLabel == old(themeToggleLabel)
      ensures loadingDisplay == old(loadingDisplay)
    {
      currentCategory := category;
      FilterAndRender();
    }

    /** A click on a filter button: the filter is recorded and the grid filtered again,
        which the filter does not affect. */
    method ClickFilter(filter: string)
      modifies this
      ensures currentFilter == filter
      ensures filteredPackages == Visible(packages, Query(searchInput), currentComponent)
      ensures RenderedFrom(old(gridDisplay), old(emptyStateDisplay), old(cards))
      ensures packages == old(packages) && selectedPackage == old(selectedPackage)
      ensures currentComponent == old(currentComponent) && currentCategory == old(currentCategory)
      ensures isDarkMode == old(isDarkMode) && storage == old(storage) && searchInput == old(searchInput)
      ensures componentButtons == old(componentButtons) && bodyDark == old(bodyDark)
      ensures themeToggleLabel == old(themeToggleLabel)
      ensures loadingDisplay == old(loadingDisplay)
    {
      currentFilter := filter;
      FilterAndRender();
    }

    /** `toggleTheme`: dark mode flips, the body's dark class flips, the toggle offers the
        other theme, and the new setting is stored as "true" or "false". */
    method ToggleTheme()
      modifies this
      ensures isDarkMode == !old(isDarkMode) && bodyDark == !old(bodyDark)
      ensures hasThemeToggle ==> themeToggleLabel == (if isDarkMode then "Light" else "Dark")
      ensures !hasThemeToggle ==> themeToggleLabel == old(themeToggleLabel)
      ensures storage == old(storage)["darkMode" := if isDarkMode then "true" else "false"]
      ensures packages == old(packages) && filteredPackages == old(filteredPackages)
      ensures selectedPackage == old(selectedPackage)
      ensures currentCategory == old(currentCategory) && currentComponent == old(currentComponent)
      ensures currentFilter == old(currentFilter) && searchInput == old(searchInput)
      ensures gridDisplay == old(gridDisplay) && emptyStateDisplay == old(emptyStateDisplay)
      ensures cards == old(cards) && componentButtons == old(componentButtons)
      ensures loadingDisplay == old(loadingDisplay)
    {
      isDarkMode := !isDarkMode;
      bodyDark := !bodyDark;
      if hasThemeToggle {
        themeToggleLabel := if isDarkMode then "Light" else "Dark";
      }
      storage := storage["darkMode" := if isDarkMode then "true" else "false"];
    }
  }

  /** The stored setting reads back: a page loaded after a toggle starts in the mode the
      toggle chose. */
  method ToggleThenReload(page: Page) returns (reloaded: Page)
    modifies page
    ensures reloaded.isDarkMode == page.isDarkMode == !old(page.isDarkMode)
  {
    page.ToggleTheme();
    reloaded := new Page(page.storage, page.searchInput, page.hasGrid, page.hasEmptyState,
                         page.hasComponentsList, page.hasThemeToggle, page.hasLoading);
  }
}
