# pm-gui, modelled in Dafny

pm-gui is a graphical package manager for Pisi Linux. It ships two front ends over one back end:

- a native egui window;
- a web page, driven by Tauri commands.

This project models the core of both and proves properties of the model:

- **The Pisi index reader** (`XmlParser`, over the document tree in `Xml`). It turns the index document into package records. Every field is read leniently, with a literal default. It also aggregates the records into a per-component count list, sorted by name and headed by a synthetic "All" entry.
- **The `pisi` command layer** (`PackageManager`) and the statistics command (`Commands`):
  - searching the index;
  - reading package names out of the tool's output;
  - install, remove, update and update-repo;
  - locating a package icon.
- **The egui application** (`App`, `Events`, `GuiThemes`, `ConfigThemes`, `PackageGrid`):
  - the event queue, which is really a stack;
  - the event drain;
  - the one-time index load with its fall-back to demonstration data;
  - the header buttons;
  - the package grid's filter, its three-column layout and its package cards.
- **The web page** (`FrontendApp`): its global state, the search-and-component filter, rendering the grid and the component buttons, and the dark-mode toggle.
- **The page's translator** (`I18n`): the start-up language, the key lookup with its fall-back, loading a locale, and writing translations into the marked elements.

Code that only computes is modelled as functions and lemmas. Objects whose methods update fields are modelled as classes with `modifies` clauses:

- the event manager;
- the application object;
- the web page's state;
- the translator.

Code with loops is modelled as methods whose loops carry invariants. Each such method is proved against a specification function:

- record parsing;
- history and dependency parsing;
- component counting, collection and sorting;
- the column layout;
- the icon lookup;
- the event drain;
- applying translations.

Rust's `u32`/`u64` fields are subset types. A numeric attribute that does not fit the field reads as absent, exactly as a failed `parse()` does.

Where the project's documentation and its code disagree, the model follows the code:

- the index is walked as `doc.root().children()`, which yields only the top element of a parsed document;
- `get_text` searches all descendants, the node itself first, not just its direct children;
- a dependency's `version` is None only when the attribute is absent;
- no index caching, no curated component names and no obsolete-package handling appear, because the code has none.

`DocumentYieldsTopElementOnly` states the consequence of this walk as written: a parsed document yields at most one record.

## Model

| member | source | states |
|---|---|---|
| XmlParser.AttrOr | src/backend/xml_parser.rs:90 | the attribute's value when the element carries it, the literal default otherwise |
| XmlParser.AttrU32 | src/backend/xml_parser.rs:86-88 | Some exactly when the attribute is present and parses as a u32, with the parsed value |
| XmlParser.AttrU64 | src/backend/xml_parser.rs:91-96 | Some exactly when the attribute is present and parses as a u64, with the parsed value |
| Xml.FindDescendant | src/backend/xml_parser.rs:150-151 | the first node carrying the tag in pre-order, the node itself included; None exactly when no descendant carries it |
| XmlParser.GetText | src/backend/xml_parser.rs:149-154 | Some exactly when the first node with the tag has text; the result is that text trimmed, so it has no whitespace at either end and is no longer than the text |
| XmlParser.GetTextTrimmed | src/backend/xml_parser.rs:149-154 | get_text is Some exactly when the first descendant with the tag has a leading text child; the result is that text with whitespace stripped from both ends, leaving none at either end |
| XmlParser.GetTextStopsAtSelf | src/backend/xml_parser.rs:149-154 | the search starts with the node itself, so a node with the tag answers with its own trimmed text |
| XmlParser.GetTextUnpadded | src/backend/xml_parser.rs:83-89 | a text field read with unwrap_or_default never starts or ends with whitespace |
| XmlParser.ParseSource | src/backend/xml_parser.rs:156-166 | Some exactly when the first Source descendant has a non-empty name; the record then holds its name and homepage attributes (homepage "" when absent) |
| XmlParser.ParseHistory | src/backend/xml_parser.rs:168-184 | the loop collects exactly the specification's entries, one per Update node under the first History node, in document order |
| XmlParser.HistoryOf | src/backend/xml_parser.rs:168-184 | what parse_history returns: nothing without a History node, otherwise one entry per Update node under it |
| XmlParser.HistoryEntries | src/backend/xml_parser.rs:168-184 | no History node gives no entries; otherwise one entry per Update descendant, with version and date defaulting to "" and release defaulting to 1 |
| XmlParser.DependencyStep | src/backend/xml_parser.rs:190-198 | one more candidate node appends its dependency exactly when it is a Package node with a non-empty trimmed name |
| XmlParser.ParseDependencies | src/backend/xml_parser.rs:186-202 | the loop collects exactly the specification's dependencies |
| XmlParser.DependenciesOf | src/backend/xml_parser.rs:186-202 | what parse_dependencies returns: nothing without a Dependencies node, and never a dependency with an empty name |
| XmlParser.DependencyEntries | src/backend/xml_parser.rs:186-202 | no Dependencies node gives none; every dependency has a non-empty, trimmed name; a Package node under Dependencies is kept exactly when its trimmed text is non-empty |
| XmlParser.NamedDependencyNames | src/backend/xml_parser.rs:191-197 | every kept dependency name is non-empty and trimmed |
| XmlParser.NamedDependencyKept | src/backend/xml_parser.rs:190-198 | a Package node's dependency is in the result exactly when its trimmed text is non-empty |
| XmlParser.DependencyNameUnpadded | src/backend/xml_parser.rs:191 | the dependency name is the trimmed text |
| XmlParser.DependencyFields | src/backend/xml_parser.rs:192-193 | version is Some exactly when the attribute is present; release is Some exactly when the attribute is present and a valid u32 |
| XmlParser.ParseRecords | src/backend/xml_parser.rs:70-107 | the loop over the walked node's children yields exactly the specification's records |
| XmlParser.RecordOf | src/backend/xml_parser.rs:81-104 | the record built from a package node: named after its tag, with a source only when it has a non-empty name and only named dependencies |
| XmlParser.RecordsOf | src/backend/xml_parser.rs:70-107 | the records of the walked node's package children: at most one per child, every source named |
| XmlParser.ParsePisiIndex | src/backend/xml_parser.rs:64-111 | a document parse error is passed on; otherwise Ok with the records of the document's root children |
| XmlParser.RecordDefaults | src/backend/xml_parser.rs:81-104 | the record's name is the tag, and each absent or unparsable field takes its literal default (release 1, sizes 0, partOf "Unknown", format "1.0", distribution "PisiLinux", release "2.0", architecture "x86_64", texts "") |
| XmlParser.RecordTextTrimmed | src/backend/xml_parser.rs:83-89 | summary, description, version and license never carry surrounding whitespace |
| XmlParser.RecordsFollowChildren | src/backend/xml_parser.rs:70-107 | one record per element child other than Distribution, in child order; no record is named Distribution; every such child's record is present |
| XmlParser.RecordOfKept | src/backend/xml_parser.rs:71-105 | every element child not named Distribution contributes its record |
| XmlParser.DocumentYieldsTopElementOnly | src/backend/xml_parser.rs:70-71 | walking a parsed document's root yields its single top element's record, or nothing when that element is Distribution |
| XmlParser.LoadPisiIndex | src/backend/xml_parser.rs:54-62 | a read error becomes "Failed to read Pisi index file: " with the error; a parse error is passed on; otherwise the document's records |
| XmlParser.ComponentName | src/backend/xml_parser.rs:117-121 | "Unknown" and empty components count as "other"; any other component counts under itself; a counted name is never "Unknown" or "" |
| XmlParser.CountStep | src/backend/xml_parser.rs:116-124 | one more package raises exactly its own component's count by one |
| XmlParser.CountComponents | src/backend/xml_parser.rs:114-124 | the map holds a name exactly when some package counts under it, with the number of such packages |
| XmlParser.CollectEntries | src/backend/xml_parser.rs:128-134 | the collected list holds exactly one entry per map key, carrying its count, and none for other names |
| XmlParser.CollectStep | src/backend/xml_parser.rs:128-134 | collecting one more map key adds exactly its entry, with its count, and leaves every other name's entries as they were |
| XmlParser.Insert | src/backend/xml_parser.rs:144 | inserting into a sorted list keeps it sorted and adds exactly the one element |
| XmlParser.InsertNamed | src/backend/xml_parser.rs:144 | insertion adds the element to its own name's entries and changes no other name's entries |
| XmlParser.SortByName | src/backend/xml_parser.rs:144 | the result is sorted by name and is a permutation of the input, with every name's entries in their original order |
| XmlParser.ParseComponents | src/backend/xml_parser.rs:113-147 | the result is sorted by name, holds ("All", number of packages) before any other "All" entry, and the remaining entries are the per-component count table |
| XmlParser.SortedIsComponentList | src/backend/xml_parser.rs:137-144 | any sorted arrangement of the "All" entry plus the count table is a valid component list |
| XmlParser.CountTableSum | src/backend/xml_parser.rs:114-124 | the counts of the count table add up to the number of packages |
| XmlParser.CountTableEntries | src/backend/xml_parser.rs:114-134 | every table entry counts at least one package and exactly its component's packages; no name is "Unknown" or ""; names are distinct |
| XmlParser.ComponentListFacts | src/backend/xml_parser.rs:113-147 | a component list is sorted and holds ("All", n); the other entries sum to n, each counts at least one package, has a real name and appears once |
| PackageManager.SearchPackages | src/backend/package_manager.rs:15-22 | an index load error is passed on; otherwise the result is a subsequence of the index |
| PackageManager.Matches | src/backend/package_manager.rs:20 | the search test: the lowered name or lowered summary contains the query; SearchFindsExactlyMatches states what it selects |
| PackageManager.SearchFindsExactlyMatches | src/backend/package_manager.rs:18-21 | a package is found exactly when its lowered name or lowered summary contains the lowered query |
| PackageManager.EmptyQueryFindsAll | src/backend/package_manager.rs:18-21 | the empty query returns the whole index in order |
| PackageManager.SearchIgnoresQueryCase | src/backend/package_manager.rs:18 | lowering the query beforehand does not change the result |
| PackageManager.IndexOf | src/backend/package_manager.rs:33 | the position of the first line feed, or the length when there is none |
| PackageManager.Lines | src/backend/package_manager.rs:33 | str::lines gives no lines exactly for empty output |
| PackageManager.LinesHaveNoLineFeed | src/backend/package_manager.rs:33 | no line contains a line feed |
| PackageManager.LinesCons | src/backend/package_manager.rs:33 | the output splits at its first line feed, a carriage return before it dropped |
| PackageManager.PackageNames | src/backend/package_manager.rs:32-36 | at most one name per output line, and no name is empty |
| PackageManager.PackageNamesAreTokens | src/backend/package_manager.rs:31-37 | every listed name is non-empty, holds no whitespace, and is the first token of some output line |
| PackageManager.KeptToken | src/backend/package_manager.rs:34-35 | a kept token is a non-empty run without whitespace taken from one of the lines |
| PackageManager.PackageNamesCons | src/backend/package_manager.rs:96-103 | names are read line by line: the first line's token comes first unless the line is blank |
| PackageManager.ListingOutcomes | src/backend/package_manager.rs:24-42 | each listing succeeds exactly when pisi starts and succeeds, giving the output's names; otherwise the start error or the command's message plus the error output |
| PackageManager.InstalledPackages | src/backend/package_manager.rs:24-42 | Ok exactly when `pisi li` starts and succeeds, with non-empty names; a failing run gives an error ending with its error output |
| PackageManager.UpgradablePackages | src/backend/package_manager.rs:89-108 | Ok exactly when `pisi list-upgrades` starts and succeeds, with non-empty names; a failing run gives an error ending with its error output |
| PackageManager.ActionArgs | src/backend/package_manager.rs:47 | the arguments are the action's subcommand (it, rm, up), the package name and -y |
| PackageManager.ActionArgsDistinct | src/backend/package_manager.rs:44-87 | two calls pass the same arguments exactly when they are the same action on the same package |
| PackageManager.PackageAction | src/backend/package_manager.rs:44-87 | Ok exactly when pisi starts and succeeds, with a message naming the package; a failing run gives an error ending with its error output |
| PackageManager.ActionOutcome | src/backend/package_manager.rs:44-87 | an action succeeds exactly when pisi starts and succeeds, reporting the package and what was done; otherwise the start error, or a failure message ending with the error output |
| PackageManager.UpdateRepo | src/backend/package_manager.rs:110-122 | Ok exactly when pisi ur starts and succeeds; otherwise the start error, or a message ending with the error output |
| PackageManager.IconPaths | src/backend/package_manager.rs:130-134 | three candidate paths |
| PackageManager.GetPackageIcon | src/backend/package_manager.rs:124-146 | the loop returns exactly the specification's outcome: the first existing candidate decides |
| PackageManager.IconResult | src/backend/package_manager.rs:124-146 | an empty name is refused; success is a PNG data URL and needs an existing candidate; no existing candidate gives "Icon not found" |
| PackageManager.EmptyIconName | src/backend/package_manager.rs:126-128 | an empty name is refused before any file is looked at |
| PackageManager.IconLookupOrder | src/backend/package_manager.rs:136-143 | when candidate k exists and no earlier one does, k's contents encoded as a PNG data URL, or k's read error, is the result |
| PackageManager.IconNotFound | src/backend/package_manager.rs:145 | with no candidate present the result is "Icon not found" |
| Commands.Available | src-tauri/src/commands.rs:22 | never more than the total; adds up with installed to the total when installed does not exceed it; zero exactly when installed reaches the total |
| Commands.GetPackageStats | src-tauri/src/commands.rs:14-31 | Ok exactly when all three fetches succeed, each failure in fetch order otherwise; the counts are the lengths and available is at most the total |
| Commands.StatsAddUp | src-tauri/src/commands.rs:20-23 | installed and available make the total unless more packages are installed than listed, in which case available is 0 |
| Events.EventManager.constructor | src/gui/events.rs:13-15 | no pending events |
| Events.EventManager.Push | src/gui/events.rs:17-19 | the event is appended |
| Events.EventManager.Pop | src/gui/events.rs:21-23 | the most recently pushed event is removed and returned; None with nothing changed when empty |
| Events.EventManager.Clear | src/gui/events.rs:25-27 | no pending events |
| Events.PushThenPop | src/gui/events.rs:17-23 | last in, first out: a pushed event pops straight back and the queue is as before |
| GuiThemes.Name | src/gui/themes.rs:17-22 | "Light" exactly for Light and "Dark" exactly for Dark |
| GuiThemes.Next | src/gui/themes.rs:24-29 | the other theme |
| GuiThemes.Default | src/gui/themes.rs:32-36 | the default theme is the one named "Light" |
| GuiThemes.NextInvolution | src/gui/themes.rs:24-29 | toggling twice restores the theme |
| GuiThemes.NameInjective | src/gui/themes.rs:17-29 | distinct themes have distinct names, and every toggle changes the name |
| ConfigThemes.Name | src/config/themes.rs:10-15 | "Light" exactly for Light and "Dark" exactly for Dark |
| ConfigThemes.Next | src/config/themes.rs:17-22 | the other theme |
| ConfigThemes.NextInvolution | src/config/themes.rs:17-22 | toggling twice restores the theme |
| ConfigThemes.NextBijective | src/config/themes.rs:17-22 | next is a bijection on the themes |
| App.Apply | src/gui/app.rs:137-148 | the effect of one event on the selection, as the match arms of handle_events set it; the Drain lemmas state its consequences |
| App.Drain | src/gui/app.rs:135-151 | the pending events applied newest first, as the pop loop handles them; HandleEvents is proved equal to it |
| App.DrainKeepsCategory | src/gui/app.rs:135-151 | without a category event the selected category is unchanged |
| App.EarliestCategoryWins | src/gui/app.rs:135-151 | because the queue pops newest first, the earliest pushed category event decides the category |
| App.DrainKeepsComponent | src/gui/app.rs:135-151 | without a component event the selected component is unchanged |
| App.EarliestComponentWins | src/gui/app.rs:135-151 | the earliest pushed component event decides the component |
| App.DrainViewAndSettings | src/gui/app.rs:135-151 | any selection event switches to the package list; the settings dialog is open afterwards exactly when it was open before or a ShowSettings event was pending |
| App.MockPackages | src/gui/app.rs:298-341 | two demonstration records |
| App.MockCounts | src/gui/app.rs:298-341 | one demonstration package each under "web" and "office", none under any other name |
| App.MockComponentList | src/gui/app.rs:343 | the demonstration component list is exactly All 2, office 1, web 1 |
| App.PackageManagerApp.constructor | src/gui/app.rs:45-75 | light theme, welcome view, settings closed, component "All", category "Installed", no packages, no pending events |
| App.PackageManagerApp.HandleEvents | src/gui/app.rs:135-151 | the queue ends empty and the selection is the pending events applied newest first; packages, components and theme are unchanged |
| App.PackageManagerApp.CreateMockData | src/gui/app.rs:295-344 | the demonstration records and the list All 2, office 1, web 1 |
| App.PackageManagerApp.LoadPackagesFromXml | src/gui/app.rs:249-292 | nothing changes once packages are present; otherwise the index's records with their component list, or the demonstration data on error |
| App.PackageManagerApp.ClickThemeButton | src/gui/app.rs:416-418 | the theme becomes the next one; selection, view, packages and components are unchanged |
| App.PackageManagerApp.ClickSettingsButton | src/gui/app.rs:421-423 | the settings dialog opens; theme, view, selection, packages and components are unchanged |
| PackageGrid.CategoryMatch | src/gui/components/package_grid.rs:59-64 | the category test: Installed and Updates ask the placeholder checks, every other category accepts |
| PackageGrid.ComponentMatch | src/gui/components/package_grid.rs:67-71 | the component test: All accepts, any other component requires an equal part_of |
| PackageGrid.FilteredPackages | src/gui/components/package_grid.rs:55-76 | the kept packages, in order, are exactly those passing the category and component tests |
| PackageGrid.AllComponentKeepsEverything | src/gui/components/package_grid.rs:59-71 | with component "All" and a category other than Installed or Updates every package is shown |
| PackageGrid.ComponentKeepsItsPackages | src/gui/components/package_grid.rs:67-71 | any other component shows exactly the packages whose part_of equals it, in order |
| PackageGrid.PlaceholderCategoriesShowNothing | src/gui/components/package_grid.rs:59-64 | Installed and Updates ask the always-false placeholder checks, so they show nothing |
| PackageGrid.Heading | src/gui/components/package_grid.rs:14 | the heading is the category followed by " Packages" |
| PackageGrid.FoundLabel | src/gui/components/package_grid.rs:16 | the label beside the heading ends with " packages found" |
| PackageGrid.FoundLabelCounts | src/gui/components/package_grid.rs:16 | the label's leading digits read back as the number of filtered packages |
| PackageGrid.PerColumn | src/gui/components/package_grid.rs:34 | the per-column count is n divided by three, rounded up |
| PackageGrid.ColumnsPartition | src/gui/components/package_grid.rs:33-47 | the three columns together cover every index below n once, in ascending order, none holding more than the per-column count |
| PackageGrid.ColumnIndices | src/gui/components/package_grid.rs:36-47 | the nested loops draw exactly each column's range, and together every index once in order |
| PackageGrid.Layout | src/gui/components/package_grid.rs:26-50 | "No packages found" exactly when nothing passes the filter; otherwise three columns covering every filtered package |
| PackageGrid.ActionButtons | src/gui/components/package_grid.rs:109-131 | Install exactly when not installed, Remove exactly when installed, Update exactly when installed with an update, Update before Remove |
| PackageGrid.IconsDistinct | src/gui/components/package_grid.rs:147-158 | the six known packages get six distinct glyphs, none of them the parcel; every other name gets the parcel |
| PackageGrid.SizeLine | src/gui/components/package_grid.rs:98-101 | a size line is shown exactly for packages of at least 1,000,000 bytes |
| PackageGrid.SizeLineValue | src/gui/components/package_grid.rs:98-100 | the megabytes shown are the size rounded down, at least one |
| PackageGrid.LicenseLine | src/gui/components/package_grid.rs:104-106 | a license line is shown exactly for a non-empty license, and it ends with that license |
| PackageGrid.VersionLineParts | src/gui/components/package_grid.rs:94 | the version label holds the version, then a dash, then a dash-free release number that reads back as the release |
| PackageGrid.PackageIcon | src/gui/components/package_grid.rs:147-158 | the glyph for a package name; IconsDistinct states which names get which |
| PackageGrid.VersionLine | src/gui/components/package_grid.rs:94 | "Version: ", the version and a dash, followed by the release in decimal |
| PackageGrid.PackageCard | src/gui/components/package_grid.rs:78-134 | the card carries the package's name, summary and component, and shows size and license lines under their conditions |
| PackageGrid.CardsOfferOnlyInstall | src/gui/components/package_grid.rs:110-130 | with the placeholder checks, every card offers only Install |
| FrontendApp.QueryNormalized | frontend/app.js:182 | the query holds no upper-case ASCII letter and needs no further trimming |
| FrontendApp.Query | frontend/app.js:182 | the search box's value lowered and trimmed, or "" without a box; QueryNormalized states its shape |
| FrontendApp.Keeps | frontend/app.js:184-190 | the page's filter test; VisibleExactly states what it keeps |
| FrontendApp.Visible | frontend/app.js:184-190 | the filtered list is a subsequence of the packages |
| FrontendApp.VisibleExactly | frontend/app.js:184-190 | a package is shown exactly when it matches a non-empty query by name or summary and, unless the component is 'all', has that part_of |
| FrontendApp.CapitalAllIsLiteral | frontend/app.js:188 | only lower-case 'all' switches the component test off; the back end's "All" component shows only packages whose part_of is literally "All" |
| FrontendApp.VersionShown | frontend/app.js:220 | a card's version is the package's non-empty version, or '0.1' |
| FrontendApp.Page.constructor | frontend/app.js:48-54 | the page's initial globals; dark mode exactly when local storage holds "true" under darkMode, with the body's class to match |
| FrontendApp.Page.FilterAndRender | frontend/app.js:181-193 | the filtered list is recomputed from the query and the current component, and the grid is rendered from it; nothing else changes |
| FrontendApp.Page.RenderPackages | frontend/app.js:195-212 | without a grid nothing changes; an empty list hides the grid and shows the empty state; otherwise one card per filtered package, in order |
| FrontendApp.CardOf | frontend/app.js:214-230 | the card of one package: its name, "v" and the shown version, its summary and its component |
| FrontendApp.ButtonOf | frontend/app.js:251-255 | the button of one component: its name and count, active exactly when it is the current component |
| FrontendApp.Page.RenderComponents | frontend/app.js:249-256 | one button per component, in order, active exactly when named like the current component |
| FrontendApp.Page.ReceiveData | frontend/app.js:122-126 | the packages are stored, the component buttons rendered, and the filtered list recomputed and rendered; the query, selection, category, filter and theme fields are unchanged; the grid's visibility here is the one `renderPackages` sets, which `refreshData` then overrides (see RefreshData) |
| FrontendApp.Page.ShowLoading | frontend/app.js:267-270 | while loading, the indicator shows ("flex") and the grid hides; afterwards the indicator hides and the grid shows ("grid"); only existing elements change |
| FrontendApp.Page.RefreshData | frontend/app.js:116-132 | each back-end call may throw, which ends the work; the packages are stored once their call answers; the buttons, filtered list, cards and empty state change only when all three calls answer; in every case the indicator ends hidden and the grid ends shown, even beside the empty state |
| FrontendApp.Page.ClickComponent | frontend/app.js:257-264 | only the clicked button is active, the current component is its name, and the filter is reapplied and the grid rendered; the query, selection, category, filter and theme fields are unchanged |
| FrontendApp.Page.ClickCategory | frontend/app.js:158-165 | the category is recorded and the filter, which ignores it, is reapplied and the grid rendered; every other page field is unchanged |
| FrontendApp.Page.ClickFilter | frontend/app.js:167-174 | the filter is recorded and the grid filter, which ignores it, is reapplied and the grid rendered; every other page field is unchanged |
| FrontendApp.Page.ToggleTheme | frontend/app.js:272-279 | dark mode and the body class flip, the toggle offers the other theme, and "true" or "false" is stored |
| FrontendApp.ToggleThenReload | frontend/app.js:54 | a page loaded after a toggle starts in the mode the toggle chose |
| I18n.InitialLanguage | frontend/js/i18n.js:5-6 | never empty; a stored non-empty 'lang' wins; otherwise 'tr' exactly when the browser language starts with "tr" |
| I18n.Lookup | frontend/js/i18n.js:25-27 | the current locale's non-empty value for the key, otherwise the key itself |
| I18n.Translated | frontend/js/i18n.js:33-48 | an input with a placeholder gets the translation as placeholder; an element without element children gets it as its whole text |
| I18n.OnlyFirstTextReplaced | frontend/js/i18n.js:42-47 | an element with element children keeps every node except the first non-blank text node, which alone becomes the translation |
| I18n.Translator.constructor | frontend/js/i18n.js:3-7 | no locale loaded; the start-up language |
| I18n.Translator.T | frontend/js/i18n.js:25-27 | the key itself or the current locale's value for it |
| I18n.Translator.LoadLang | frontend/js/i18n.js:14-23 | on success the locale is stored, becomes current and is saved under 'lang'; on failure nothing changes |
| I18n.Translator.ApplyTranslations | frontend/js/i18n.js:29-51 | every marked element, in order, receives its key's translation by the replacement rule |
| I18n.Translator.TranslateElement | frontend/js/i18n.js:30-49 | one element is translated exactly as the replacement rule says |
| I18n.Translator.FindFirstNonBlankText | frontend/js/i18n.js:42-47 | the scan stops at the first text node with non-blank content |
| I18n.Translator.Init | frontend/js/i18n.js:9-12 | the language stays; on success its locale is stored and saved under 'lang', on failure locales and storage are unchanged; the page is translated and no event is sent |
| I18n.Translator.SetLanguage | frontend/js/i18n.js:53-58 | the language loaded, the page translated, and the language announced once |
| I18n.StoredLanguageRestored | frontend/js/i18n.js:5-18 | a successfully loaded non-empty language is the one the next start-up picks |
| I18n.LookupAfterLoad | frontend/js/i18n.js:16-26 | after loading a locale, lookups answer from it, falling back to the key |
| I18n.LoadThenLookup | frontend/js/i18n.js:14-27 | after loading, a key the locale maps to a non-empty value is translated, and every other key comes back unchanged |
| Text.TrimShape | src/backend/xml_parser.rs:153 | trimming yields a slice of the input with whitespace only before and after it, and none at either end |
| Text.TrimIdempotent | frontend/app.js:182 | trimming twice is trimming once |
| Text.FirstTokenShape | src/backend/package_manager.rs:34 | the first whitespace-separated token follows the leading whitespace, is whitespace-free, and is empty exactly for blank lines |
| Text.ToLowerIdempotent | src/backend/package_manager.rs:18 | lowering twice is lowering once |
| Text.ParseDecimalString | src/gui/components/package_grid.rs:94 | a number printed in decimal parses back to itself |
| Text.DecimalRoundTrip | src/gui/components/package_grid.rs:94 | the printed digits denote the number |
| Xml.FindDescendantSelf | src/backend/xml_parser.rs:150-151 | the descendant search visits the node itself first |

## Left out

- I/O is modelled as parameters or left out, and each of these is supplied as a parameter:
  - reading the index file and parsing the XML document (`Document::parse`);
  - spawning `pisi`;
  - the file-existence checks and file reads of the icon lookup;
  - base64 encoding;
  - fetching and decoding locale files;
  - the browser language.
- Local storage is a map field.
- The XML parser itself and namespaces are not modelled. The document tree is a datatype with roxmltree's five node kinds: root, element, text, comment and processing instruction.
- Lower-casing is ASCII-only. Rust's `to_lowercase` and JavaScript's `toLowerCase` also fold non-ASCII letters.
- `String::from_utf8_lossy` is not modelled. The tool's output is taken as text.
- Locale values are strings. A non-string JSON value in a locale file is not modelled.
- Drawing is not modelled: the egui widgets, fonts, images, the logo, the sidebar, the details panel, the settings modal, HTML templating and CSS. The model keeps only the state they read and the values they show.
- Debug printing is not modelled, including the top-ten component listing in `load_packages_from_xml` (src/gui/app.rs:261-285), which changes no state.
- The Tauri commands that only forward a `package_manager` result are represented by their counterparts in `PackageManager`. The same holds for `get_packages`, which forwards the index load.
- `get_components` calls `XmlParser::get_components`, which the repository does not define. It is not part of this model.
- src/backend/repository.rs is not part of this model.
- Several parts of the web page are not modelled, because each only moves data between the page and the back end or only decorates the page:
  - asynchronous invocation, `waitForTauriAPI`, the mock invoke setup and the search debounce timer;
  - `updateUIStats` and `selectPackage` (`RefreshData` takes only whether the statistics call answered);
  - the active classes of category and filter buttons.
- The application wiring files and the settings structure are not modelled; they hold no logic beyond construction.
