/** The package grid of the desktop window: which packages it shows for the selected category
    and component, how it spreads them over three columns, and what each package card says.
    Drawing itself is left to the widget toolkit and is not modelled. */
module PackageGrid {
  import opened Wrappers
  import opened Seqs
  import opened Text
  import opened XmlParser

  // ---------------------------------------------------------------------------------------
  // Filtering

  /** Placeholder installation check: no package is reported as installed. */
  predicate IsPackageInstalled(name: string) {
    false
  }

  /** Placeholder update check: no package is reported as having an update. */
  predicate HasPackageUpdate(name: string) {
    false
  }

  /** The category test: "Installed" and "Updates" ask the placeholder checks, "All" and
      every other category accept the package. */
  predicate CategoryMatch(category: string, p: PackageInfo) {
    if category == "Installed" then IsPackageInstalled(p.name)
    else if category == "Updates" then HasPackageUpdate(p.name)
    else true
  }

  /** The component test: "All" accepts every package, any other value only the packages
      whose `part_of` is that value. */
  predicate ComponentMatch(component: string, p: PackageInfo) {
    component == "All" || p.partOf == component
  }

  function Keeps(category: string, component: string): PackageInfo -> bool {
    (p: PackageInfo) => CategoryMatch(category, p) && ComponentMatch(component, p)
  }

  /** `get_filtered_packages`: the packages passing both tests, in their original order. */
  function FilteredPackages(packages: seq<PackageInfo>, category: string, component: string): (r: seq<PackageInfo>)
    ensures IsSubsequence(r, packages)
    ensures forall i :: 0 <= i < |r| ==> CategoryMatch(category, r[i]) && ComponentMatch(component, r[i])
    ensures forall i :: (0 <= i < |packages| && CategoryMatch(category, packages[i])
                         && ComponentMatch(component, packages[i])) ==> packages[i] in r
  {
    FilterIsSubsequence(Keeps(category, component), packages);
    Filter(Keeps(category, component), packages)
  }

  /** With the component "All" and a category other than the two placeholder-backed ones,
      every package is shown. */
  lemma AllComponentKeepsEverything(packages: seq<PackageInfo>, category: string)
    requires category != "Installed" && category != "Updates"
    ensures FilteredPackages(packages, category, "All") == packages
  {
    FilterKeepsAll(Keeps(category, "All"), packages);
  }

  function PartOfIs(component: string): PackageInfo -> bool {
    (p: PackageInfo) => p.partOf == component
  }

  /** With any other component, and a category other than the two placeholder-backed ones,
      exactly the packages of that component are shown, in order. */
  lemma ComponentKeepsItsPackages(packages: seq<PackageInfo>, category: string, component: string)
    requires category != "Installed" && category != "Updates"
    requires component != "All"
    ensures FilteredPackages(packages, category, component) == Filter(PartOfIs(component), packages)
    ensures forall p :: p in FilteredPackages(packages, category, component) <==> p in packages && p.partOf == component
  {
    FilterCongruent(Keeps(category, component), PartOfIs(component), packages);
  }

  /** "Installed" and "Updates" ask placeholder checks that always answer no, so they show
      nothing whatever the component. */
  lemma PlaceholderCategoriesShowNothing(packages: seq<PackageInfo>, category: string, component: string)
    requires category == "Installed" || category == "Updates"
    ensures FilteredPackages(packages, category, component) == []
  {
    FilterKeepsNone(Keeps(category, component), packages);
  }

  /** The heading above the grid. */
  function Heading(category: string): (r: string)
    ensures StartsWith(r, category)
    ensures |r| == |category| + |" Packages"| && r[|category|..] == " Packages"
  {
    category + " Packages"
  }

  /** The label beside the heading: how many packages the grid shows. */
  function FoundLabel(packages: seq<PackageInfo>, category: string, component: string): (r: string)
    ensures EndsWith(r, " packages found")
  {
    DecimalString(|FilteredPackages(packages, category, component)|) + " packages found"
  }

  /** The label begins with digits that read back as the number of filtered packages. */
  lemma FoundLabelCounts(packages: seq<PackageInfo>, category: string, component: string)
    ensures var r := FoundLabel(packages, category, component);
      && |r| > |" packages found"|
      && AllDigits(r[..|r| - |" packages found"|])
      && DigitsValue(r[..|r| - |" packages found"|]) == |FilteredPackages(packages, category, component)|
  {
    var n := |FilteredPackages(packages, category, component)|;
    var r := FoundLabel(packages, category, component);
    assert r[..|r| - |" packages found"|] == DecimalString(n);
    DecimalRoundTrip(n);
  }

  // ---------------------------------------------------------------------------------------
  // Column layout

  const ColumnCount: nat := 3

  /** The indices `a, a + 1, ..., b - 1`; empty when `a >= b`, as a Rust range is. */
  function Range(a: nat, b: nat): (r: seq<nat>)
    ensures |r| == if a <= b then b - a else 0
    ensures forall i :: 0 <= i < |r| ==> r[i] == a + i
  {
    if a < b then seq(b - a, i requires 0 <= i < b - a => a + i) else []
  }

  lemma RangeConcat(a: nat, b: nat, c: nat)
    requires a <= b <= c
    ensures Range(a, b) + Range(b, c) == Range(a, c)
  {
  }

  function Min(a: nat, b: nat): nat {
    if a < b then a else b
  }

  /** Packages per column, `n` divided by three rounded up. */
  function PerColumn(n: nat): (r: nat)
    ensures ColumnCount * r >= n
    ensures n > 0 ==> r <= n && ColumnCount * (r - 1) < n
  {
    (n + ColumnCount - 1) / ColumnCount
  }

  /** The indices column `c` renders: from `c * PerColumn(n)` up to the next column's start
      or `n`, whichever comes first. */
  function ColumnRange(n: nat, c: nat): seq<nat> {
    Range(c * PerColumn(n), Min(c * PerColumn(n) + PerColumn(n), n))
  }

  /** The three columns together render every index below `n` once, in ascending order,
      and no column holds more than `PerColumn(n)` of them. */
  lemma {:induction false} ColumnsPartition(n: nat)
    ensures ColumnRange(n, 0) + ColumnRange(n, 1) + ColumnRange(n, 2) == Range(0, n)
    ensures forall c :: 0 <= c < ColumnCount ==> |ColumnRange(n, c)| <= PerColumn(n)
  {
    var p := PerColumn(n);
    if n > 0 {
      if 2 * p <= n {
        RangeConcat(0, p, 2 * p);
        RangeConcat(0, 2 * p, n);
      } else {
        assert ColumnRange(n, 2) == [];
        RangeConcat(0, p, n);
      }
    }
  }

  /** The nested loops of `render`: for each of the three columns, the indices from its start
      to its end, collected in the order they are drawn. */
  method ColumnIndices(n: nat) returns (columns: seq<seq<nat>>)
    ensures |columns| == ColumnCount
    ensures forall c :: 0 <= c < ColumnCount ==> columns[c] == ColumnRange(n, c)
    ensures columns[0] + columns[1] + columns[2] == Range(0, n)
  {
    var perColumn := (n + ColumnCount - 1) / ColumnCount;
    columns := [];
    var c := 0;
    while c < ColumnCount
      invariant 0 <= c <= ColumnCount
      invariant |columns| == c
      invariant forall k :: 0 <= k < c ==> columns[k] == ColumnRange(n, k)
    {
      var start := c * perColumn;
      var end := Min(start + perColumn, n);
      var column: seq<nat> := [];
      var i := start;
      while i < end
        invariant start <= i
        invariant i <= end || i == start
        invariant column == Range(start, i)
      {
        assert Range(start, i + 1) == Range(start, i) + [i];
        column := column + [i];
        i := i + 1;
      }
      columns := columns + [column];
      c := c + 1;
    }
    ColumnsPartition(n);
  }

  /** What the scroll area shows: a notice when nothing passes the filter, otherwise the
      indices of the filtered packages spread over the columns. */
  datatype GridContent = NoPackagesFound | Columns(columns: seq<seq<nat>>)

  method Layout(n: nat) returns (content: GridContent)
    ensures n == 0 <==> content.NoPackagesFound?
    ensures content.Columns? ==> (|content.columns| == ColumnCount
      && content.columns[0] + content.columns[1] + content.columns[2] == Range(0, n))
  {
    if n == 0 {
      content := NoPackagesFound;
    } else {
      var columns := ColumnIndices(n);
      content := Columns(columns);
    }
  }

  // ---------------------------------------------------------------------------------------
  // Package cards

  datatype Button = Install | Update | Remove

  /** The action buttons of a card, in the order they are laid out. */
  function ActionButtons(installed: bool, hasUpdate: bool): (r: seq<Button>)
    ensures Install in r <==> !installed
    ensures Remove in r <==> installed
    ensures Update in r <==> installed && hasUpdate
    ensures Update in r ==> r == [Update, Remove]
  {
    if installed then (if hasUpdate then [Update, Remove] else [Remove]) else [Install]
  }

  /** `get_package_icon`: a glyph for six well-known packages, a parcel for all others. */
  function PackageIcon(name: string): (r: string)
  {
    match name
    case "firefox" => "\U{1F310}"
    case "libreoffice" => "\U{1F4CA}"
    case "vlc" => "\U{1F3AC}"
    case "gimp" => "\U{1F3A8}"
    case "thunderbird" => "\U{1F4E7}"
    case "konsole" => "\U{1F4BB}"
    case _ => "\U{1F4E6}"
  }

  function KnownIconNames(): seq<string> {
    ["firefox", "libreoffice", "vlc", "gimp", "thunderbird", "konsole"]
  }

  /** The six well-known packages get six different glyphs, none of them the parcel; every
      other name gets the parcel. */
  lemma IconsDistinct(a: string, b: string)
    ensures a !in KnownIconNames() <==> PackageIcon(a) == "\U{1F4E6}"
    ensures a in KnownIconNames() && b in KnownIconNames() ==> (PackageIcon(a) == PackageIcon(b) <==> a == b)
  {
  }

  datatype Card = Card(
    icon: string,
    name: string,
    summary: string,
    versionLine: string,
    componentLine: string,
    sizeLine: Option<string>,
    licenseLine: Option<string>,
    buttons: seq<Button>)

  /** Whole megabytes, by integer division; shown only when there is at least one. */
  function SizeLine(packageSize: nat): (r: Option<string>)
    ensures r.Some? <==> packageSize >= 1_000_000
  {
    var mb := packageSize / 1_000_000;
    if mb > 0 then Some("Size: " + DecimalString(mb) + " MB") else None
  }

  /** The megabytes shown are the package size rounded down to whole megabytes. */
  lemma SizeLineValue(packageSize: nat)
    requires SizeLine(packageSize).Some?
    ensures exists mb: nat :: (SizeLine(packageSize) == Some("Size: " + DecimalString(mb) + " MB")
      && mb >= 1 && mb * 1_000_000 <= packageSize < (mb + 1) * 1_000_000)
  {
    var mb := packageSize / 1_000_000;
    assert SizeLine(packageSize) == Some("Size: " + DecimalString(mb) + " MB");
  }

  function LicenseLine(license: string): (r: Option<string>)
    ensures r.Some? <==> license != ""
    ensures r.Some? ==> StartsWith(r.value, "License: ") && r.value[|"License: "|..] == license
  {
    if license != "" then Some("License: " + license) else None
  }

  function VersionLine(version: string, release: nat): (r: string)
    ensures StartsWith(r, "Version: " + version + "-")
    ensures r[|"Version: " + version + "-"|..] == DecimalString(release)
  {
    "Version: " + version + "-" + DecimalString(release)
  }

  /** The version label ends with a dash and the release number, which contains no dash and
      reads back as the release; what comes before it is the version. */
  lemma VersionLineParts(version: string, release: U32)
    ensures var r, d := VersionLine(version, release), DecimalString(release);
      && |r| == |"Version: "| + |version| + 1 + |d|
      && r[|"Version: "|..|"Version: "| + |version|] == version
      && r[|r| - |d| - 1] == '-'
      && '-' !in d
      && ParseUnsigned(r[|r| - |d|..], 0x1_0000_0000) == Some(release as nat)
  {
    var r, d := VersionLine(version, release), DecimalString(release);
    assert r[|r| - |d|..] == d;
    ParseDecimalString(release, 0x1_0000_0000);
    assert forall i :: 0 <= i < |d| ==> IsDigit(d[i]);
  }

  /** `render_package_card`: the card's lines for one package, with the buttons the
      placeholder checks select. */
  function PackageCard(p: PackageInfo): (r: Card)
    ensures r.name == p.name && r.summary == p.summary
    ensures r.sizeLine.Some? <==> p.packageSize >= 1_000_000
    ensures r.licenseLine.Some? <==> p.license != ""
    ensures r.componentLine == "Component: " + p.partOf
  {
    Card(
      PackageIcon(p.name),
      p.name,
      p.summary,
      VersionLine(p.version, p.release),
      "Component: " + p.partOf,
      SizeLine(p.packageSize),
      LicenseLine(p.license),
      ActionButtons(IsPackageInstalled(p.name), HasPackageUpdate(p.name)))
  }

  /** With the placeholder checks every card offers only Install. */
  lemma CardsOfferOnlyInstall(p: PackageInfo)
    ensures PackageCard(p).buttons == [Install]
  {
  }
}
