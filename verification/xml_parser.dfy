/** The Pisi package-index reader: turns the parsed index document into package records,
    every field read leniently with a literal default, and aggregates the records into
    per-component counts. */
module XmlParser {
  import opened Wrappers
  import opened Seqs
  import opened Text
  import opened Xml

  /** Rust's u32 and u64. */
  type U32 = n: nat | n < 0x1_0000_0000
  type U64 = n: nat | n < 0x1_0000_0000_0000_0000

  datatype Source = Source(name: string, homepage: string)

  datatype PackageHistory = PackageHistory(version: string, release: U32, date: string)

  datatype Dependency = Dependency(name: string, version: Option<string>, release: Option<U32>)

  datatype PackageInfo = PackageInfo(
    name: string,
    summary: string,
    description: string,
    version: string,
    release: U32,
    license: string,
    partOf: string,
    packageSize: U64,
    installedSize: U64,
    packageFormat: string,
    distribution: string,
    distributionRelease: string,
    architecture: string,
    source: Option<Source>,
    history: seq<PackageHistory>,
    dependencies: seq<Dependency>)

  datatype Component = Component(name: string, packageCount: nat)

  // ---------------------------------------------------------------------------------------
  // Lenient field readers

  /** `node.attribute(name).unwrap_or(default)`. */
  function AttrOr(n: Node, name: string, default: string): (r: string)
    ensures n.Element? && name in n.attributes ==> r == n.attributes[name]
    ensures !(n.Element? && name in n.attributes) ==> r == default
  {
    Attribute(n, name).UnwrapOr(default)
  }

  /** `node.attribute(name).and_then(|s| s.parse().ok())` for u32: None when the attribute is
      absent or is not a valid u32. */
  function AttrU32(n: Node, name: string): (r: Option<U32>)
    ensures r.Some? <==> n.Element? && name in n.attributes && ParseUnsigned(n.attributes[name], 0x1_0000_0000).Some?
    ensures r.Some? ==> r.value == ParseUnsigned(n.attributes[name], 0x1_0000_0000).value
  {
    match Attribute(n, name)
    case None => None
    case Some(v) =>
      match ParseUnsigned(v, 0x1_0000_0000)
      case None => None
      case Some(x) => Some(x)
  }

  /** The same for u64. */
  function AttrU64(n: Node, name: string): (r: Option<U64>)
    ensures r.Some? <==> n.Element? && name in n.attributes && ParseUnsigned(n.attributes[name], 0x1_0000_0000_0000_0000).Some?
    ensures r.Some? ==> r.value == ParseUnsigned(n.attributes[name], 0x1_0000_0000_0000_0000).value
  {
    match Attribute(n, name)
    case None => None
    case Some(v) =>
      match ParseUnsigned(v, 0x1_0000_0000_0000_0000)
      case None => None
      case Some(x) => Some(x)
  }

  /** `get_text`: the trimmed text of the first node tagged `tag` in pre-order (the node
      itself included); None when no node carries the tag or when that first one has no
      text. The search never goes on past the first match. */
  function GetText(n: Node, tag: string): (r: Option<string>)
    ensures r.Some? <==> FindDescendant(n, tag).Some? && NodeText(FindDescendant(n, tag).value).Some?
    ensures r.Some? ==> Unpadded(r.value) && |r.value| <= |NodeText(FindDescendant(n, tag).value).value|
  {
    match FindDescendant(n, tag)
    case None => None
    case Some(m) =>
      match NodeText(m)
      case None => None
      case Some(t) =>
        TrimShape(IsRustWhitespace, t);
        Some(RustTrim(t))
  }

  /** `parse_source`: the first `Source` node in pre-order gives the source when its `name`
      attribute is present and non-empty; `homepage` defaults to "". */
  function ParseSource(n: Node): (r: Option<Source>)
    ensures r.Some? ==> r.value.name != ""
    ensures r.Some? <==> FindDescendant(n, "Source").Some? && AttrOr(FindDescendant(n, "Source").value, "name", "") != ""
    ensures r.Some? ==> var s := FindDescendant(n, "Source").value;
      r.value == Source(AttrOr(s, "name", ""), AttrOr(s, "homepage", ""))
  {
    match FindDescendant(n, "Source")
    case None => None
    case Some(s) =>
      var name := AttrOr(s, "name", "");
      var homepage := AttrOr(s, "homepage", "");
      if name != "" then Some(Source(name, homepage)) else None
  }

  predicate IsUpdate(n: Node) {
    HasTagName(n, "Update")
  }

  /** One history entry, from an `Update` node. */
  function HistoryEntry(u: Node): (r: PackageHistory)
  {
    PackageHistory(AttrOr(u, "version", ""), AttrU32(u, "release").UnwrapOr(1), AttrOr(u, "date", ""))
  }

  /** What `parse_history` returns: one entry per `Update` node under the first `History`
      node (pre-order, that node included), in document order; nothing without `History`. */
  function HistoryOf(n: Node): (r: seq<PackageHistory>)
    ensures FindDescendant(n, "History").None? ==> r == []
    ensures FindDescendant(n, "History").Some? ==>
      |r| == |Filter(IsUpdate, Descendants(FindDescendant(n, "History").value))|
  {
    match FindDescendant(n, "History")
    case None => []
    case Some(h) => Map(HistoryEntry, Filter(IsUpdate, Descendants(h)))
  }

  /** `parse_history`: the loop over the `Update` nodes. */
  method ParseHistory(n: Node) returns (history: seq<PackageHistory>)
    ensures history == HistoryOf(n)
  {
    history := [];
    var found := FindDescendant(n, "History");
    if found.Some? {
      var nodes := Descendants(found.value);
      for i := 0 to |nodes|
        invariant history == Map(HistoryEntry, Filter(IsUpdate, nodes[..i]))
      {
        FilterMapStep(HistoryEntry, IsUpdate, nodes, i);
        if IsUpdate(nodes[i]) {
          history := history + [HistoryEntry(nodes[i])];
        }
      }
      assert nodes[..|nodes|] == nodes;
    }
  }

  predicate IsDependencyPackage(n: Node) {
    HasTagName(n, "Package")
  }

  /** One dependency candidate, from a `Package` node under `Dependencies`: its trimmed text
      (or "" without text), its `version` attribute when present, its `release` attribute
      when present and a valid u32. */
  function DependencyEntry(p: Node): (r: Dependency)
  {
    Dependency(RustTrim(NodeText(p).UnwrapOr("")), Attribute(p, "version"), AttrU32(p, "release"))
  }

  predicate HasName(d: Dependency) {
    d.name != ""
  }

  /** What `parse_dependencies` returns: the candidates from the `Package` nodes under the
      first `Dependencies` node, in document order, each one with an empty name skipped. */
  function DependenciesOf(n: Node): (r: seq<Dependency>)
    ensures FindDescendant(n, "Dependencies").None? ==> r == []
    ensures forall i :: 0 <= i < |r| ==> r[i].name != ""
  {
    match FindDescendant(n, "Dependencies")
    case None => []
    case Some(d) => NamedDependencies(Descendants(d))
  }

  /** The named dependency entries of the `Package` nodes among `nodes`, in order. */
  function NamedDependencies(nodes: seq<Node>): seq<Dependency>
  {
    Filter(HasName, Map(DependencyEntry, Filter(IsDependencyPackage, nodes)))
  }

  /** One more `Package` node seen by the dependency loop. */
  lemma DependencyStep(nodes: seq<Node>, i: nat)
    requires i < |nodes|
    ensures NamedDependencies(nodes[..i + 1]) == NamedDependencies(nodes[..i])
         + (if IsDependencyPackage(nodes[i]) && HasName(DependencyEntry(nodes[i])) then [DependencyEntry(nodes[i])] else [])
  {
    FilterMapStep(DependencyEntry, IsDependencyPackage, nodes, i);
    var candidates := Map(DependencyEntry, Filter(IsDependencyPackage, nodes[..i]));
    var step := if IsDependencyPackage(nodes[i]) then [DependencyEntry(nodes[i])] else [];
    FilterConcat(HasName, candidates, step);
  }

  /** `parse_dependencies`: the loop over the `Package` nodes, pushing named entries only. */
  method ParseDependencies(n: Node) returns (deps: seq<Dependency>)
    ensures deps == DependenciesOf(n)
  {
    deps := [];
    var found := FindDescendant(n, "Dependencies");
    if found.Some? {
      var nodes := Descendants(found.value);
      for i := 0 to |nodes|
        invariant deps == NamedDependencies(nodes[..i])
      {
        DependencyStep(nodes, i);
        if IsDependencyPackage(nodes[i]) {
          var dep := DependencyEntry(nodes[i]);
          if dep.name != "" {
            deps := deps + [dep];
          }
        }
      }
      assert nodes[..|nodes|] == nodes;
    }
  }

  // ---------------------------------------------------------------------------------------
  // Records

  /** A child of the walked node that becomes a record: an element not tagged `Distribution`. */
  predicate IsPackageNode(n: Node) {
    n.Element? && n.tag != "Distribution"
  }

  /** The record built from one package node. */
  function RecordOf(n: Node): (r: PackageInfo)
    ensures n.Element? ==> r.name == n.tag
    ensures r.source.Some? ==> r.source.value.name != ""
    ensures forall i :: 0 <= i < |r.dependencies| ==> r.dependencies[i].name != ""
  {
    PackageInfo(
      name := if n.Element? then n.tag else "",
      summary := GetText(n, "Summary").UnwrapOr(""),
      description := GetText(n, "Description").UnwrapOr(""),
      version := GetText(n, "Version").UnwrapOr(""),
      release := AttrU32(n, "release").UnwrapOr(1),
      license := GetText(n, "License").UnwrapOr(""),
      partOf := AttrOr(n, "partOf", "Unknown"),
      packageSize := AttrU64(n, "packageSize").UnwrapOr(0),
      installedSize := AttrU64(n, "installedSize").UnwrapOr(0),
      packageFormat := AttrOr(n, "packageFormat", "1.0"),
      distribution := AttrOr(n, "distribution", "PisiLinux"),
      distributionRelease := AttrOr(n, "distributionRelease", "2.0"),
      architecture := AttrOr(n, "architecture", "x86_64"),
      source := ParseSource(n),
      history := HistoryOf(n),
      dependencies := DependenciesOf(n))
  }

  /** The records read from the children of `walked`: one per package node, in order. */
  function RecordsOf(walked: Node): (r: seq<PackageInfo>)
    ensures |r| <= |ChildrenOf(walked)|
    ensures forall i :: 0 <= i < |r| ==> r[i].source.Some? ==> r[i].source.value.name != ""
  {
    Map(RecordOf, Filter(IsPackageNode, ChildrenOf(walked)))
  }

  /** The record loop of `parse_pisi_index` over the children of `walked`. */
  method ParseRecords(walked: Node) returns (packages: seq<PackageInfo>)
    ensures packages == RecordsOf(walked)
  {
    packages := [];
    var nodes := ChildrenOf(walked);
    for i := 0 to |nodes|
      invariant packages == Map(RecordOf, Filter(IsPackageNode, nodes[..i]))
    {
      FilterMapStep(RecordOf, IsPackageNode, nodes, i);
      var node := nodes[i];
      if node.Element? && node.tag != "Distribution" {
        var history := ParseHistory(node);
        var dependencies := ParseDependencies(node);
        var package := RecordOf(node).(history := history, dependencies := dependencies);
        packages := packages + [package];
      }
    }
    assert nodes[..|nodes|] == nodes;
  }

  /** `parse_pisi_index`, given the outcome of parsing the markup into a document: a parse
      error is the only error; a parsed document always yields the records read from the
      children of its document node. */
  method ParsePisiIndex(parsed: Result<Node, string>) returns (r: Result<seq<PackageInfo>, string>)
    ensures parsed.Err? ==> r == Err(parsed.error)
    ensures parsed.Ok? ==> r == Ok(RecordsOf(parsed.value))
  {
    if parsed.Err? {
      return Err(parsed.error);
    }
    var packages := ParseRecords(parsed.value);
    return Ok(packages);
  }

  // ---------------------------------------------------------------------------------------
  // Component aggregation

  /** The key `parse_components` counts a package under: its `part_of`, except that
      "Unknown" and "" are both counted under "other". */
  function ComponentName(p: PackageInfo): (r: string)
    ensures r == "other" <==> p.partOf == "Unknown" || p.partOf == "" || p.partOf == "other"
    ensures r != "other" ==> r == p.partOf
    ensures r != "Unknown" && r != ""
  {
    if p.partOf == "Unknown" || p.partOf == "" then "other" else p.partOf
  }

  function InComponent(k: string): PackageInfo -> bool {
    (p: PackageInfo) => ComponentName(p) == k
  }

  /** How many of `ps` are counted under `k`. */
  function Count(ps: seq<PackageInfo>, k: string): nat {
    |Filter(InComponent(k), ps)|
  }

  function NameIs(k: string): Component -> bool {
    (c: Component) => c.name == k
  }

  /** The entries of `cs` named `k`, in order. */
  function Named(k: string, cs: seq<Component>): seq<Component> {
    Filter(NameIs(k), cs)
  }

  function SumCounts(cs: seq<Component>): nat {
    if cs == [] then 0 else cs[0].packageCount + SumCounts(cs[1..])
  }

  predicate SortedByName(cs: seq<Component>) {
    forall i, j :: 0 <= i < j < |cs| ==> LexLe(cs[i].name, cs[j].name)
  }

  /** `t` is the counter `parse_components` fills, in some order: for every name, exactly
      one entry carrying the number of packages counted under it when there are any, and
      no entry otherwise. */
  ghost predicate IsCountTable(ps: seq<PackageInfo>, t: seq<Component>) {
    forall k :: Named(k, t) == CountEntry(ps, k)
  }

  /** `cs` is what `parse_components` returns for `ps`: sorted by name, it holds the entry
      ("All", |ps|) ahead of any other entry named "All", and the remaining entries form
      the count table. */
  ghost predicate IsComponentList(ps: seq<PackageInfo>, cs: seq<Component>) {
    && SortedByName(cs)
    && exists i :: (0 <= i < |cs| && cs[i] == Component("All", |ps|)
      && (forall j :: 0 <= j < i ==> cs[j].name != "All")
      && IsCountTable(ps, cs[..i] + cs[i + 1..]))
  }

  /** One more package seen by the counting loop. */
  lemma CountStep(ps: seq<PackageInfo>, i: nat, k: string)
    requires i < |ps|
    ensures Count(ps[..i + 1], k) == Count(ps[..i], k) + (if ComponentName(ps[i]) == k then 1 else 0)
  {
    assert ps[..i + 1] == ps[..i] + [ps[i]];
    FilterConcat(InComponent(k), ps[..i], [ps[i]]);
  }

  /** `c` placed into the name-sorted `s` after every entry whose name is not greater:
      one step of a stable insertion sort. */
  function Insert(s: seq<Component>, c: Component): (r: seq<Component>)
    requires SortedByName(s)
    ensures |r| == |s| + 1
    ensures multiset(r) == multiset(s) + multiset{c}
    ensures SortedByName(r)
  {
    if s == [] then [c]
    else if LexLe(s[0].name, c.name) then
      var r := [s[0]] + Insert(s[1..], c);
      assert r[1..] == Insert(s[1..], c);
      assert s == [s[0]] + s[1..];
      InsertSortedHead(s, c, r);
      r
    else
      LexLeTotal(s[0].name, c.name);
      forall j | 0 <= j < |s| ensures LexLe(c.name, s[j].name) {
        if j > 0 { LexLeTransitive(c.name, s[0].name, s[j].name); }
      }
      [c] + s
  }

  lemma InsertSortedHead(s: seq<Component>, c: Component, r: seq<Component>)
    requires s != [] && SortedByName(s) && LexLe(s[0].name, c.name)
    requires |r| == |s| + 1 && r[0] == s[0] && SortedByName(r[1..])
    requires multiset(r[1..]) == multiset(s[1..]) + multiset{c}
    ensures SortedByName(r)
  {
    forall j | 0 < j < |r| ensures LexLe(r[0].name, r[j].name) {
      assert r[j] == r[1..][j - 1];
      assert r[j] in multiset(r[1..]);
      if r[j] != c {
        assert r[j] in multiset(s[1..]);
        var m :| 0 <= m < |s[1..]| && s[1..][m] == r[j];
        assert s[m + 1] == r[j];
      }
    }
    forall i, j | 0 < i < j < |r| ensures LexLe(r[i].name, r[j].name) {
      assert r[i] == r[1..][i - 1] && r[j] == r[1..][j - 1];
    }
  }

  /** Insertion keeps the entries of each name in their order, the inserted one last. */
  lemma {:induction false} InsertNamed(s: seq<Component>, c: Component, k: string)
    requires SortedByName(s)
    ensures Named(k, Insert(s, c)) == Named(k, s) + (if c.name == k then [c] else [])
  {
    if s == [] {
    } else if LexLe(s[0].name, c.name) {
      InsertNamed(s[1..], c, k);
      assert ([s[0]] + Insert(s[1..], c))[1..] == Insert(s[1..], c);
    } else {
      assert ([c] + s)[1..] == s;
      if c.name == k {
        LexLeReflexive(k);
        forall j | 0 <= j < |s| ensures !NameIs(k)(s[j]) {
          if j > 0 {
            assert LexLe(s[0].name, s[j].name);
          }
        }
        FilterKeepsNone(NameIs(k), s);
      }
    }
  }

  /** The stable sort of `components.sort_by(|a, b| a.name.cmp(&b.name))`: sorted by name,
      a permutation, and the entries of each name in their original order. */
  method SortByName(cs: seq<Component>) returns (sorted: seq<Component>)
    ensures SortedByName(sorted)
    ensures multiset(sorted) == multiset(cs)
    ensures forall k :: Named(k, sorted) == Named(k, cs)
  {
    sorted := [];
    for i := 0 to |cs|
      invariant SortedByName(sorted)
      invariant multiset(sorted) == multiset(cs[..i])
      invariant forall k :: Named(k, sorted) == Named(k, cs[..i])
    {
      assert cs[..i + 1] == cs[..i] + [cs[i]];
      forall k ensures Named(k, Insert(sorted, cs[i])) == Named(k, cs[..i + 1]) {
        InsertNamed(sorted, cs[i], k);
        FilterConcat(NameIs(k), cs[..i], [cs[i]]);
      }
      sorted := Insert(sorted, cs[i]);
    }
    assert cs[..|cs|] == cs;
  }

  /** The position of the first entry named `k`, and what removing it leaves. */
  lemma FirstNamed(k: string, cs: seq<Component>) returns (i: nat)
    requires Named(k, cs) != []
    ensures i < |cs| && cs[i] == Named(k, cs)[0] && cs[i].name == k
    ensures forall j :: 0 <= j < i ==> cs[j].name != k
    ensures Named(k, cs[..i] + cs[i + 1..]) == Named(k, cs)[1..]
    ensures forall k' :: k' != k ==> Named(k', cs[..i] + cs[i + 1..]) == Named(k', cs)
  {
    i := FirstNameIndex(k, cs);
    FilterKeepsNone(NameIs(k), cs[..i]);
    FilterRemoveAt(NameIs(k), cs, i);
    forall k' | k' != k ensures Named(k', cs[..i] + cs[i + 1..]) == Named(k', cs) {
      RemoveOtherName(k', cs, i);
    }
  }

  lemma FirstNameIndex(k: string, cs: seq<Component>) returns (i: nat)
    requires Named(k, cs) != []
    ensures i < |cs| && cs[i].name == k
    ensures forall j :: 0 <= j < i ==> cs[j].name != k
  {
    var w := Named(k, cs)[0];
    assert w in cs && w.name == k;
    i := 0;
    while cs[i].name != k
      invariant i < |cs|
      invariant forall j :: 0 <= j < i ==> cs[j].name != k
      invariant w in cs[i..]
      decreases |cs| - i
    {
      assert cs[i..] == [cs[i]] + cs[i + 1..];
      i := i + 1;
    }
  }

  lemma RemoveOtherName(k: string, cs: seq<Component>, i: nat)
    requires i < |cs| && cs[i].name != k
    ensures Named(k, cs[..i] + cs[i + 1..]) == Named(k, cs)
  {
    FilterRemoveAt(NameIs(k), cs, i);
  }

  /** The counting loop of `parse_components`: for each name, the number of packages
      counted under it, present exactly for the names that have packages. */
  method CountComponents(packages: seq<PackageInfo>) returns (counts: map<string, nat>)
    ensures forall k :: k in counts <==> Count(packages, k) > 0
    ensures forall k :: k in counts ==> counts[k] == Count(packages, k)
  {
    counts := map[];
    for i := 0 to |packages|
      invariant forall k :: k in counts <==> Count(packages[..i], k) > 0
      invariant forall k :: k in counts ==> counts[k] == Count(packages[..i], k)
    {
      var name := ComponentName(packages[i]);
      forall k ensures Count(packages[..i + 1], k) == Count(packages[..i], k) + (if name == k then 1 else 0) {
        CountStep(packages, i, k);
      }
      counts := counts[name := (if name in counts then counts[name] else 0) + 1];
    }
    assert packages[..|packages|] == packages;
  }

  /** `counts.into_iter().map(..).collect()`: one entry per key of the map, in the map's
      iteration order, which the model leaves open. */
  method CollectEntries(counts: map<string, nat>) returns (entries: seq<Component>)
    ensures forall k :: Named(k, entries) == (if k in counts then [Component(k, counts[k])] else [])
  {
    entries := [];
    var pending := counts.Keys;
    while pending != {}
      invariant pending <= counts.Keys
      invariant Collected(counts, pending, entries)
      decreases pending
    {
      var name :| name in pending;
      CollectStep(counts, pending, entries, name);
      entries := entries + [Component(name, counts[name])];
      pending := pending - {name};
    }
  }

  /** `entries` holds one entry for each key of `counts` outside `pending`, and no other. */
  ghost predicate Collected(counts: map<string, nat>, pending: set<string>, entries: seq<Component>) {
    forall k :: Named(k, entries) == (if k in counts && k !in pending then [Component(k, counts[k])] else [])
  }

  /** Collecting one more pending key. */
  lemma CollectStep(counts: map<string, nat>, pending: set<string>, entries: seq<Component>, name: string)
    requires name in pending && pending <= counts.Keys && Collected(counts, pending, entries)
    ensures Collected(counts, pending - {name}, entries + [Component(name, counts[name])])
  {
    var entry := Component(name, counts[name]);
    forall k ensures Named(k, entries + [entry]) == (if k in counts && k !in pending - {name} then [Component(k, counts[k])] else []) {
      NamedAppend(k, entries, entry);
    }
  }

  lemma NamedAppend(k: string, cs: seq<Component>, c: Component)
    ensures Named(k, cs + [c]) == Named(k, cs) + (if k == c.name then [c] else [])
  {
    FilterConcat(NameIs(k), cs, [c]);
  }

  /** `parse_components`: counts the packages per component name, collects the counts,
      puts ("All", |packages|) in front and sorts the list by name. */
  method ParseComponents(packages: seq<PackageInfo>) returns (components: seq<Component>)
    ensures IsComponentList(packages, components)
  {
    var counts := CountComponents(packages);
    var entries := CollectEntries(counts);
    assert IsCountTable(packages, entries);
    var all := Component("All", |packages|);
    var unsorted := [all] + entries;
    forall k ensures Named(k, unsorted) == Named(k, [all]) + Named(k, entries) {
      FilterConcat(NameIs(k), [all], entries);
    }
    components := SortByName(unsorted);
    SortedIsComponentList(packages, entries, components);
  }

  /** A name-sorted list with the entries of `[("All", |ps|)] + t` in their order per name,
      `t` a count table, is a component list. */
  lemma SortedIsComponentList(ps: seq<PackageInfo>, t: seq<Component>, cs: seq<Component>)
    requires IsCountTable(ps, t) && SortedByName(cs)
    requires forall k :: Named(k, cs) == Named(k, [Component("All", |ps|)]) + Named(k, t)
    ensures IsComponentList(ps, cs)
  {
    var i := FirstNamed("All", cs);
    var rest := cs[..i] + cs[i + 1..];
    forall k ensures Named(k, rest) == CountEntry(ps, k) {
      assert Named(k, t) == CountEntry(ps, k);
    }
    assert IsCountTable(ps, rest);
  }

  function OutsideComponent(k: string): PackageInfo -> bool {
    (p: PackageInfo) => ComponentName(p) != k
  }

  /** Every package is counted under one name, so the counts of a count table add up to
      the number of packages. */
  lemma {:induction false} CountTableSum(ps: seq<PackageInfo>, t: seq<Component>)
    requires IsCountTable(ps, t)
    ensures SumCounts(t) == |ps|
    decreases |t|
  {
    if t == [] {
      if ps != [] {
        FirstPackageCounted(ps);
      }
    } else {
      var k0 := t[0].name;
      CountTableTail(ps, t);
      CountTableSum(Filter(OutsideComponent(k0), ps), t[1..]);
      FilterSplits(InComponent(k0), OutsideComponent(k0), ps);
    }
  }

  /** The first package is counted under its component name. */
  lemma FirstPackageCounted(ps: seq<PackageInfo>)
    requires ps != []
    ensures Named(ComponentName(ps[0]), []) != CountEntry(ps, ComponentName(ps[0]))
  {
    assert ps[0] in Filter(InComponent(ComponentName(ps[0])), ps);
  }

  /** Removing the first entry of a count table leaves the count table of the packages
      counted elsewhere. */
  lemma CountTableTail(ps: seq<PackageInfo>, t: seq<Component>)
    requires IsCountTable(ps, t) && t != []
    ensures t[0].packageCount == Count(ps, t[0].name)
    ensures IsCountTable(Filter(OutsideComponent(t[0].name), ps), t[1..])
  {
    var k0 := t[0].name;
    CountTableTailAt(ps, t, k0);
    forall k ensures Named(k, t[1..]) == CountEntry(Filter(OutsideComponent(k0), ps), k) {
      CountTableTailAt(ps, t, k);
    }
  }

  /** The entry a count table of `ps` holds for `k`. */
  function CountEntry(ps: seq<PackageInfo>, k: string): seq<Component> {
    if Count(ps, k) > 0 then [Component(k, Count(ps, k))] else []
  }

  lemma CountTableTailAt(ps: seq<PackageInfo>, t: seq<Component>, k: string)
    requires t != [] && Named(k, t) == CountEntry(ps, k)
    ensures k == t[0].name ==> t[0].packageCount == Count(ps, k)
    ensures Named(k, t[1..]) == CountEntry(Filter(OutsideComponent(t[0].name), ps), k)
  {
    var k0 := t[0].name;
    assert t == [t[0]] + t[1..];
    FilterConcat(NameIs(k), [t[0]], t[1..]);
    if k == k0 {
      FilterDisjoint(InComponent(k), OutsideComponent(k0), ps);
    } else {
      FilterNarrower(InComponent(k), OutsideComponent(k0), ps);
    }
  }

  /** The entries of a count table: distinct names, none of them "Unknown" or "", each with
      the positive number of packages counted under it. */
  lemma CountTableEntries(ps: seq<PackageInfo>, t: seq<Component>)
    requires IsCountTable(ps, t)
    ensures forall i :: 0 <= i < |t| ==> t[i].packageCount == Count(ps, t[i].name) >= 1
    ensures forall i :: 0 <= i < |t| ==> t[i].name != "Unknown" && t[i].name != ""
    ensures forall i, j :: 0 <= i < j < |t| ==> t[i].name != t[j].name
  {
    forall i | 0 <= i < |t|
      ensures t[i].packageCount == Count(ps, t[i].name) >= 1
      ensures t[i].name != "Unknown" && t[i].name != ""
    {
      CountTableEntryAt(ps, t, i);
    }
    forall i, j | 0 <= i < j < |t| ensures t[i].name != t[j].name {
      CountTableDistinct(t, i, j);
    }
  }

  lemma CountTableEntryAt(ps: seq<PackageInfo>, t: seq<Component>, i: nat)
    requires i < |t| && Named(t[i].name, t) == CountEntry(ps, t[i].name)
    ensures t[i].packageCount == Count(ps, t[i].name) >= 1
    ensures t[i].name != "Unknown" && t[i].name != ""
  {
    var k := t[i].name;
    assert t[i] in Named(k, t);
    var members := Filter(InComponent(k), ps);
    assert members[0] in ps && ComponentName(members[0]) == k;
  }

  /** Two entries with one name put two entries in that name's filter. */
  lemma CountTableDistinct(t: seq<Component>, i: nat, j: nat)
    requires i < j < |t|
    requires |Named(t[j].name, t)| <= 1
    ensures t[i].name != t[j].name
  {
    var k := t[j].name;
    FilterRemoveAt(NameIs(k), t, j);
    assert t[i] == t[..j][i];
  }

  /** What `parse_components` promises, read off its result: it is sorted by name, its
      entry `i` is ("All", total), and the other entries have distinct names, positive
      counts adding up to the total, and no "Unknown" or "" among them. */
  lemma ComponentListFacts(ps: seq<PackageInfo>, cs: seq<Component>) returns (i: nat)
    requires IsComponentList(ps, cs)
    ensures SortedByName(cs)
    ensures i < |cs| && cs[i] == Component("All", |ps|)
    ensures var rest := cs[..i] + cs[i + 1..];
      && SumCounts(rest) == |ps|
      && (forall j :: 0 <= j < |rest| ==> rest[j].packageCount >= 1)
      && (forall j :: 0 <= j < |rest| ==> rest[j].name != "Unknown" && rest[j].name != "")
      && (forall j, l :: 0 <= j < l < |rest| ==> rest[j].name != rest[l].name)
  {
    i :| (0 <= i < |cs| && cs[i] == Component("All", |ps|)
      && (forall j :: 0 <= j < i ==> cs[j].name != "All")
      && IsCountTable(ps, cs[..i] + cs[i + 1..]));
    CountTableSum(ps, cs[..i] + cs[i + 1..]);
    CountTableEntries(ps, cs[..i] + cs[i + 1..]);
  }

  // ---------------------------------------------------------------------------------------
  // Properties of the records

  /** `get_text` returns the text of the first node tagged `tag`, trimmed: a contiguous piece
      of it, with whitespace only cut off, and no whitespace at either end. */
  lemma GetTextTrimmed(n: Node, tag: string)
    ensures GetText(n, tag).Some? <==> FindDescendant(n, tag).Some? && NodeText(FindDescendant(n, tag).value).Some?
    ensures GetText(n, tag).Some? ==>
      var t, r := NodeText(FindDescendant(n, tag).value).value, GetText(n, tag).value;
      && (exists i, j :: (0 <= i <= j <= |t| && r == t[i..j]
          && (forall k :: 0 <= k < i ==> IsRustWhitespace(t[k]))
          && (forall k :: j <= k < |t| ==> IsRustWhitespace(t[k]))))
      && Unpadded(r)
  {
    if GetText(n, tag).Some? {
      TrimShape(IsRustWhitespace, NodeText(FindDescendant(n, tag).value).value);
    }
  }

  /** The search stops at the first match: a node tagged `tag` answers for itself, and when
      it has no text the answer is None, whatever text deeper nodes with that tag hold. */
  lemma GetTextStopsAtSelf(n: Node, tag: string)
    requires HasTagName(n, tag)
    ensures NodeText(n).None? ==> GetText(n, tag) == None
    ensures NodeText(n).Some? ==> GetText(n, tag) == Some(RustTrim(NodeText(n).value))
  {
    FindDescendantSelf(n, tag);
  }

  /** The literal defaults of a record: a package node lacking the attribute, or carrying
      one that is not a valid unsigned number, gets 1 for the release and 0 for the sizes;
      the string attributes fall back to fixed values; text fields without text are "". */
  lemma RecordDefaults(n: Node)
    requires IsPackageNode(n)
    ensures var r := RecordOf(n);
      && r.name == n.tag
      && (AttrU32(n, "release").None? ==> r.release == 1)
      && (AttrU64(n, "packageSize").None? ==> r.packageSize == 0)
      && (AttrU64(n, "installedSize").None? ==> r.installedSize == 0)
      && ("partOf" !in n.attributes ==> r.partOf == "Unknown")
      && ("packageFormat" !in n.attributes ==> r.packageFormat == "1.0")
      && ("distribution" !in n.attributes ==> r.distribution == "PisiLinux")
      && ("distributionRelease" !in n.attributes ==> r.distributionRelease == "2.0")
      && ("architecture" !in n.attributes ==> r.architecture == "x86_64")
      && (GetText(n, "Summary").None? ==> r.summary == "")
      && (GetText(n, "Description").None? ==> r.description == "")
      && (GetText(n, "Version").None? ==> r.version == "")
      && (GetText(n, "License").None? ==> r.license == "")
  {
  }

  /** The text fields of a record never start or end with whitespace. */
  lemma RecordTextTrimmed(n: Node)
    ensures var r := RecordOf(n);
      Unpadded(r.summary) && Unpadded(r.description) && Unpadded(r.version) && Unpadded(r.license)
  {
    GetTextUnpadded(n, "Summary");
    GetTextUnpadded(n, "Description");
    GetTextUnpadded(n, "Version");
    GetTextUnpadded(n, "License");
  }

  lemma GetTextUnpadded(n: Node, tag: string)
    ensures Unpadded(GetText(n, tag).UnwrapOr(""))
  {
    if GetText(n, tag).Some? {
      TrimShape(IsRustWhitespace, NodeText(FindDescendant(n, tag).value).value);
    }
  }

  /** One record per element child of the walked node not tagged `Distribution`, in
      document order, named after that child's tag. */
  lemma RecordsFollowChildren(walked: Node)
    ensures var kept := Filter(IsPackageNode, ChildrenOf(walked));
      && IsSubsequence(kept, ChildrenOf(walked))
      && |RecordsOf(walked)| == |kept|
      && forall i :: 0 <= i < |kept| ==> RecordsOf(walked)[i] == RecordOf(kept[i])
    ensures forall i :: 0 <= i < |RecordsOf(walked)| ==> RecordsOf(walked)[i].name != "Distribution"
    ensures forall c :: c in ChildrenOf(walked) && IsPackageNode(c) ==> RecordOf(c) in RecordsOf(walked)
  {
    RecordsMapKept(walked);
    RecordsNotDistribution(walked);
    RecordsOfAllKept(walked);
  }

  lemma RecordsMapKept(walked: Node)
    ensures var kept := Filter(IsPackageNode, ChildrenOf(walked));
      && IsSubsequence(kept, ChildrenOf(walked))
      && |RecordsOf(walked)| == |kept|
      && forall i :: 0 <= i < |kept| ==> RecordsOf(walked)[i] == RecordOf(kept[i])
  {
    FilterIsSubsequence(IsPackageNode, ChildrenOf(walked));
  }

  lemma RecordsOfAllKept(walked: Node)
    ensures forall c :: c in ChildrenOf(walked) && IsPackageNode(c) ==> RecordOf(c) in RecordsOf(walked)
  {
    forall c | c in ChildrenOf(walked) && IsPackageNode(c) ensures RecordOf(c) in RecordsOf(walked) {
      RecordOfKept(walked, c);
    }
  }

  lemma RecordsNotDistribution(walked: Node)
    ensures forall i :: 0 <= i < |RecordsOf(walked)| ==> RecordsOf(walked)[i].name != "Distribution"
  {
    var kept := Filter(IsPackageNode, ChildrenOf(walked));
    forall i | 0 <= i < |RecordsOf(walked)| ensures RecordsOf(walked)[i].name != "Distribution" {
      assert IsPackageNode(kept[i]) && RecordsOf(walked)[i] == RecordOf(kept[i]);
    }
  }

  lemma RecordOfKept(walked: Node, c: Node)
    requires c in ChildrenOf(walked) && IsPackageNode(c)
    ensures RecordOf(c) in RecordsOf(walked)
  {
    var kept := Filter(IsPackageNode, ChildrenOf(walked));
    assert c in kept;
    var i :| 0 <= i < |kept| && kept[i] == c;
    assert RecordsOf(walked)[i] == RecordOf(c);
  }

  /** As written, the record loop walks the children of the document node. A document has
      a single top-level element, so it yields at most one record, named after that
      element (typically `PISI`), whatever packages the element contains. */
  lemma DocumentYieldsTopElementOnly(doc: Node, top: nat)
    requires doc.Root? && top < |doc.children| && doc.children[top].Element?
    requires forall i :: 0 <= i < |doc.children| && i != top ==> !doc.children[i].Element?
    ensures doc.children[top].tag == "Distribution" ==> RecordsOf(doc) == []
    ensures doc.children[top].tag != "Distribution" ==> RecordsOf(doc) == [RecordOf(doc.children[top])]
  {
    var cs := doc.children;
    FilterRemoveAt(IsPackageNode, cs, top);
    FilterKeepsNone(IsPackageNode, cs[..top]);
    var tail := cs[top + 1..];
    forall i | 0 <= i < |tail| ensures !IsPackageNode(tail[i]) {
      assert tail[i] == cs[top + 1 + i];
    }
    FilterKeepsNone(IsPackageNode, tail);
  }

  /** `history` holds one entry per `Update` node under the first `History` node, in
      order, with the attribute defaults; it is empty without a `History` node. */
  lemma HistoryEntries(n: Node)
    ensures FindDescendant(n, "History").None? ==> HistoryOf(n) == []
    ensures FindDescendant(n, "History").Some? ==>
      var updates := Filter(IsUpdate, Descendants(FindDescendant(n, "History").value));
      && |HistoryOf(n)| == |updates|
      && forall i :: 0 <= i < |updates| ==>
        && HistoryOf(n)[i].version == AttrOr(updates[i], "version", "")
        && HistoryOf(n)[i].date == AttrOr(updates[i], "date", "")
        && HistoryOf(n)[i].release == (if AttrU32(updates[i], "release").Some? then AttrU32(updates[i], "release").value else 1)
  {
  }

  /** Every kept dependency has a non-empty name without whitespace at either end, comes
      from a `Package` node under the first `Dependencies` node, and carries `version`
      exactly when that node has the attribute; a `Package` node with non-blank text is
      never dropped. */
  lemma DependencyEntries(n: Node)
    ensures FindDescendant(n, "Dependencies").None? ==> DependenciesOf(n) == []
    ensures forall i :: 0 <= i < |DependenciesOf(n)| ==>
      DependenciesOf(n)[i].name != [] && Unpadded(DependenciesOf(n)[i].name)
    ensures FindDescendant(n, "Dependencies").Some? ==>
      var nodes := Descendants(FindDescendant(n, "Dependencies").value);
      forall i :: 0 <= i < |nodes| && IsDependencyPackage(nodes[i]) ==>
        (DependencyEntry(nodes[i]) in DependenciesOf(n) <==> RustTrim(NodeText(nodes[i]).UnwrapOr("")) != "")
  {
    if FindDescendant(n, "Dependencies").Some? {
      var nodes := Descendants(FindDescendant(n, "Dependencies").value);
      NamedDependencyNames(nodes);
      NamedDependencyKept(nodes);
    }
  }

  /** Every kept dependency has a non-empty name without surrounding whitespace. */
  lemma NamedDependencyNames(nodes: seq<Node>)
    ensures forall i :: 0 <= i < |NamedDependencies(nodes)| ==>
      NamedDependencies(nodes)[i].name != [] && Unpadded(NamedDependencies(nodes)[i].name)
  {
    var kept := Filter(IsDependencyPackage, nodes);
    var candidates := Map(DependencyEntry, kept);
    forall i | 0 <= i < |NamedDependencies(nodes)|
      ensures NamedDependencies(nodes)[i].name != [] && Unpadded(NamedDependencies(nodes)[i].name)
    {
      var d := NamedDependencies(nodes)[i];
      assert d in candidates;
      var j :| 0 <= j < |candidates| && candidates[j] == d;
      DependencyNameUnpadded(kept[j]);
    }
  }

  /** A dependency name is trimmed text, so it is never padded with whitespace. */
  lemma DependencyNameUnpadded(p: Node)
    ensures Unpadded(DependencyEntry(p).name)
  {
    TrimShape(IsRustWhitespace, NodeText(p).UnwrapOr(""));
  }

  /** A `Package` node yields a dependency exactly when its trimmed text is not empty. */
  lemma NamedDependencyKept(nodes: seq<Node>)
    ensures forall i :: 0 <= i < |nodes| && IsDependencyPackage(nodes[i]) ==>
      (DependencyEntry(nodes[i]) in NamedDependencies(nodes) <==> RustTrim(NodeText(nodes[i]).UnwrapOr("")) != "")
  {
    var kept := Filter(IsDependencyPackage, nodes);
    var candidates := Map(DependencyEntry, kept);
    forall i | 0 <= i < |nodes| && IsDependencyPackage(nodes[i])
      ensures DependencyEntry(nodes[i]) in NamedDependencies(nodes) <==> RustTrim(NodeText(nodes[i]).UnwrapOr("")) != ""
    {
      assert nodes[i] in kept;
      var j :| 0 <= j < |kept| && kept[j] == nodes[i];
      assert candidates[j] == DependencyEntry(nodes[i]);
    }
  }

  /** The dependency fields: `version` is present exactly when the attribute is, `release`
      exactly when the attribute is present and a valid u32. */
  lemma DependencyFields(p: Node)
    ensures DependencyEntry(p).version.Some? <==> p.Element? && "version" in p.attributes
    ensures DependencyEntry(p).release.Some? <==> p.Element? && "release" in p.attributes && ParseUnsigned(p.attributes["release"], 0x1_0000_0000).Some?
  {
  }

  /** `load_pisi_index`, given the outcome of reading the index file and the document
      parser: a read error becomes "Failed to read Pisi index file: ..."; otherwise the
      contents are parsed as by `parse_pisi_index`. */
  method LoadPisiIndex(read: Result<string, string>, parseDocument: string -> Result<Node, string>)
    returns (r: Result<seq<PackageInfo>, string>)
    ensures read.Err? ==> r == Err("Failed to read Pisi index file: " + read.error)
    ensures read.Ok? && parseDocument(read.value).Err? ==> r == Err(parseDocument(read.value).error)
    ensures read.Ok? && parseDocument(read.value).Ok? ==> r == Ok(RecordsOf(parseDocument(read.value).value))
  {
    if read.Err? {
      return Err("Failed to read Pisi index file: " + read.error);
    }
    r := ParsePisiIndex(parseDocument(read.value));
  }
}
