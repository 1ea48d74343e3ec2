/** The desktop back end's commands around the `pisi` package tool: searching the index,
    reading package names from the tool's output, running install / remove / update /
    update-repo, and locating a package icon. Running the tool and touching the file system
    are parameters: `run` maps the arguments given to `pisi` to the process outcome (or the
    error that kept it from starting), and the icon lookup receives the file-system checks. */
module PackageManager {
  import opened Wrappers
  import opened Seqs
  import opened Text
  import opened XmlParser

  /** What a finished `pisi` process reports: whether its exit status is success, and its
      standard output and standard error as text. */
  datatype Output = Output(success: bool, stdout: string, stderr: string)

  // ---------------------------------------------------------------------------------------
  // Search

  /** The lowered name or the lowered summary contains the (already lowered) query. */
  function Matches(query: string): PackageInfo -> bool {
    (p: PackageInfo) => Contains(ToLower(p.name), query) || Contains(ToLower(p.summary), query)
  }

  /** `search_packages`: a failed index load is passed on; otherwise the packages whose name or
      summary contains the query, ignoring case, in index order. */
  function SearchPackages(loaded: Result<seq<PackageInfo>, string>, query: string): (r: Result<seq<PackageInfo>, string>)
    ensures loaded.Err? ==> r == Err(loaded.error)
    ensures loaded.Ok? ==> r.Ok? && IsSubsequence(r.value, loaded.value)
  {
    match loaded
    case Err(e) => Err(e)
    case Ok(packages) =>
      FilterIsSubsequence(Matches(ToLower(query)), packages);
      Ok(Filter(Matches(ToLower(query)), packages))
  }

  /** A package is found exactly when its lowered name or summary contains the lowered query. */
  lemma SearchFindsExactlyMatches(packages: seq<PackageInfo>, query: string)
    ensures forall p :: p in SearchPackages(Ok(packages), query).value <==>
      (p in packages && (Contains(ToLower(p.name), ToLower(query)) || Contains(ToLower(p.summary), ToLower(query))))
  {
  }

  /** The empty query finds every package, in order. */
  lemma EmptyQueryFindsAll(packages: seq<PackageInfo>)
    ensures SearchPackages(Ok(packages), "") == Ok(packages)
  {
    forall i | 0 <= i < |packages| ensures Matches(ToLower(""))(packages[i]) {
      ContainsEmpty(ToLower(packages[i].name));
    }
    FilterKeepsAll(Matches(ToLower("")), packages);
  }

  /** Lowering the query first changes nothing: the search ignores case. */
  lemma SearchIgnoresQueryCase(loaded: Result<seq<PackageInfo>, string>, query: string)
    ensures SearchPackages(loaded, ToLower(query)) == SearchPackages(loaded, query)
  {
    ToLowerIdempotent(query);
  }

  // ---------------------------------------------------------------------------------------
  // Package names from the tool's output

  /** The position of the first `c` in `s`, or `|s|` when there is none. */
  function IndexOf(s: string, c: char): (k: nat)
    ensures k <= |s|
    ensures forall i :: 0 <= i < k ==> s[i] != c
    ensures k < |s| ==> s[k] == c
  {
    if s == [] || s[0] == c then 0
    else
      var k := 1 + IndexOf(s[1..], c);
      assert forall i :: 1 <= i < k ==> s[i] == s[1..][i - 1];
      k
  }

  /** A line ended by "\r\n" loses its carriage return. */
  function StripCr(line: string): string {
    if line != [] && line[|line| - 1] == '\r' then line[..|line| - 1] else line
  }

  /** Rust's `str::lines`: the pieces between line feeds, a carriage return right before a
      line feed dropped, and no empty piece after a final line feed. */
  function Lines(s: string): (r: seq<string>)
    ensures s == [] <==> r == []
    decreases |s|
  {
    if s == [] then []
    else
      var k := IndexOf(s, '\n');
      if k == |s| then [s] else [StripCr(s[..k])] + Lines(s[k + 1..])
  }

  /** No line holds a line feed. */
  lemma {:induction false} LinesHaveNoLineFeed(s: string)
    ensures forall i :: 0 <= i < |Lines(s)| ==> '\n' !in Lines(s)[i]
    decreases |s|
  {
    if s != [] {
      var k := IndexOf(s, '\n');
      if k < |s| {
        LinesHaveNoLineFeed(s[k + 1..]);
        assert '\n' !in s[..k];
      }
    }
  }

  /** Splitting at the first line feed: the line before it, then the lines after it. */
  lemma LinesCons(line: string, rest: string)
    requires '\n' !in line
    ensures Lines(line + "\n" + rest) == [StripCr(line)] + Lines(rest)
  {
    var s := line + "\n" + rest;
    assert s[|line|] == '\n';
    assert forall i :: 0 <= i < |line| ==> s[i] == line[i];
    var k := IndexOf(s, '\n');
    assert k == |line|;
    assert s[..k] == line && s[k + 1..] == rest;
  }

  function NonEmpty(s: string): bool {
    s != ""
  }

  /** The names the `pisi li` and `pisi list-upgrades` outputs are read into: the first
      whitespace-separated token of each line, in line order, blank lines dropped. */
  function PackageNames(stdout: string): (r: seq<string>)
    ensures |r| <= |Lines(stdout)|
    ensures forall i :: 0 <= i < |r| ==> r[i] != ""
  {
    Filter(NonEmpty, Map(FirstToken, Lines(stdout)))
  }

  /** Every name is non-empty and free of whitespace, and is the first token of one of the
      output's lines. */
  lemma PackageNamesAreTokens(stdout: string)
    ensures forall name :: name in PackageNames(stdout) ==>
      && name != ""
      && (forall j :: 0 <= j < |name| ==> !IsRustWhitespace(name[j]))
      && (exists l :: l in Lines(stdout) && FirstToken(l) == name)
  {
    forall name | name in PackageNames(stdout)
      ensures && name != ""
              && (forall j :: 0 <= j < |name| ==> !IsRustWhitespace(name[j]))
              && (exists l :: l in Lines(stdout) && FirstToken(l) == name)
    {
      KeptToken(Lines(stdout), name);
    }
  }

  /** A kept token comes from one of the lines and is a non-empty run without whitespace. */
  lemma KeptToken(lines: seq<string>, name: string)
    requires name in Filter(NonEmpty, Map(FirstToken, lines))
    ensures name != "" && (forall j :: 0 <= j < |name| ==> !IsRustWhitespace(name[j]))
    ensures exists l :: l in lines && FirstToken(l) == name
  {
    var tokens := Map(FirstToken, lines);
    assert name in tokens;
    var m :| 0 <= m < |tokens| && tokens[m] == name;
    FirstTokenShape(lines[m]);
    assert lines[m] in lines;
  }

  /** One line at a time: the first line contributes its token, unless it is blank, ahead of
      the names of the remaining lines. */
  lemma PackageNamesCons(line: string, rest: string)
    requires '\n' !in line
    ensures PackageNames(line + "\n" + rest)
      == (if FirstToken(StripCr(line)) != "" then [FirstToken(StripCr(line))] else []) + PackageNames(rest)
  {
    LinesCons(line, rest);
    MapConcat(FirstToken, [StripCr(line)], Lines(rest));
    FilterConcat(NonEmpty, [FirstToken(StripCr(line))], Map(FirstToken, Lines(rest)));
  }

  /** `get_installed_packages`: `pisi li`; its names on success, otherwise its error output. */
  function InstalledPackages(run: seq<string> -> Result<Output, string>): (r: Result<seq<string>, string>)
    ensures r.Ok? <==> run(["li"]).Ok? && run(["li"]).value.success
    ensures r.Ok? ==> forall i :: 0 <= i < |r.value| ==> r.value[i] != ""
    ensures run(["li"]).Ok? && !run(["li"]).value.success ==>
      r.Err? && EndsWith(r.error, run(["li"]).value.stderr)
  {
    match run(["li"])
    case Err(e) => Err(e)
    case Ok(o) => if o.success then Ok(PackageNames(o.stdout)) else Err("pisi li failed: " + o.stderr)
  }

  /** `get_upgradable_packages`: `pisi list-upgrades`; its names on success, otherwise its
      error output. */
  function UpgradablePackages(run: seq<string> -> Result<Output, string>): (r: Result<seq<string>, string>)
    ensures r.Ok? <==> run(["list-upgrades"]).Ok? && run(["list-upgrades"]).value.success
    ensures r.Ok? ==> forall i :: 0 <= i < |r.value| ==> r.value[i] != ""
    ensures run(["list-upgrades"]).Ok? && !run(["list-upgrades"]).value.success ==>
      r.Err? && EndsWith(r.error, run(["list-upgrades"]).value.stderr)
  {
    match run(["list-upgrades"])
    case Err(e) => Err(e)
    case Ok(o) =>
      if o.success then Ok(PackageNames(o.stdout)) else Err("Failed to get upgradable packages: " + o.stderr)
  }

  /** Both listings succeed exactly when the tool starts and exits with success; they then
      return the output's package names, and otherwise the start error or a message ending
      with the error output. */
  lemma ListingOutcomes(run: seq<string> -> Result<Output, string>)
    ensures InstalledPackages(run).Ok? <==> run(["li"]).Ok? && run(["li"]).value.success
    ensures InstalledPackages(run).Ok? ==> InstalledPackages(run).value == PackageNames(run(["li"]).value.stdout)
    ensures run(["li"]).Err? ==> InstalledPackages(run) == Err(run(["li"]).error)
    ensures run(["li"]).Ok? && !run(["li"]).value.success ==>
      InstalledPackages(run) == Err("pisi li failed: " + run(["li"]).value.stderr)
    ensures UpgradablePackages(run).Ok? <==> run(["list-upgrades"]).Ok? && run(["list-upgrades"]).value.success
    ensures UpgradablePackages(run).Ok? ==>
      UpgradablePackages(run).value == PackageNames(run(["list-upgrades"]).value.stdout)
    ensures run(["list-upgrades"]).Ok? && !run(["list-upgrades"]).value.success ==>
      UpgradablePackages(run) == Err("Failed to get upgradable packages: " + run(["list-upgrades"]).value.stderr)
  {
  }

  // ---------------------------------------------------------------------------------------
  // Install, remove, update, update-repo

  datatype Action = Install | Remove | Update

  /** The `pisi` subcommand of each action. */
  function Verb(a: Action): string {
    match a
    case Install => "it"
    case Remove => "rm"
    case Update => "up"
  }

  function Done(a: Action): string {
    match a
    case Install => "installed"
    case Remove => "removed"
    case Update => "updated"
  }

  function Attempted(a: Action): string {
    match a
    case Install => "install"
    case Remove => "remove"
    case Update => "update"
  }

  /** The arguments given to `pisi`: the subcommand, the package name, and "-y". */
  function ActionArgs(a: Action, name: string): (r: seq<string>)
    ensures |r| == 3 && r[0] == Verb(a) && r[1] == name && r[2] == "-y"
  {
    [Verb(a), name, "-y"]
  }

  /** `install_package`, `remove_package` and `update_package`. */
  function PackageAction(run: seq<string> -> Result<Output, string>, a: Action, name: string): (r: Result<string, string>)
    ensures r.Ok? <==> run(ActionArgs(a, name)).Ok? && run(ActionArgs(a, name)).value.success
    ensures r.Ok? ==> StartsWith(r.value, "Package " + name + " ")
    ensures run(ActionArgs(a, name)).Ok? && !run(ActionArgs(a, name)).value.success ==>
      r.Err? && EndsWith(r.error, run(ActionArgs(a, name)).value.stderr)
  {
    match run(ActionArgs(a, name))
    case Err(e) => Err(e)
    case Ok(o) =>
      if o.success then Ok("Package " + name + " " + Done(a) + " successfully")
      else Err("Failed to " + Attempted(a) + " " + name + ": " + o.stderr)
  }

  /** Each action runs its own subcommand: different actions never pass the same arguments,
      and the arguments name the package. */
  lemma ActionArgsDistinct(a: Action, b: Action, m: string, n: string)
    ensures ActionArgs(a, m) == ActionArgs(b, n) <==> a == b && m == n
  {
    if ActionArgs(a, m) == ActionArgs(b, n) {
      assert Verb(a) == ActionArgs(a, m)[0];
    }
  }

  /** An action succeeds exactly when `pisi` starts and exits with success; success reports
      the package and what was done to it, failure carries the start error or the error
      output. */
  lemma ActionOutcome(run: seq<string> -> Result<Output, string>, a: Action, name: string)
    ensures var out := run(ActionArgs(a, name));
      && (PackageAction(run, a, name).Ok? <==> out.Ok? && out.value.success)
      && (PackageAction(run, a, name).Ok? ==>
            PackageAction(run, a, name).value == "Package " + name + " " + Done(a) + " successfully")
      && (out.Err? ==> PackageAction(run, a, name) == Err(out.error))
      && (out.Ok? && !out.value.success ==>
            PackageAction(run, a, name).Err? && EndsWith(PackageAction(run, a, name).error, out.value.stderr))
  {
  }

  /** `update_repo`: `pisi ur`, nothing on success, otherwise its error output. */
  function UpdateRepo(run: seq<string> -> Result<Output, string>): (r: Result<(), string>)
    ensures r.Ok? <==> run(["ur"]).Ok? && run(["ur"]).value.success
    ensures run(["ur"]).Err? ==> r == Err(run(["ur"]).error)
    ensures run(["ur"]).Ok? && !run(["ur"]).value.success ==>
      r.Err? && EndsWith(r.error, run(["ur"]).value.stderr)
  {
    match run(["ur"])
    case Err(e) => Err(e)
    case Ok(o) => if !o.success then Err("Pisi update-repo failed: " + o.stderr) else Ok(())
  }

  // ---------------------------------------------------------------------------------------
  // Icon lookup

  /** The places an icon is looked for, in order: the 48x48 theme icon, the 32x32 one, and
      the pixmaps directory. */
  function IconPaths(name: string): (r: seq<string>)
    ensures |r| == 3
  {
    [ "/usr/share/icons/hicolor/48x48/apps/" + name + ".png",
      "/usr/share/icons/hicolor/32x32/apps/" + name + ".png",
      "/usr/share/pixmaps/" + name + ".png" ]
  }

  /** What `get_package_icon` returns: an error for an empty name; otherwise the first
      existing candidate read and encoded as a PNG data URL, a read error passed on, or
      "Icon not found" when no candidate exists. */
  function IconResult(name: string, fileExists: string -> bool, read: string -> Result<seq<bv8>, string>,
                      encode: seq<bv8> -> string): (r: Result<string, string>)
    ensures name == "" ==> r == Err("Icon name is empty")
    ensures r.Ok? ==> StartsWith(r.value, "data:image/png;base64,")
    ensures r.Ok? ==> exists k :: 0 <= k < 3 && fileExists(IconPaths(name)[k])
    ensures name != "" && (forall k :: 0 <= k < 3 ==> !fileExists(IconPaths(name)[k])) ==> r == Err("Icon not found")
  {
    if name == "" then Err("Icon name is empty")
    else
      var paths := IconPaths(name);
      match FirstWhere(fileExists, paths)
      case None => Err("Icon not found")
      case Some(k) =>
        match read(paths[k])
        case Err(e) => Err(e)
        case Ok(data) => Ok("data:image/png;base64," + encode(data))
  }

  /** `get_package_icon`: the candidates are tried in order, and the first that exists ends
      the search. */
  method GetPackageIcon(name: string, fileExists: string -> bool, read: string -> Result<seq<bv8>, string>,
                        encode: seq<bv8> -> string) returns (r: Result<string, string>)
    ensures r == IconResult(name, fileExists, read, encode)
  {
    if name == "" {
      return Err("Icon name is empty");
    }
    var paths := IconPaths(name);
    var i := 0;
    while i < |paths|
      invariant 0 <= i <= |paths|
      invariant forall j :: 0 <= j < i ==> !fileExists(paths[j])
    {
      if fileExists(paths[i]) {
        assert FirstWhere(fileExists, paths) == Some(i);
        var data := read(paths[i]);
        if data.Err? {
          return Err(data.error);
        }
        return Ok("data:image/png;base64," + encode(data.value));
      }
      i := i + 1;
    }
    return Err("Icon not found");
  }

  /** An empty name is refused before any file is looked at. */
  lemma EmptyIconName(fileExists: string -> bool, read: string -> Result<seq<bv8>, string>, encode: seq<bv8> -> string)
    ensures IconResult("", fileExists, read, encode) == Err("Icon name is empty")
  {
  }

  /** The lookup's outcomes: when some candidate exists the first one decides (its contents
      encoded, or its read error), later ones never being looked at; when none exists the
      icon is not found. */
  lemma IconLookupOrder(name: string, fileExists: string -> bool, read: string -> Result<seq<bv8>, string>,
                        encode: seq<bv8> -> string, k: nat)
    requires name != "" && k < 3
    requires fileExists(IconPaths(name)[k]) && forall j :: 0 <= j < k ==> !fileExists(IconPaths(name)[j])
    ensures read(IconPaths(name)[k]).Ok? ==>
      IconResult(name, fileExists, read, encode) == Ok("data:image/png;base64," + encode(read(IconPaths(name)[k]).value))
    ensures read(IconPaths(name)[k]).Err? ==>
      IconResult(name, fileExists, read, encode) == Err(read(IconPaths(name)[k]).error)
  {
    var f := FirstWhere(fileExists, IconPaths(name));
    assert f.Some? && f.value == k;
  }

  lemma IconNotFound(name: string, fileExists: string -> bool, read: string -> Result<seq<bv8>, string>,
                     encode: seq<bv8> -> string)
    requires name != ""
    requires forall j :: 0 <= j < 3 ==> !fileExists(IconPaths(name)[j])
    ensures IconResult(name, fileExists, read, encode) == Err("Icon not found")
  {
    assert FirstWhere(fileExists, IconPaths(name)).None?;
  }
}
