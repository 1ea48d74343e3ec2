/** The Tauri command layer of the web front end. Its one computation is the statistics
    command; the other commands hand their `PackageManager` counterpart's result through
    unchanged, so the counterparts stand for them. */
module Commands {
  import opened Wrappers
  import opened XmlParser
  import opened PackageManager

  datatype PackageStats = PackageStats(
    totalCount: nat,
    installedCount: nat,
    availableCount: nat,
    updatesCount: nat)

  /** The available count: total minus installed when that is positive, 0 otherwise (the
      guard keeps the unsigned subtraction from going below zero). */
  function Available(total: nat, installed: nat): (r: nat)
    ensures r <= total
    ensures total >= installed ==> r + installed == total
    ensures r == 0 <==> total <= installed
  {
    if total > installed then total - installed else 0
  }

  /** `get_package_stats`: the index, the installed list and the upgradable list are fetched
      in that order and the first failure is returned; otherwise the counts are their
      lengths. */
  function GetPackageStats(loaded: Result<seq<PackageInfo>, string>, run: seq<string> -> Result<Output, string>)
    : (r: Result<PackageStats, string>)
    ensures r.Ok? <==> loaded.Ok? && InstalledPackages(run).Ok? && UpgradablePackages(run).Ok?
    ensures loaded.Err? ==> r == Err(loaded.error)
    ensures loaded.Ok? && InstalledPackages(run).Err? ==> r == Err(InstalledPackages(run).error)
    ensures loaded.Ok? && InstalledPackages(run).Ok? && UpgradablePackages(run).Err? ==>
      r == Err(UpgradablePackages(run).error)
    ensures r.Ok? ==> (r.value.totalCount == |loaded.value|
      && r.value.installedCount == |InstalledPackages(run).value|
      && r.value.updatesCount == |UpgradablePackages(run).value|
      && r.value.availableCount <= r.value.totalCount)
  {
    match loaded
    case Err(e) => Err(e)
    case Ok(packages) =>
      match InstalledPackages(run)
      case Err(e) => Err(e)
      case Ok(installed) =>
        match UpgradablePackages(run)
        case Err(e) => Err(e)
        case Ok(updates) =>
          Ok(PackageStats(|packages|, |installed|, Available(|packages|, |installed|), |updates|))
  }

  /** The statistics add up: installed and available make the total whenever no more packages
      are installed than the index lists. */
  lemma StatsAddUp(loaded: Result<seq<PackageInfo>, string>, run: seq<string> -> Result<Output, string>)
    requires GetPackageStats(loaded, run).Ok?
    ensures var s := GetPackageStats(loaded, run).value;
      && (s.installedCount <= s.totalCount ==> s.installedCount + s.availableCount == s.totalCount)
      && (s.installedCount >= s.totalCount ==> s.availableCount == 0)
  {
  }
}
