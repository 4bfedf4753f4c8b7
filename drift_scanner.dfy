/**
 * The drift scanner: how far an app's deployment set-up has drifted from
 * the golden deployment. Four checks read configuration files that may be
 * absent; their findings replace the app's previous drift findings and are
 * counted into a summary. The golden deployment itself is never scanned.
 */
module DriftScanner {
  import opened Wrappers
  import Text
  import Sorting
  import opened QualityScanModel
  import MetricSummaryModel
  import AppModel

  const GoldenName: string := "golden_deployment"

  /** The files the checks read, each absent when it does not exist. */
  datatype DriftFiles = DriftFiles(deploy: Option<string>, appLock: Option<string>, goldenLock: Option<string>,
                                   production: Option<string>)

  /** A drift finding at `path`. */
  function Finding(severity: string, message: string, path: string): (r: QualityScan)
    requires severity in Severities
    ensures r.scanType == "drift" && r.severity == Some(severity) && r.message == Some(message)
    ensures r.filePath == Some(path) && r.lineNumber.None? && r.metricValue.None?
    ensures Valid(r)
  {
    QualityScan("drift", Some(severity), Some(message), Some(path), None, None)
  }

  // ---------------------------------------------------------------- Gemfile.lock

  /** One captured `name (version)` pair. */
  datatype GemEntry = GemEntry(name: string, version: string)

  predicate NotCloseParen(c: char) {
    c != ')'
  }

  /**
   * A line matching `^\s{4}(\w+)\s+\(([^)]+)\)`: exactly four white-space
   * characters, a word, white space, and a parenthesised version. The word
   * and the version are maximal runs, since the character after each can
   * never belong to it.
   */
  function GemLine(line: string): Option<GemEntry> {
    if |line| < 4 || exists k :: 0 <= k < 4 && !Text.IsSpace(line[k]) then None
    else
      var e := Text.SpanEnd(line, 4, Text.IsWordChar);
      var s := Text.SpanEnd(line, e, Text.IsSpace);
      if e == 4 || s == e || s == |line| || line[s] != '(' then None
      else
        var v := Text.SpanEnd(line, s + 1, NotCloseParen);
        if v == s + 1 || v == |line| then None
        else
          Some(GemEntry(line[4..e], line[s + 1..v]))
  }

  /** What an entry line looks like: the indentation, the word right after it, and a version without `)`. */
  lemma GemLineShape(line: string)
    ensures var r := GemLine(line);
      r.Some? ==> |line| > 4 && (forall k :: 0 <= k < 4 ==> Text.IsSpace(line[k]))
    ensures var r := GemLine(line);
      r.Some? ==> |r.value.name| > 0 && |r.value.version| > 0
    ensures var r := GemLine(line);
      r.Some? ==> 4 + |r.value.name| <= |line| && line[4..4 + |r.value.name|] == r.value.name
    ensures var r := GemLine(line);
      r.Some? ==> forall k :: 0 <= k < |r.value.name| ==> Text.IsWordChar(r.value.name[k])
    ensures var r := GemLine(line);
      r.Some? ==> ')' !in r.value.version
  {
  }

  /** The gems of the lines, read first to last; a later entry for a name overwrites an earlier one. */
  function GemVersions(lines: seq<string>): map<string, string> {
    if lines == [] then map[]
    else
      var gems := GemVersions(lines[..|lines| - 1]);
      match GemLine(lines[|lines| - 1])
      case None => gems
      case Some(g) => gems[g.name := g.version]
  }

  lemma GemVersionsPrefix(lines: seq<string>, i: int)
    requires 0 <= i < |lines|
    ensures GemVersions(lines[..i + 1]) ==
      (match GemLine(lines[i]) case None => GemVersions(lines[..i]) case Some(g) => GemVersions(lines[..i])[g.name := g.version])
  {
    assert lines[..i + 1][..i] == lines[..i];
  }

  predicate Names(lines: seq<string>, i: int, name: string)
    requires 0 <= i < |lines|
  {
    GemLine(lines[i]).Some? && GemLine(lines[i]).value.name == name
  }

  /** The last line adds its entry, if any, to the map of the lines before it. */
  lemma GemVersionsStep(lines: seq<string>, name: string)
    requires lines != []
    ensures name in GemVersions(lines) <==>
      (name in GemVersions(lines[..|lines| - 1]) || Names(lines, |lines| - 1, name))
  {
  }

  /** Dropping the last line keeps the entries of the lines before it. */
  lemma NamesInit(lines: seq<string>, i: int, name: string)
    requires 0 <= i < |lines| - 1
    ensures Names(lines[..|lines| - 1], i, name) == Names(lines, i, name)
  {
    assert lines[..|lines| - 1][i] == lines[i];
  }

  /** A name is in the map exactly when some line is an entry for it. */
  lemma GemVersionsKeys(lines: seq<string>, name: string)
    ensures name in GemVersions(lines) <==> exists i :: 0 <= i < |lines| && Names(lines, i, name)
  {
    if name in GemVersions(lines) {
      GemVersionsHasEntry(lines, name);
    }
    if exists i :: 0 <= i < |lines| && Names(lines, i, name) {
      var i :| 0 <= i < |lines| && Names(lines, i, name);
      GemVersionsEntryIn(lines, i, name);
    }
  }

  lemma {:induction false} GemVersionsHasEntry(lines: seq<string>, name: string)
    requires name in GemVersions(lines)
    ensures exists i :: 0 <= i < |lines| && Names(lines, i, name)
    decreases |lines|
  {
    var last := |lines| - 1;
    GemVersionsStep(lines, name);
    if !Names(lines, last, name) {
      GemVersionsHasEntry(lines[..last], name);
      var i :| 0 <= i < last && Names(lines[..last], i, name);
      NamesInit(lines, i, name);
    }
  }

  lemma {:induction false} GemVersionsEntryIn(lines: seq<string>, i: nat, name: string)
    requires i < |lines| && Names(lines, i, name)
    ensures name in GemVersions(lines)
    decreases |lines|
  {
    var last := |lines| - 1;
    GemVersionsStep(lines, name);
    if i < last {
      NamesInit(lines, i, name);
      GemVersionsEntryIn(lines[..last], i, name);
    }
  }

  /** A name maps to the version on the last line that is an entry for it. */
  lemma {:induction false} GemVersionsLast(lines: seq<string>, i: int)
    requires 0 <= i < |lines| && GemLine(lines[i]).Some?
    requires forall j :: i < j < |lines| ==> !Names(lines, j, GemLine(lines[i]).value.name)
    ensures GemLine(lines[i]).value.name in GemVersions(lines)
    ensures GemVersions(lines)[GemLine(lines[i]).value.name] == GemLine(lines[i]).value.version
    decreases |lines|
  {
    var init := lines[..|lines| - 1];
    var name := GemLine(lines[i]).value.name;
    if i < |lines| - 1 {
      assert init[i] == lines[i];
      forall j | i < j < |init|
        ensures !Names(init, j, name)
      {
        NamesInit(lines, j, name);
      }
      GemVersionsLast(init, i);
      assert !Names(lines, |lines| - 1, name);
    }
  }

  // ---------------------------------------------------------------- the checks

  const MissingDeploy: string := "Missing config/deploy.rb - deployment not configured"
  const MissingApplication: string := "Deployment config missing :application setting"
  const TailwindMissing: string := "Tailwind CSS build task may not be configured for deployment"
  const RoutingMissing: string :=
    "Path-based routing (relative_url_root) not configured - app may not work in production"

  /**
   * `check_deployment_config`: a missing deploy.rb is one critical finding
   * and nothing else; a present one gives one high finding exactly when it
   * lacks `set :application`.
   */
  function DeployFindings(deploy: Option<string>): (r: seq<QualityScan>)
    ensures deploy.None? ==> r == [Finding("critical", MissingDeploy, "config/deploy.rb")]
    ensures deploy.Some? ==> (r != [] <==> !Text.Contains(deploy.value, "set :application"))
    ensures deploy.Some? && r != [] ==> r == [Finding("high", MissingApplication, "config/deploy.rb")]
  {
    match deploy
    case None => [Finding("critical", MissingDeploy, "config/deploy.rb")]
    case Some(content) =>
      if Text.Contains(content, "set :application") then []
      else [Finding("high", MissingApplication, "config/deploy.rb")]
  }

  /** The Rails versions of both lock files, when both exist and both name rails. */
  function RailsVersions(appLock: Option<string>, goldenLock: Option<string>): (r: Option<(string, string)>)
    ensures r.Some? <==> (appLock.Some? && goldenLock.Some?
      && "rails" in GemVersions(Text.Split(appLock.value, '\n'))
      && "rails" in GemVersions(Text.Split(goldenLock.value, '\n')))
    ensures r.Some? ==> (r.value.0 == GemVersions(Text.Split(appLock.value, '\n'))["rails"]
      && r.value.1 == GemVersions(Text.Split(goldenLock.value, '\n'))["rails"])
  {
    if appLock.None? || goldenLock.None? then None
    else
      var app := GemVersions(Text.Split(appLock.value, '\n'));
      var golden := GemVersions(Text.Split(goldenLock.value, '\n'));
      if "rails" in app && "rails" in golden then Some((app["rails"], golden["rails"])) else None
  }

  /**
   * `check_gem_versions`: one medium finding exactly when both lock files
   * exist, both name rails, and the versions differ.
   */
  function GemFindings(appLock: Option<string>, goldenLock: Option<string>): (r: seq<QualityScan>)
    ensures r != [] <==> (RailsVersions(appLock, goldenLock).Some?
      && RailsVersions(appLock, goldenLock).value.0 != RailsVersions(appLock, goldenLock).value.1)
    ensures r != [] ==> var v := RailsVersions(appLock, goldenLock).value;
      r == [Finding("medium", "Rails version (" + v.0 + ") differs from golden_deployment (" + v.1 + ")",
                    "Gemfile.lock")]
  {
    match RailsVersions(appLock, goldenLock)
    case None => []
    case Some((app, golden)) =>
      if app == golden then []
      else [Finding("medium", "Rails version (" + app + ") differs from golden_deployment (" + golden + ")",
                    "Gemfile.lock")]
  }

  /** `check_tailwind_setup`: one medium finding exactly when production.rb exists without `tailwindcss:build`. */
  function TailwindFindings(production: Option<string>): (r: seq<QualityScan>)
    ensures r != [] <==> production.Some? && !Text.Contains(production.value, "tailwindcss:build")
    ensures r != [] ==> r == [Finding("medium", TailwindMissing, "config/environments/production.rb")]
  {
    if production.Some? && !Text.Contains(production.value, "tailwindcss:build")
    then [Finding("medium", TailwindMissing, "config/environments/production.rb")]
    else []
  }

  /** `check_path_based_routing`: one high finding exactly when production.rb exists without `relative_url_root`. */
  function RoutingFindings(production: Option<string>): (r: seq<QualityScan>)
    ensures r != [] <==> production.Some? && !Text.Contains(production.value, "relative_url_root")
    ensures r != [] ==> r == [Finding("high", RoutingMissing, "config/environments/production.rb")]
  {
    if production.Some? && !Text.Contains(production.value, "relative_url_root")
    then [Finding("high", RoutingMissing, "config/environments/production.rb")]
    else []
  }

  /** The findings of the four checks, in the order `scan` runs them. */
  function DriftResults(files: DriftFiles): (r: seq<QualityScan>)
    ensures |r| <= 4
    ensures files.deploy.None? ==> |r| >= 1 && r[0].severity == Some("critical")
  {
    DeployFindings(files.deploy) + GemFindings(files.appLock, files.goldenLock)
    + TailwindFindings(files.production) + RoutingFindings(files.production)
  }

  predicate IsDriftFinding(r: QualityScan) {
    r.scanType == "drift" && Valid(r)
  }

  predicate AllDrift(scans: seq<QualityScan>) {
    forall k :: 0 <= k < |scans| ==> IsDriftFinding(scans[k])
  }

  /** Every drift finding is valid, so `create!` accepts them all. */
  lemma DriftResultsValid(files: DriftFiles)
    ensures forall k :: 0 <= k < |DriftResults(files)| ==>
      DriftResults(files)[k].scanType == "drift" && Valid(DriftResults(files)[k])
  {
    var d := DeployFindings(files.deploy);
    var g := GemFindings(files.appLock, files.goldenLock);
    var t := TailwindFindings(files.production);
    var p := RoutingFindings(files.production);
    assert AllDrift(d);
    assert AllDrift(g);
    assert AllDrift(t);
    assert AllDrift(p);
    Sorting.AllAppend(d, g, IsDriftFinding);
    Sorting.AllAppend(d + g, t, IsDriftFinding);
    Sorting.AllAppend(d + g + t, p, IsDriftFinding);
  }

  /** The summary `create_summary` saves: critical and high together, medium, low. */
  function DriftSummary(prior: MetricSummaryModel.MetricSummary, scans: seq<QualityScan>, now: int)
    : (s: MetricSummaryModel.MetricSummary)
    ensures s == MetricSummaryModel.CountedSummary(prior, scans, now)
    ensures s.highSeverity == |BySeverity(scans, Some("critical"))| + |BySeverity(scans, Some("high"))|
  {
    CriticalIssuesSplit(scans);
    MetricSummaryModel.CountedSummary(prior, scans, now)
  }

  /**
   * The drift summary is critical exactly when deploy.rb is missing or
   * lacks its application setting, or production.rb lacks path-based
   * routing: the gem and Tailwind checks only ever warn.
   */
  lemma DriftCritical(prior: MetricSummaryModel.MetricSummary, files: DriftFiles, now: int)
    ensures MetricSummaryModel.Status(DriftSummary(prior, DriftResults(files), now)) == "critical" <==>
      || files.deploy.None?
      || !Text.Contains(files.deploy.value, "set :application")
      || (files.production.Some? && !Text.Contains(files.production.value, "relative_url_root"))
  {
    DriftHasCritical(files);
  }

  /** Only the deployment and routing checks give critical or high findings. */
  lemma DriftHasCritical(files: DriftFiles)
    ensures |CriticalIssues(DriftResults(files))| > 0 <==>
      DeployFindings(files.deploy) != [] || RoutingFindings(files.production) != []
  {
    var d := DeployFindings(files.deploy);
    var g := GemFindings(files.appLock, files.goldenLock);
    var t := TailwindFindings(files.production);
    var p := RoutingFindings(files.production);
    Sorting.KeepAppend(d, g, IsCriticalOrHigh);
    Sorting.KeepAppend(d + g, t, IsCriticalOrHigh);
    Sorting.KeepAppend(d + g + t, p, IsCriticalOrHigh);
    DeployKept(files.deploy);
    GemNoneKept(files.appLock, files.goldenLock);
    TailwindNoneKept(files.production);
    RoutingKept(files.production);
    assert Sorting.Keep(DriftResults(files), IsCriticalOrHigh) == d + [] + [] + p;
  }

  lemma DeployKept(deploy: Option<string>)
    ensures Sorting.Keep(DeployFindings(deploy), IsCriticalOrHigh) == DeployFindings(deploy)
  {
    Sorting.KeepAll(DeployFindings(deploy), IsCriticalOrHigh);
  }

  lemma GemNoneKept(appLock: Option<string>, goldenLock: Option<string>)
    ensures Sorting.Keep(GemFindings(appLock, goldenLock), IsCriticalOrHigh) == []
  {
    Sorting.NoneKept(GemFindings(appLock, goldenLock), IsCriticalOrHigh);
  }

  lemma TailwindNoneKept(production: Option<string>)
    ensures Sorting.Keep(TailwindFindings(production), IsCriticalOrHigh) == []
  {
    Sorting.NoneKept(TailwindFindings(production), IsCriticalOrHigh);
  }

  lemma RoutingKept(production: Option<string>)
    ensures Sorting.Keep(RoutingFindings(production), IsCriticalOrHigh) == RoutingFindings(production)
  {
    Sorting.KeepAll(RoutingFindings(production), IsCriticalOrHigh);
  }

  // ---------------------------------------------------------------- scanner

  class Scanner {
    var results: seq<QualityScan>

    constructor ()
      ensures results == []
    {
      results := [];
    }

    /** `parse_gemfile_lock`: the scan over the lines, each entry overwriting the name's earlier version. */
    static method ParseGemfileLock(content: string) returns (gems: map<string, string>)
      ensures gems == GemVersions(Text.Split(content, '\n'))
    {
      var lines := Text.Split(content, '\n');
      gems := map[];
      var i := 0;
      while i < |lines|
        invariant 0 <= i <= |lines|
        invariant gems == GemVersions(lines[..i])
      {
        GemVersionsPrefix(lines, i);
        var entry := GemLine(lines[i]);
        if entry.Some? {
          gems := gems[entry.value.name := entry.value.version];
        }
        i := i + 1;
      }
      assert lines[..i] == lines;
    }

    method CheckDeploymentConfig(deploy: Option<string>)
      modifies this
      ensures results == old(results) + DeployFindings(deploy)
    {
      if deploy.None? {
        results := results + [Finding("critical", MissingDeploy, "config/deploy.rb")];
        return;
      }
      if !Text.Contains(deploy.value, "set :application") {
        results := results + [Finding("high", MissingApplication, "config/deploy.rb")];
      }
    }

    method CheckGemVersions(appLock: Option<string>, goldenLock: Option<string>)
      modifies this
      ensures results == old(results) + GemFindings(appLock, goldenLock)
    {
      if appLock.None? || goldenLock.None? {
        return;
      }
      var appGems := ParseGemfileLock(appLock.value);
      var goldenGems := ParseGemfileLock(goldenLock.value);
      if "rails" in appGems && "rails" in goldenGems {
        if appGems["rails"] != goldenGems["rails"] {
          results := results + [Finding("medium", "Rails version (" + appGems["rails"] + ") differs from golden_deployment ("
                                                  + goldenGems["rails"] + ")", "Gemfile.lock")];
        }
      }
    }

    method CheckTailwindSetup(production: Option<string>)
      modifies this
      ensures results == old(results) + TailwindFindings(production)
    {
      if production.None? {
        return;
      }
      if !Text.Contains(production.value, "tailwindcss:build") {
        results := results + [Finding("medium", TailwindMissing, "config/environments/production.rb")];
      }
    }

    method CheckPathBasedRouting(production: Option<string>)
      modifies this
      ensures results == old(results) + RoutingFindings(production)
    {
      if production.None? {
        return;
      }
      if !Text.Contains(production.value, "relative_url_root") {
        results := results + [Finding("high", RoutingMissing, "config/environments/production.rb")];
      }
    }

    /**
     * `scan`: nothing for an app whose directory is missing or for the
     * golden deployment itself; otherwise the four checks run in order,
     * their findings replace the app's drift findings, and the summary is
     * saved.
     */
    method Scan(app: AppModel.App, appExists: bool, files: DriftFiles, now: int)
      requires results == []
      modifies this, app
      ensures !appExists || app.name == GoldenName ==>
        results == [] && app.qualityScans == old(app.qualityScans) && app.metricSummaries == old(app.metricSummaries)
      ensures appExists && app.name != GoldenName ==> results == DriftResults(files)
      ensures appExists && app.name != GoldenName ==>
        app.qualityScans == AppModel.WithoutType(old(app.qualityScans), "drift") + results
      ensures appExists && app.name != GoldenName ==> app.metricSummaries == AppModel.Upsert(old(app.metricSummaries),
        DriftSummary(AppModel.FindOrInitialize(old(app.metricSummaries), "drift"), results, now))
      ensures app.name == old(app.name) && app.status == old(app.status) && app.lastScannedAt == old(app.lastScannedAt)
    {
      if !appExists || app.name == GoldenName {
        return;
      }
      CheckDeploymentConfig(files.deploy);
      assert results == DeployFindings(files.deploy);
      CheckGemVersions(files.appLock, files.goldenLock);
      CheckTailwindSetup(files.production);
      CheckPathBasedRouting(files.production);
      assert results == DriftResults(files);
      DriftResultsValid(files);
      app.ReplaceScans("drift", results);
      AppModel.ReplacedScansOfType(old(app.qualityScans), "drift", results);
      var stored := ByType(app.qualityScans, "drift");
      assert stored == results;
      app.SaveSummary(DriftSummary(app.SummaryFor("drift"), stored, now));
    }
  }
}
