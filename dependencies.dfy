/**
 * `buildDependencies` and `areDependenciesUpToDate` (main.go): whether
 * `helm dependency build <chart>` is run before rendering. What the two functions
 * observe of the file system is a parameter.
 */
module Dependencies {

  import opened Wrappers
  import opened GoStrings
  import ChartYaml

  /** The outcome of `os.Stat`: found (with its modification time), missing, or
      another error. */
  datatype Stat = Found(modTime: int) | NotExist | StatFailed

  /** What the decision observes in a chart directory. */
  datatype ChartDirFacts = ChartDirFacts(
    chartYaml: Stat,                // Stat of <chart>/Chart.yaml
    chartLock: Stat,                // Stat of <chart>/Chart.lock
    chartsDir: Stat,                // Stat of <chart>/charts
    chartYamlText: Option<string>,  // os.ReadFile of Chart.yaml; None when it fails
    chartsEntries: Option<nat>)     // number of entries os.ReadDir finds in charts/; None when it fails

  /** Some line of `text`, once trimmed, is exactly `dependencies:`. */
  predicate DeclaresDependencies(text: string)
  {
    exists i :: 0 <= i < |Lines(text)| && TrimSpace(Lines(text)[i]) == "dependencies:"
  }

  /** When the vendored dependencies are current: Chart.yaml, Chart.lock and
      charts/ all exist, Chart.yaml was not modified after Chart.lock, Chart.yaml
      can be read, and a chart that declares dependencies has at least one entry in charts/. */
  predicate UpToDate(f: ChartDirFacts)
  {
    && f.chartYaml.Found?
    && f.chartLock.Found?
    && f.chartsDir.Found?
    && f.chartYaml.modTime <= f.chartLock.modTime
    && f.chartYamlText.Some?
    && (DeclaresDependencies(f.chartYamlText.value) ==> f.chartsEntries.Some? && f.chartsEntries.value > 0)
  }

  /** `areDependenciesUpToDate`: a chain of early returns, with a scan for the
      `dependencies:` line that stops at the first one. */
  method AreDependenciesUpToDate(f: ChartDirFacts) returns (upToDate: bool)
    ensures upToDate == UpToDate(f)
  {
    if !f.chartYaml.Found? {
      return false;
    }
    if !f.chartLock.Found? {
      return false;
    }
    if !f.chartsDir.Found? {
      return false;
    }
    if f.chartYaml.modTime > f.chartLock.modTime {
      return false;
    }
    if f.chartYamlText.None? {
      return false;
    }

    var hasDependencies := false;
    var lines := Lines(f.chartYamlText.value);
    for i := 0 to |lines|
      invariant !hasDependencies
      invariant forall j :: 0 <= j < i ==> TrimSpace(lines[j]) != "dependencies:"
    {
      if TrimSpace(lines[i]) == "dependencies:" {
        hasDependencies := true;
        break;
      }
    }
    assert hasDependencies == DeclaresDependencies(f.chartYamlText.value);

    if !hasDependencies {
      return true;
    }

    if f.chartsEntries.None? || f.chartsEntries.value == 0 {
      return false;
    }
    return true;
  }

  /** `buildDependencies`: whether `helm dependency build` is run. Nothing is done
      for a directory without Chart.yaml, when the build is skipped, or when the
      dependencies are up to date. A Stat error other than "not exist" does not
      stop the build. */
  method BuildDependencies(f: ChartDirFacts, skipBuild: bool) returns (runBuild: bool)
    ensures runBuild <==> f.chartYaml != NotExist && !skipBuild && !UpToDate(f)
  {
    if f.chartYaml.NotExist? {
      return false;
    }
    if skipBuild {
      return false;
    }
    var upToDate := AreDependenciesUpToDate(f);
    if upToDate {
      return false;
    }
    return true;
  }

  /** Editing Chart.yaml after Chart.lock makes the dependencies stale. */
  lemma EditedChartYamlIsStale(f: ChartDirFacts)
    requires f.chartYaml.Found? && f.chartLock.Found?
    requires f.chartYaml.modTime > f.chartLock.modTime
    ensures !UpToDate(f)
  {
  }

  /** A chart that names a local `file://` dependency in its dependency list declares
      dependencies, so it is only up to date once charts/ has an entry. */
  lemma LocalDependencyNeedsVendoredCharts(f: ChartDirFacts)
    requires f.chartYamlText.Some?
    requires ChartYaml.ChartDependencies(f.chartYamlText.value) != []
    requires f.chartsEntries == Some(0) || f.chartsEntries.None?
    ensures !UpToDate(f)
  {
    var text := f.chartYamlText.value;
    if !DeclaresDependencies(text) {
      ChartYaml.NoHeadingNoChartDependencies(text);
    }
  }

  /** A chart without a `dependencies:` line is up to date whatever charts/ holds,
      once its lock is at least as new as Chart.yaml. */
  lemma NoDependenciesIgnoresCharts(f: ChartDirFacts, entries: Option<nat>)
    requires f.chartYamlText.Some? && !DeclaresDependencies(f.chartYamlText.value)
    ensures UpToDate(f) == UpToDate(f.(chartsEntries := entries))
  {
  }
}
