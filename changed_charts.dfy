/**
 * `detectChangedCharts` (main.go), after `git diff --name-only <base> <current>` has
 * run: its standard output is the parameter `gitDiffOutput`.
 */
module ChangedCharts {

  import opened Wrappers
  import opened GoStrings

  /** The changed paths, one per line of the trimmed `git diff` output. */
  function ChangedFiles(gitDiffOutput: string): seq<string>
  {
    Split(TrimSpace(gitDiffOutput), '\n')
  }

  /** The chart name the loop records for one changed path: the second
      `/`-separated component of a non-empty path that starts with `chartDir + "/"`. */
  function ChartOf(file: string, chartDir: string): Option<string>
  {
    if file == "" then None
    else if chartDir + "/" <= file then
      var parts := Split(file, '/');
      if |parts| >= 2 then Some(parts[1]) else None
    else None
  }

  /** The chart names recorded for a list of changed paths. */
  function ChartNames(files: seq<string>, chartDir: string): set<string>
  {
    set i | 0 <= i < |files| && ChartOf(files[i], chartDir).Some? :: ChartOf(files[i], chartDir).value
  }

  /** `detectChangedCharts`: fills a `map[string]bool` with the chart of each changed
      path, then lists the map's keys in Go's unspecified map order. */
  method DetectChangedCharts(gitDiffOutput: string, chartDir: string) returns (charts: seq<string>)
    ensures forall i, j :: 0 <= i < j < |charts| ==> charts[i] != charts[j]
    ensures forall c :: c in charts <==> c in ChartNames(ChangedFiles(gitDiffOutput), chartDir)
  {
    var changedFiles := ChangedFiles(gitDiffOutput);
    var chartSet: map<string, bool> := map[];
    for k := 0 to |changedFiles|
      invariant forall c :: c in chartSet <==>
        exists i :: 0 <= i < k && ChartOf(changedFiles[i], chartDir) == Some(c)
    {
      var file := changedFiles[k];
      if file == "" {
        continue;
      }
      if chartDir + "/" <= file {
        var parts := Split(file, '/');
        if |parts| >= 2 {
          var chartName := parts[1];
          assert ChartOf(file, chartDir) == Some(chartName);
          chartSet := chartSet[chartName := true];
        }
      } else {
        assert ChartOf(file, chartDir) == None;
      }
    }
    charts := MapKeys(chartSet);
    forall c ensures c in charts <==> c in ChartNames(changedFiles, chartDir) {
      ChartNamesMember(changedFiles, chartDir, c);
    }
  }

  /** The recorded names are exactly the names of the charts of the listed paths. */
  lemma ChartNamesMember(files: seq<string>, chartDir: string, c: string)
    ensures c in ChartNames(files, chartDir) <==>
      exists i :: 0 <= i < |files| && ChartOf(files[i], chartDir) == Some(c)
  {
    if exists i :: 0 <= i < |files| && ChartOf(files[i], chartDir) == Some(c) {
      var i :| 0 <= i < |files| && ChartOf(files[i], chartDir) == Some(c);
      assert ChartOf(files[i], chartDir).value == c;
    }
  }

  /** `for k := range m { keys = append(keys, k) }`: every key once, in the map's
      unspecified iteration order (an arbitrary choice of the next key). */
  method MapKeys<K>(m: map<K, bool>) returns (keys: seq<K>)
    ensures forall i, j :: 0 <= i < j < |keys| ==> keys[i] != keys[j]
    ensures forall k :: k in keys <==> k in m
  {
    keys := [];
    var remaining := m.Keys;
    while remaining != {}
      invariant remaining <= m.Keys
      invariant forall k :: k in keys <==> k in m.Keys - remaining
      invariant forall i, j :: 0 <= i < j < |keys| ==> keys[i] != keys[j]
      decreases remaining
    {
      var k :| k in remaining;
      assert k !in keys;
      keys := keys + [k];
      remaining := remaining - {k};
    }
  }

  /** A path under `chartDir + "/"` always splits into at least two parts, so the
      length guard of the loop never rejects one. */
  lemma PrefixedPathHasTwoParts(file: string, chartDir: string)
    requires chartDir + "/" <= file
    ensures |Split(file, '/')| >= 2
  {
    assert file[|chartDir|] == '/';
  }

  /** An empty (or blank) `git diff` output yields no chart. */
  lemma NoChangedFilesNoCharts(gitDiffOutput: string, chartDir: string)
    requires forall k :: 0 <= k < |gitDiffOutput| ==> gitDiffOutput[k] in AsciiSpace
    ensures ChartNames(ChangedFiles(gitDiffOutput), chartDir) == {}
  {
    TrimLeftDrops(gitDiffOutput, AsciiSpace);
    assert TrimSpace(gitDiffOutput) == "";
    assert ChangedFiles(gitDiffOutput) == [""];
  }

  /** The first `sep`-separated piece of `s`: a prefix of `s`, ended by `sep` or by the end of `s`. */
  lemma SplitFirstPiece(s: string, sep: char)
    ensures Split(s, sep)[0] <= s
    ensures |Split(s, sep)[0]| == |s| || s[|Split(s, sep)[0]|] == sep
  {
  }

  /** The chart a changed path belongs to, read as the path component that follows
      `chartDir + "/"` — the name of a directory directly inside `chartDir`. */
  function ChartUnder(file: string, chartDir: string): (r: Option<string>)
    ensures r.Some? ==> '/' !in r.value && chartDir + "/" + r.value <= file
    ensures r.Some? ==> |file| == |chartDir| + 1 + |r.value| || file[|chartDir| + 1 + |r.value|] == '/'
    ensures r.None? <==> !(chartDir + "/" <= file)
  {
    if chartDir + "/" <= file then
      var rest := file[|chartDir| + 1..];
      SplitFirstPiece(rest, '/');
      assert file == chartDir + "/" + rest;
      Some(Split(rest, '/')[0])
    else None
  }

  /** When `chartDir` is a single path component, the second component of the path
      is the component after `chartDir`: the loop records the intended chart. */
  lemma {:induction false} ChartOfSingleComponentDir(file: string, chartDir: string)
    requires '/' !in chartDir
    requires chartDir + "/" <= file
    ensures ChartOf(file, chartDir) == ChartUnder(file, chartDir)
  {
    var rest := file[|chartDir| + 1..];
    assert file == chartDir + ['/'] + rest;
    SplitAtFirst(chartDir, rest, '/');
  }

  /** The chart names as intended: the directory right after `chartDir` of each
      non-empty changed path under it. */
  function IntendedChartNames(files: seq<string>, chartDir: string): set<string>
  {
    set i | 0 <= i < |files| && files[i] != "" && ChartUnder(files[i], chartDir).Some? :: ChartUnder(files[i], chartDir).value
  }

  /** For a one-component `chartDir` such as `charts`, the names the
      loop records are the intended ones. */
  lemma ChartNamesAsIntended(files: seq<string>, chartDir: string)
    requires '/' !in chartDir
    ensures ChartNames(files, chartDir) == IntendedChartNames(files, chartDir)
  {
    forall i | 0 <= i < |files| && files[i] != ""
      ensures ChartOf(files[i], chartDir) == ChartUnder(files[i], chartDir)
    {
      if chartDir + "/" <= files[i] {
        ChartOfSingleComponentDir(files[i], chartDir);
      }
    }
    forall c | c in ChartNames(files, chartDir) ensures c in IntendedChartNames(files, chartDir) {
      var i :| 0 <= i < |files| && ChartOf(files[i], chartDir).Some? && ChartOf(files[i], chartDir).value == c;
      assert files[i] != "";
    }
    forall c | c in IntendedChartNames(files, chartDir) ensures c in ChartNames(files, chartDir) {
      var i :| 0 <= i < |files| && files[i] != "" && ChartUnder(files[i], chartDir).Some? && ChartUnder(files[i], chartDir).value == c;
      assert ChartOf(files[i], chartDir) == ChartUnder(files[i], chartDir);
    }
  }

  /** `git diff --name-only` prints paths relative to the repository root, never
      starting with `./`, so under the default `chartDir` `.` the prefix test never
      holds and no chart is detected. */
  lemma DefaultChartDirDetectsNothing(files: seq<string>)
    requires forall i :: 0 <= i < |files| ==> !("./" <= files[i])
    ensures ChartNames(files, ".") == {}
  {
    forall i | 0 <= i < |files| ensures ChartOf(files[i], ".") == None {
      assert "." + "/" == "./";
    }
  }

  /** With a nested `chartDir` such as `deploy/charts`, the second component of
      `deploy/charts/app/Chart.yaml` is `charts`, a directory of `chartDir` itself,
      and the loop records it instead of the chart `app`. */
  lemma NestedChartDirRecordsWrongName(parent: string, sub: string, chart: string, tail: string)
    requires '/' !in parent && '/' !in sub && '/' !in chart
    requires chart != sub
    ensures ChartOf(parent + "/" + sub + "/" + chart + "/" + tail, parent + "/" + sub) == Some(sub)
    ensures ChartUnder(parent + "/" + sub + "/" + chart + "/" + tail, parent + "/" + sub) == Some(chart)
  {
    var dir := parent + "/" + sub;
    var file := dir + "/" + chart + "/" + tail;
    NestedSecondPart(parent, sub, chart + "/" + tail);
    assert file == parent + "/" + sub + "/" + (chart + "/" + tail);
    assert dir + "/" <= file;
    PrefixedPathHasTwoParts(file, dir);
    ChartAfter(dir, chart, tail);
  }

  lemma NestedSecondPart(parent: string, sub: string, rest: string)
    requires '/' !in parent && '/' !in sub
    ensures Split(parent + "/" + sub + "/" + rest, '/')[1] == sub
  {
    var file := parent + "/" + sub + "/" + rest;
    assert file == parent + ['/'] + (sub + ['/'] + rest);
    SplitAtFirst(parent, sub + ['/'] + rest, '/');
    SplitAtFirst(sub, rest, '/');
  }

  lemma ChartAfter(dir: string, chart: string, tail: string)
    requires '/' !in chart
    ensures ChartUnder(dir + "/" + chart + "/" + tail, dir) == Some(chart)
  {
    var file := dir + "/" + chart + "/" + tail;
    assert dir + "/" <= file;
    assert file[|dir| + 1..] == chart + ['/'] + tail;
    SplitAtFirst(chart, tail, '/');
  }
}
