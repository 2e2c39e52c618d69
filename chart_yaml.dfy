/**
 * The line-oriented readers of a chart's `Chart.yaml` (main.go): `isLibraryChart`
 * and `getChartPathsToExtract`. The file's text, or the output of
 * `git show <ref>:<chartPath>/Chart.yaml`, is a parameter; `None` stands for a
 * failed read or a failed `git show`.
 */
module ChartYaml {

  import opened Wrappers
  import opened GoStrings

  // ---------------------------------------------------------------- isLibraryChart

  /** A line that declares the chart's `type:` once trimmed. */
  predicate IsTypeLine(line: string)
  {
    "type:" <= TrimSpace(line)
  }

  /** The trimmed value of a `type:` line. */
  function TypeValue(line: string): string
  {
    TrimSpace(TrimPrefix(TrimSpace(line), "type:"))
  }

  /** Line `i` is the first `type:` line of `lines`. */
  predicate IsFirstTypeLine(lines: seq<string>, i: int)
  {
    0 <= i < |lines| && IsTypeLine(lines[i]) && forall j :: 0 <= j < i ==> !IsTypeLine(lines[j])
  }

  /** `isLibraryChart`: the chart is a library chart when the first `type:` line says
      `library`; later `type:` lines are not looked at, and a file without one is an
      application chart. A failed read reports an error and "not a library". */
  method IsLibraryChart(chartYaml: Option<string>) returns (isLibrary: bool, readFailed: bool)
    ensures readFailed <==> chartYaml.None?
    ensures readFailed ==> !isLibrary
    ensures chartYaml.Some? ==>
      (isLibrary <==> exists i :: IsFirstTypeLine(Lines(chartYaml.value), i)
                                  && TypeValue(Lines(chartYaml.value)[i]) == "library")
  {
    if chartYaml.None? {
      return false, true;
    }
    var lines := Lines(chartYaml.value);
    for i := 0 to |lines|
      invariant forall j :: 0 <= j < i ==> !IsTypeLine(lines[j])
    {
      var line := TrimSpace(lines[i]);
      if "type:" <= line {
        var typeValue := TrimSpace(TrimPrefix(line, "type:"));
        assert IsFirstTypeLine(lines, i);
        FirstTypeLineUnique(lines, i);
        return typeValue == "library", false;
      }
    }
    return false, false;
  }

  /** There is at most one first `type:` line. */
  lemma FirstTypeLineUnique(lines: seq<string>, i: int)
    requires IsFirstTypeLine(lines, i)
    ensures forall k :: IsFirstTypeLine(lines, k) ==> k == i
  {
  }

  // ------------------------------------------------------- getChartPathsToExtract

  /** Where the scan of `getChartPathsToExtract` stands: before the `dependencies:`
      line, inside the dependency list, or stopped for good by the loop's `break`. */
  datatype ScanState = BeforeDependencies | InDependencies | Stopped

  /** A trimmed line that ends the dependency list: non-empty and not a `-`,
      `name:`, `version:` or `repository:` line. */
  predicate EndsDependencies(trimmed: string)
  {
    |trimmed| > 0
    && !("-" <= trimmed)
    && !("name:" <= trimmed)
    && !("version:" <= trimmed)
    && !("repository:" <= trimmed)
  }

  /** The dependency directory a trimmed `repository:` line names with `file://`,
      once surrounding white space and quotes are stripped from the value. */
  function LocalRepository(trimmed: string): Option<string>
  {
    if "repository:" <= trimmed then
      var repo := Trim(TrimSpace(TrimPrefix(trimmed, "repository:")), {'"', '\''});
      if "file://" <= repo then Some(TrimPrefix(repo, "file://")) else None
    else
      None
  }

  /** What a line means to the scan. */
  datatype LineKind =
    | Heading                  // `dependencies:`
    | EndOfList                // a line that ends the dependency list
    | LocalRepo(dir: string)   // `repository: file://<dir>`
    | Other                    // anything else, blank lines included

  function Classify(line: string): LineKind
  {
    var trimmed := TrimSpace(line);
    if trimmed == "dependencies:" then Heading
    else if EndsDependencies(trimmed) then EndOfList
    else match LocalRepository(trimmed)
      case Some(dir) => LocalRepo(dir)
      case None => Other
  }

  /** The kind of each line. */
  function Kinds(lines: seq<string>): (kinds: seq<LineKind>)
    ensures |kinds| == |lines|
  {
    if |lines| == 0 then [] else [Classify(lines[0])] + Kinds(lines[1..])
  }

  lemma {:induction false} KindAt(lines: seq<string>, i: int)
    requires 0 <= i < |lines|
    ensures Kinds(lines)[i] == Classify(lines[i])
  {
    if i > 0 {
      KindAt(lines[1..], i - 1);
    }
  }

  /** The state after reading one more line. */
  function Step(state: ScanState, kind: LineKind): ScanState
  {
    if state == Stopped then Stopped
    else if kind == Heading then InDependencies
    else if state == InDependencies && kind == EndOfList then Stopped
    else state
  }

  /** The state after reading all of `kinds`. */
  function StepAll(state: ScanState, kinds: seq<LineKind>): ScanState
    decreases |kinds|
  {
    if |kinds| == 0 then state else StepAll(Step(state, kinds[0]), kinds[1..])
  }

  /** What one line adds to the dependency directories, in state `state`. */
  function Emitted(state: ScanState, kind: LineKind): seq<string>
  {
    if state == InDependencies && kind.LocalRepo? then [kind.dir] else []
  }

  /** The `file://` dependency directories found by scanning lines of the given
      kinds from `state`. */
  function LocalDependencies(kinds: seq<LineKind>, state: ScanState): seq<string>
  {
    if |kinds| == 0 then []
    else Emitted(state, kinds[0]) + LocalDependencies(kinds[1..], Step(state, kinds[0]))
  }

  /** Each dependency directory resolved against the chart path by `filepath.Join`
      (which also cleans the result), passed in as `join`. */
  function Resolved(chartPath: string, deps: seq<string>, join: (string, string) -> string): (r: seq<string>)
    ensures |r| == |deps|
    ensures forall k :: 0 <= k < |deps| ==> r[k] == join(chartPath, deps[k])
  {
    seq(|deps|, k requires 0 <= k < |deps| => join(chartPath, deps[k]))
  }

  /** The `file://` dependency directories of a `Chart.yaml` text. */
  function ChartDependencies(chartYaml: string): seq<string>
  {
    LocalDependencies(Kinds(Lines(chartYaml)), BeforeDependencies)
  }

  /** The scan state that the loop's `inDependencies` flag stands for. */
  function FlagState(inDependencies: bool): ScanState
  {
    if inDependencies then InDependencies else BeforeDependencies
  }

  /** One pass of the loop body of `getChartPathsToExtract`, on line `i`: the new
      value of `inDependencies`, whether the loop breaks, and the `file://`
      directory the line contributes, if any. */
  method ScanLine(lines: seq<string>, i: nat, inDependencies: bool)
    returns (nowInDependencies: bool, stop: bool, depPath: Option<string>)
    requires i < |lines|
    ensures Step(FlagState(inDependencies), Kinds(lines)[i]) == if stop then Stopped else FlagState(nowInDependencies)
    ensures Emitted(FlagState(inDependencies), Kinds(lines)[i]) == if depPath.Some? then [depPath.value] else []
    ensures stop ==> depPath.None?
  {
    KindAt(lines, i);
    nowInDependencies, stop, depPath := inDependencies, false, None;
    var trimmed := TrimSpace(lines[i]);

    if trimmed == "dependencies:" {
      nowInDependencies := true;
      return;
    }

    if inDependencies {
      if |trimmed| > 0 && !("-" <= trimmed) && !("name:" <= trimmed) && !("version:" <= trimmed) && !("repository:" <= trimmed) {
        stop := true;
        return;
      }

      if "repository:" <= trimmed {
        var repo := TrimSpace(TrimPrefix(trimmed, "repository:"));
        repo := Trim(repo, {'"', '\''});

        if "file://" <= repo {
          depPath := Some(TrimPrefix(repo, "file://"));
        }
      }
    }
  }

  /** `getChartPathsToExtract`, after `git show <ref>:<chartPath>/Chart.yaml` has run
      (`shown` is its output, `None` when it failed): the chart path, then each local
      dependency directory named in the dependency list, in file order. */
  method GetChartPathsToExtract(chartPath: string, shown: Option<string>, join: (string, string) -> string)
    returns (paths: seq<string>)
    ensures |paths| >= 1 && paths[0] == chartPath
    ensures shown.None? ==> paths == [chartPath]
    ensures shown.Some? ==> paths == [chartPath] + Resolved(chartPath, ChartDependencies(shown.value), join)
  {
    paths := [chartPath];
    if shown.None? {
      return;
    }
    var lines := Lines(shown.value);
    ghost var kinds := Kinds(lines);
    ghost var all := LocalDependencies(kinds, BeforeDependencies);
    ghost var deps: seq<string> := [];
    var inDependencies := false;
    for i := 0 to |lines|
      invariant paths == [chartPath] + Resolved(chartPath, deps, join)
      invariant deps + LocalDependencies(kinds[i..], FlagState(inDependencies)) == all
    {
      ghost var wasInDependencies := inDependencies;
      var stop, depPath;
      inDependencies, stop, depPath := ScanLine(lines, i, inDependencies);
      ScanAdvance(kinds, i, wasInDependencies, inDependencies, stop, depPath, deps, all);
      if stop {
        break;
      }
      if depPath.Some? {
        ResolvedAppend(chartPath, deps, depPath.value, join);
        paths := paths + [join(chartPath, depPath.value)];
        deps := deps + [depPath.value];
      }
    }
    assert kinds[|lines|..] == [];
  }

  lemma ResolvedAppend(chartPath: string, deps: seq<string>, dep: string, join: (string, string) -> string)
    ensures [chartPath] + Resolved(chartPath, deps + [dep], join)
            == ([chartPath] + Resolved(chartPath, deps, join)) + [join(chartPath, dep)]
  {
  }

  /** One pass of the loop keeps "found so far" followed by "still to find" equal
      to the whole; after the line that stops the scan, nothing is left to find. */
  lemma ScanAdvance(kinds: seq<LineKind>, i: int, wasInDependencies: bool, nowInDependencies: bool,
                    stop: bool, depPath: Option<string>, deps: seq<string>, all: seq<string>)
    requires 0 <= i < |kinds|
    requires deps + LocalDependencies(kinds[i..], FlagState(wasInDependencies)) == all
    requires Step(FlagState(wasInDependencies), kinds[i]) == if stop then Stopped else FlagState(nowInDependencies)
    requires Emitted(FlagState(wasInDependencies), kinds[i]) == if depPath.Some? then [depPath.value] else []
    requires stop ==> depPath.None?
    ensures stop ==> deps == all
    ensures !stop && depPath.None? ==> deps + LocalDependencies(kinds[i + 1..], FlagState(nowInDependencies)) == all
    ensures !stop && depPath.Some? ==>
            (deps + [depPath.value]) + LocalDependencies(kinds[i + 1..], FlagState(nowInDependencies)) == all
  {
    ScanOneLine(kinds, i, FlagState(wasInDependencies));
    if stop {
      StoppedScanEmitsNothing(kinds[i + 1..]);
    }
  }

  lemma NotHeadingAt(lines: seq<string>, i: int)
    requires 0 <= i < |lines| && TrimSpace(lines[i]) != "dependencies:"
    ensures Kinds(lines)[i] != Heading
  {
    KindAt(lines, i);
  }

  /** Scanning from line `i` is reading line `i`, then scanning from line `i + 1`. */
  lemma ScanOneLine(kinds: seq<LineKind>, i: int, state: ScanState)
    requires 0 <= i < |kinds|
    ensures LocalDependencies(kinds[i..], state)
            == Emitted(state, kinds[i]) + LocalDependencies(kinds[i + 1..], Step(state, kinds[i]))
  {
    assert kinds[i..][1..] == kinds[i + 1..];
  }

  /** Once stopped, the scan adds nothing more, whatever follows. */
  lemma {:induction false} StoppedScanEmitsNothing(kinds: seq<LineKind>)
    ensures LocalDependencies(kinds, Stopped) == []
  {
    if |kinds| > 0 {
      StoppedScanEmitsNothing(kinds[1..]);
    }
  }

  /** The scan of a concatenation is the scan of the first part followed by the
      scan of the second from the state the first part left. */
  lemma {:induction false} ScanConcat(a: seq<LineKind>, b: seq<LineKind>, state: ScanState)
    ensures LocalDependencies(a + b, state) == LocalDependencies(a, state) + LocalDependencies(b, StepAll(state, a))
  {
    if |a| > 0 {
      ScanConcat(a[1..], b, Step(state, a[0]));
      assert (a + b)[1..] == a[1..] + b;
    } else {
      assert a + b == b;
    }
  }

  /** After the line that ends the dependency list, later lines (even a second
      `dependencies:` section) add nothing. */
  lemma StopIsFinal(a: seq<LineKind>, b: seq<LineKind>, state: ScanState)
    requires StepAll(state, a) == Stopped
    ensures LocalDependencies(a + b, state) == LocalDependencies(a, state)
  {
    ScanConcat(a, b, state);
    StoppedScanEmitsNothing(b);
  }

  /** Lines before the first `dependencies:` line add nothing and leave the scan
      where it started. */
  lemma {:induction false} NoHeadingNoDependencies(kinds: seq<LineKind>)
    requires forall i :: 0 <= i < |kinds| ==> kinds[i] != Heading
    ensures LocalDependencies(kinds, BeforeDependencies) == []
    ensures StepAll(BeforeDependencies, kinds) == BeforeDependencies
  {
    if |kinds| > 0 {
      NoHeadingNoDependencies(kinds[1..]);
    }
  }

  /** A `Chart.yaml` without a `dependencies:` line has no local dependency. */
  lemma NoHeadingNoChartDependencies(chartYaml: string)
    requires forall i :: 0 <= i < |Lines(chartYaml)| ==> TrimSpace(Lines(chartYaml)[i]) != "dependencies:"
    ensures ChartDependencies(chartYaml) == []
  {
    forall i | 0 <= i < |Lines(chartYaml)| ensures Kinds(Lines(chartYaml))[i] != Heading {
      NotHeadingAt(Lines(chartYaml), i);
    }
    NoHeadingNoDependencies(Kinds(Lines(chartYaml)));
  }

  /** `repository:` lines that come before the `dependencies:` line are ignored. */
  lemma RepositoriesBeforeHeadingIgnored(before: seq<string>, rest: seq<string>)
    requires forall i :: 0 <= i < |before| ==> TrimSpace(before[i]) != "dependencies:"
    ensures LocalDependencies(Kinds(before + rest), BeforeDependencies)
            == LocalDependencies(Kinds(rest), BeforeDependencies)
  {
    forall i | 0 <= i < |before| ensures Kinds(before)[i] != Heading {
      NotHeadingAt(before, i);
    }
    NoHeadingNoDependencies(Kinds(before));
    KindsConcat(before, rest);
    ScanConcat(Kinds(before), Kinds(rest), BeforeDependencies);
  }

  lemma {:induction false} KindsConcat(a: seq<string>, b: seq<string>)
    ensures Kinds(a + b) == Kinds(a) + Kinds(b)
  {
    if |a| > 0 {
      KindsConcat(a[1..], b);
      assert (a + b)[1..] == a[1..] + b;
    } else {
      assert a + b == b;
    }
  }

  /** Every dependency directory comes from a `repository:` line whose value, with
      quotes stripped, is `file://` followed by that directory. */
  lemma {:induction false} DependencyFromRepositoryLine(kinds: seq<LineKind>, state: ScanState, k: int)
    requires 0 <= k < |LocalDependencies(kinds, state)|
    ensures exists i :: 0 <= i < |kinds| && kinds[i] == LocalRepo(LocalDependencies(kinds, state)[k])
  {
    var e := Emitted(state, kinds[0]);
    if k >= |e| {
      var rest := kinds[1..];
      DependencyFromRepositoryLine(rest, Step(state, kinds[0]), k - |e|);
      var i :| 0 <= i < |rest| && rest[i] == LocalRepo(LocalDependencies(rest, Step(state, kinds[0]))[k - |e|]);
      assert kinds[i + 1] == rest[i];
    }
  }

  /** `repository: "file://<dir>"` (or with single quotes) names `<dir>`: the quotes
      around the value are stripped before the `file://` prefix is looked for. */
  lemma QuotedLocalRepository(dir: string, quote: char)
    requires quote == '"' || quote == '\''
    requires dir == [] || dir[|dir| - 1] !in {'"', '\''}
    ensures LocalRepository("repository: " + [quote] + "file://" + dir + [quote]) == Some(dir)
  {
    var unquoted := "file://" + dir;
    var value := [quote] + unquoted + [quote];
    var trimmed := "repository: " + value;
    assert "repository: " + [quote] + "file://" + dir + [quote] == trimmed;
    assert TrimPrefix(trimmed, "repository:") == " " + value;
    TrimOneLeadingSpace(value);
    assert unquoted[0] == 'f';
    assert unquoted[|unquoted| - 1] !in {'"', '\''};
    TrimQuotes(unquoted, quote);
    assert TrimPrefix(unquoted, "file://") == dir;
  }

  lemma TrimOneLeadingSpace(value: string)
    requires |value| > 0 && value[0] !in AsciiSpace && value[|value| - 1] !in AsciiSpace
    ensures TrimSpace(" " + value) == value
  {
    var s := " " + value;
    assert s[0] in AsciiSpace && s[1..] == value;
    assert TrimLeft(s, AsciiSpace) == TrimLeft(value, AsciiSpace) == value;
    assert TrimRight(value, AsciiSpace) == value;
  }

  lemma TrimQuotes(unquoted: string, quote: char)
    requires quote in {'"', '\''}
    requires |unquoted| > 0 && unquoted[0] !in {'"', '\''} && unquoted[|unquoted| - 1] !in {'"', '\''}
    ensures Trim([quote] + unquoted + [quote], {'"', '\''}) == unquoted
  {
    var value := [quote] + unquoted + [quote];
    var quotes := {'"', '\''};
    assert value[0] in quotes && value[1..] == unquoted + [quote];
    assert TrimLeft(unquoted + [quote], quotes) == unquoted + [quote];
    assert TrimLeft(value, quotes) == unquoted + [quote];
    assert (unquoted + [quote])[..|unquoted|] == unquoted;
    assert TrimRight(unquoted, quotes) == unquoted;
    assert TrimRight(unquoted + [quote], quotes) == unquoted;
  }

  /** A line is classified as a local repository exactly when its trimmed form is a
      `repository:` line whose unquoted value starts with `file://`. */
  lemma LocalRepoLine(line: string, dir: string)
    ensures Classify(line) == LocalRepo(dir) <==>
      "repository:" <= TrimSpace(line) && LocalRepository(TrimSpace(line)) == Some(dir)
  {
  }
}
