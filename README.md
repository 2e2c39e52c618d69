# helm-git-diff in Dafny

`helm git-diff` is a Helm plugin that renders charts at two git references with
`helm template` and prints a unified diff of the manifests. Most of `main.go` calls
`git`, `helm` and `tar`. This project models the deterministic routines between
those calls. Each command's or file read's result becomes a parameter, and the
model proves what each routine computes.

- `GoStrings` (`strings.dfy`): the parts of Go's `strings` package the tool uses.
  - `Split` and `Join` on a one-byte separator, with `Split("") == [""]`.
  - `TrimSpace` (ASCII white space), `Trim` with a cut set, and `TrimPrefix`.
  - The round trips between `Split` and `Join`, and the piece count of a split.
- `Colorize` (`colorize.dfy`): `colorizeDiff`. The method rewrites the lines in
  place in an array.
  - Proved: the line count is kept, each line gets the colour its first byte selects,
    other lines are untouched, and stripping the colours gives back the diff when
    no line of the diff itself starts with an escape byte.
- `ChangedCharts` (`changed_charts.dfy`): `detectChangedCharts` after `git diff --name-only`.
  - The set of chart names is filled as a map, and its keys are listed in an
    unspecified order.
  - The method follows the code as written, which takes the second path component
    (see Findings). A lemma shows this is the intended chart directory whenever
    `--chart-dir` is a single component such as `charts`.
  - Under the default `--chart-dir .`, the prefix tested is `./`. `git diff
    --name-only` prints paths relative to the repository root without `./`, so no
    chart is detected unless a chart directory is named (`DefaultChartDirDetectsNothing`).
- `ChartYaml` (`chart_yaml.dfy`): the line scanners over `Chart.yaml`.
  - `isLibraryChart`, which stops at the first `type:` line.
  - `getChartPathsToExtract`, a two-state scan over the dependency list with an
    early `break`. It is proved against a functional scan (`LocalDependencies`)
    over classified lines.
- `Dependencies` (`dependencies.dfy`): the `areDependenciesUpToDate` /
  `buildDependencies` decision, over a snapshot of the chart directory.
- `HelmArgs` (`helm_args.dfy`): the `helm template` argument list. It is written
  twice in `main.go` with identical code, and once here.
- `Cli` (`cli.dfy`): the repeatable `--set` flag (`multiFlag`), `shouldUseColor`,
  and the `Config` fields that `diffChart` and `run` update and read.
  - This covers the `hasDifferences` flag, the colour choice for printed diffs and
    the exit status.

Conventions used throughout:

- A Dafny `char` stands for one byte of a Go string. Every separator and cut set in
  the tool is ASCII.
- `filepath.Join`, which also cleans its result, is the function parameter `join`.
- `filepath.IsAbs` is the Unix rule: the path starts with `/`.

## Model

| member | source | states |
|---|---|---|
| GoStrings.IndexOf | main.go:194 | the index of the first occurrence of the separator: it holds the separator and no earlier byte does |
| GoStrings.Split | main.go:287 | `strings.Split` never returns an empty list, and no piece contains the separator |
| GoStrings.JoinSplit | main.go:287-309 | joining the pieces of a split with the same separator gives back the text |
| GoStrings.SplitAtFirst | main.go:194-196 | splitting `a + sep + b`, where `a` has no separator, gives `a` and then the pieces of `b` |
| GoStrings.SplitJoin | main.go:309 | splitting a join of separator-free pieces gives back the pieces |
| GoStrings.JoinAppend | main.go:21 | joining one more piece adds a separator and the piece, or gives just the piece when the list was empty |
| GoStrings.SplitCount | main.go:352 | a split has one more piece than the text has separators |
| GoStrings.CountAppend | main.go:352 | separator counts add up over a concatenation |
| GoStrings.TrimLeftDrops | main.go:463 | `TrimLeft` keeps a suffix that is empty or starts outside the cut set, and drops only cut-set bytes |
| GoStrings.TrimRightDrops | main.go:463 | `TrimRight` keeps a prefix that is empty or ends outside the cut set, and drops only cut-set bytes |
| GoStrings.TrimPrefix | main.go:465 | with the prefix present, prefix + result is the input; without it, the input is unchanged |
| Colorize.ColorizeDiff | main.go:279-310 | the in-place array rewrite returns `Colorized(diff)`: the same number of lines, and line `i` is `ColorLine` of input line `i` |
| Colorize.ColorizedLines | main.go:287-309 | the lines of the coloured text are exactly the coloured lines of the input, so re-joining creates no extra line break |
| Colorize.ColorLineCases | main.go:289-307 | a line is unchanged iff it is empty or starts with none of `-`, `+`, `@`; it is cyan-wrapped iff it starts with `---`, `+++` or `@`; red-wrapped iff it starts with `-` but not `---`; green-wrapped iff it starts with `+` but not `+++` |
| Colorize.Wrapped | main.go:280-285 | a wrapped line is the colour prefix, the line and the reset suffix, and the three colours differ at byte 3 |
| Colorize.UncolorColorLine | main.go:292-307 | removing the colour prefix and the reset gives back the original line, unless the line itself starts with an escape byte |
| Colorize.UncolorColorized | main.go:279-310 | ignoring the colours of a coloured diff gives back the diff, when no line starts with an escape byte |
| ChangedCharts.DetectChangedCharts | main.go:185-207 | the result has no duplicates, and its elements are exactly the second `/`-component of each non-empty changed path under `ChartDir + "/"`, in any order |
| ChangedCharts.MapKeys | main.go:202-205 | listing a map's keys yields each key once and nothing else, in an unspecified order |
| ChangedCharts.ChartNamesMember | main.go:189-199 | a name is in the chart set iff some changed path records it |
| ChangedCharts.PrefixedPathHasTwoParts | main.go:193-196 | a path under `ChartDir + "/"` always splits into at least two parts, so the `len(parts) >= 2` guard never rejects one |
| ChangedCharts.NoChangedFilesNoCharts | main.go:185-191 | blank `git diff` output yields no chart (the single empty line is skipped) |
| ChangedCharts.SplitFirstPiece | main.go:194 | the first piece of a split is a prefix of the text, ended by the separator or by the end of the text |
| ChangedCharts.ChartUnder | main.go:193-197 | the corrected chart name: the `/`-free path component right after `ChartDir + "/"`; none iff the path is not under `ChartDir + "/"` |
| ChangedCharts.ChartOfSingleComponentDir | main.go:193-197 | for a one-component `ChartDir`, the second component as written is the chart right after `ChartDir` |
| ChangedCharts.ChartNamesAsIntended | main.go:189-199 | for a one-component `ChartDir`, the set of recorded names equals the set of directories right after `ChartDir` |
| ChangedCharts.DefaultChartDirDetectsNothing | main.go:72 | under the default chart directory `.`, no changed path that does not start with `./` (as `git diff --name-only` prints them) is recorded, so no chart is detected |
| ChangedCharts.NestedChartDirRecordsWrongName | main.go:194-196 | for `ChartDir = parent/sub`, the path `parent/sub/chart/...` is recorded as `sub`, while the chart right after `ChartDir` is `chart` |
| ChartYaml.IsLibraryChart | main.go:455-469 | a failed read is an error and means not a library; otherwise the result is true iff the first line whose trimmed form starts with `type:` has trimmed value exactly `library`; later `type:` lines are ignored and a file without one is not a library |
| ChartYaml.FirstTypeLineUnique | main.go:462-467 | the loop's first `type:` line is unique |
| ChartYaml.Kinds | main.go:482-485 | one classification per line |
| ChartYaml.KindAt | main.go:485-511 | line `i` is classified from its own trimmed text |
| ChartYaml.ScanLine | main.go:484-511 | one loop pass: its new `inDependencies` flag, its `break` and the directory it appends agree with the scan step `Step` and `Emitted` for that line |
| ChartYaml.GetChartPathsToExtract | main.go:472-515 | the result starts with `chartPath`; it is exactly `[chartPath]` when `git show` fails; otherwise it is `chartPath` followed by `join(chartPath, dir)` for each local dependency directory that the line scan finds, in file order |
| ChartYaml.ResolvedAppend | main.go:508 | appending a directory appends its joined path |
| ChartYaml.ScanAdvance | main.go:483-511 | one loop pass keeps "found so far" followed by "still to find" equal to the whole scan; after the `break` nothing is left to find |
| ChartYaml.ScanOneLine | main.go:483-511 | scanning from line `i` is reading line `i`, then scanning from line `i + 1` |
| ChartYaml.StoppedScanEmitsNothing | main.go:493-495 | after the `break`, no later line adds a path |
| ChartYaml.ScanConcat | main.go:483-511 | the scan of two blocks of lines is the scan of the first, then the scan of the second from the state the first left |
| ChartYaml.StopIsFinal | main.go:493-495 | once the list has ended, later lines, even a second `dependencies:` section, add nothing |
| ChartYaml.NoHeadingNoDependencies | main.go:488-491 | lines without a `dependencies:` heading add nothing and leave the scan before the list |
| ChartYaml.NoHeadingNoChartDependencies | main.go:488-497 | a `Chart.yaml` without a `dependencies:` line yields no dependency path |
| ChartYaml.RepositoriesBeforeHeadingIgnored | main.go:488-497 | `repository:` lines before the first `dependencies:` line are ignored |
| ChartYaml.KindsConcat | main.go:482-485 | the classification of two blocks of lines is their classifications, one after the other |
| ChartYaml.DependencyFromRepositoryLine | main.go:497-508 | every extracted directory comes from a line classified as a `repository:` line whose unquoted value starts with `file://` |
| ChartYaml.QuotedLocalRepository | main.go:497-502 | `repository: "file://<dir>"`, with double or single quotes, yields `<dir>`: the quotes are stripped before the `file://` prefix is looked for |
| ChartYaml.TrimOneLeadingSpace | main.go:498 | trimming white space from `" " + value` gives `value` when `value` neither starts nor ends with white space |
| ChartYaml.TrimQuotes | main.go:499 | `strings.Trim(v, "\"'")` removes one quote on each side of a value that neither starts nor ends with a quote |
| ChartYaml.LocalRepoLine | main.go:497-502 | a line is a local-repository line exactly when its trimmed form starts with `repository:` and its unquoted value starts with `file://` |
| Dependencies.AreDependenciesUpToDate | main.go:540-587 | up to date iff Chart.yaml, Chart.lock and charts/ all exist, Chart.yaml is not newer than Chart.lock, Chart.yaml can be read, and, when a trimmed line is exactly `dependencies:`, charts/ can be read and has at least one entry |
| Dependencies.BuildDependencies | main.go:517-538 | `helm dependency build` runs iff Chart.yaml does not report "not exist", the build is not skipped, and the chart is not up to date |
| Dependencies.EditedChartYamlIsStale | main.go:559-561 | a Chart.yaml modified after Chart.lock is never up to date |
| Dependencies.LocalDependencyNeedsVendoredCharts | main.go:568-586 | a chart whose dependency list names a `file://` dependency is not up to date while charts/ is empty or unreadable |
| Dependencies.NoDependenciesIgnoresCharts | main.go:568-579 | without a `dependencies:` line, the contents of charts/ do not affect the decision |
| HelmArgs.BuildHelmArgs | main.go:350-362 | the appending loops produce `Args`: `template release-name <chart>`, a `-f` pair per values entry, then a `--set` pair per override |
| HelmArgs.ArgsLayout | main.go:429-441 | the argument list has length 3 + 2·(values entries) + 2·(overrides); it starts with `template`, `release-name`, the chart path; then `-f` and values path `k` at positions 3+2k and 4+2k; then `--set` and override `k` |
| HelmArgs.PairsAt | main.go:357 | flag-and-value pairs take two positions each, flag first, in input order |
| HelmArgs.PairsAppend | main.go:361 | appending a pair to the argument list extends the flag-and-value list by that pair |
| HelmArgs.ValuesEntryCount | main.go:351-352 | an empty `--values` gives no `-f` pair; a non-empty one gives one entry per comma plus one |
| Cli.MultiFlag.Set | main.go:24-27 | appends the value as given, never fails, and `String()` then ends with the value, after a comma unless it is the first |
| Cli.MultiFlag.constructor | main.go:68 | a fresh flag holds no value |
| Cli.StringSplitsBack | main.go:20-22 | when no value contains a comma, splitting `String()` on commas gives back the values |
| Cli.ShouldUseColor | main.go:99-107 | colour iff `--no-color` is off, `NO_COLOR` is empty and standard output is a terminal |
| Cli.FirstFailure | main.go:165-169 | the index of the first failing chart (or the number of charts): every chart before it succeeds |
| Cli.ExitCode | main.go:47-54 | the exit status is 0 or 1, and it is 0 iff `run` succeeds and not both `--fail-on-diff` and a difference |
| Cli.Config.constructor | main.go:94 | `useColor` is `shouldUseColor` of the flags and environment; no difference has been seen |
| Cli.Config.DiffChart | main.go:250-274 | a failure is reported as such; `hasDifferences` becomes set exactly when the manifests differ and is never cleared; the diff is printed only then, colourised iff `useColor` |
| Cli.Config.Run | main.go:165-173 | charts are compared in order up to the first failure; `hasDifferences` records whether any chart before it differed; the exit status is 1 on failure or when `FailOnDiff && hasDifferences` |

## Left out

- Process execution: `git rev-parse`, `git diff`, `git show`, `git archive`, `tar x`, `helm template` and `helm dependency build`. Their outputs are parameters, and a failure is `None` or a `Failed` outcome.
- File-system access: `os.Stat`, `os.ReadFile`, `os.ReadDir`, `os.MkdirTemp`, `os.RemoveAll` and `os.Getwd`.
  - These are replaced by a snapshot (`ChartDirFacts`): existence, integer modification times, the text and the entry count.
  - The separate `Stat` calls of `buildDependencies` and `areDependenciesUpToDate` are read from one snapshot.
- Unified-diff generation by go-difflib (main.go:257-268): its output is the `unifiedDiff` of a `Manifests` outcome, and its error path is not modelled.
- Flag parsing with Go's `flag` package (main.go:65-97) and `os.Exit`. The exit status is a returned value (`Cli.ExitCode`).
- `getWorkdirChartPath` and `detectChartContext` (main.go:117-147, 312-338): they depend on the working directory, the git root and `filepath.Rel`/`Dir`/`Base`.
- `filepath.Join` and `filepath.Clean`: an abstract `join` parameter, so nothing is proved about path cleaning.
- `isTerminal` (main.go:109-115) and the `NO_COLOR` lookup: both are inputs to `Cli.ShouldUseColor`.
- The printed messages ("no changes", "skipped (library chart)", "Detected changed charts", "No chart changes detected") and the error texts.
- The discovery step of `run` (main.go:150-163): `Cli.Config.Run` receives the outcome of each chart after `detectChangedCharts` or the command line has chosen the charts.
- `Config` carries only `FailOnDiff`, `useColor` and `hasDifferences`. The other fields are arguments of the operations that read them.
- `strings.TrimSpace` removes only ASCII white space here. Go also removes Unicode white space.
- main_test.go: its tests run real `git` and `helm` commands.
- ChartYaml.ScanLine: this method is the body of the `getChartPathsToExtract` loop, taken out as a method of its own. The `paths = append(...)` stays in the loop.

## Findings

| source | as written | input that shows it | evidently intended | confidence | as-written member | corrected member |
|---|---|---|---|---|---|---|
| main.go:194-196 | the chart name is `strings.Split(file, "/")[1]`, the second component of the whole path | `--chart-dir deploy/charts` and the changed file `deploy/charts/app/Chart.yaml` record the chart `charts` instead of `app` | the component right after `ChartDir + "/"` (`app`); the two agree when `ChartDir` is one component, such as `charts` | not executed | ChangedCharts.NestedChartDirRecordsWrongName | ChangedCharts.ChartUnder |
