/**
 * The command-level state of main.go: the repeatable `--set` flag, the colour
 * decision, and the `Config` fields that `diffChart` and `run` update and read
 * (`hasDifferences`, `useColor`, `FailOnDiff`). Rendering the two manifests and the
 * unified diff between them happen outside this model; their results arrive as a
 * `ChartOutcome` per chart.
 */
module Cli {

  import opened Wrappers
  import opened GoStrings
  import opened Colorize

  // ---------------------------------------------------------------- multiFlag

  /** `multiFlag`: the values of a repeatable flag, in the order given. */
  class MultiFlag {
    var values: seq<string>

    constructor()
      ensures values == []
    {
      values := [];
    }

    /** `Set` appends the value as given (commas are not split here) and never fails. */
    method Set(value: string) returns (err: Option<string>)
      modifies this
      ensures values == old(values) + [value]
      ensures String() == if |old(values)| == 0 then value else old(String()) + "," + value
      ensures err.None?
    {
      JoinAppend(values, value, ',');
      values := values + [value];
      err := None;
    }

    /** `String` joins the values with commas. */
    function String(): string
      reads this
    {
      Join(values, ',')
    }
  }

  /** When no value holds a comma, `String()` determines the values: splitting it on
      commas gives them back. */
  lemma StringSplitsBack(flag: MultiFlag)
    requires |flag.values| >= 1
    requires forall k :: 0 <= k < |flag.values| ==> ',' !in flag.values[k]
    ensures Split(flag.String(), ',') == flag.values
  {
    SplitJoin(flag.values, ',');
  }

  // ---------------------------------------------------------------- colour

  /** `shouldUseColor`: colour only when `--no-color` is off, `NO_COLOR` is unset or
      empty, and standard output is a terminal (the `isTerminal` result). */
  function ShouldUseColor(noColor: bool, noColorEnv: string, stdoutIsTerminal: bool): (useColor: bool)
    ensures useColor <==> !noColor && noColorEnv == "" && stdoutIsTerminal
  {
    if noColor then false
    else if noColorEnv != "" then false
    else stdoutIsTerminal
  }

  // ---------------------------------------------------------------- diffChart / run

  /** What happened to one chart before the comparison in `diffChart`. */
  datatype ChartOutcome =
    | LibrarySkipped                                                 // library chart: nothing rendered
    | Manifests(base: string, current: string, unifiedDiff: string)  // both renders; the diff difflib gives
    | Failed(reason: string)                                         // any error while preparing or rendering

  /** The two rendered manifests differ. */
  predicate Differs(outcome: ChartOutcome)
  {
    outcome.Manifests? && outcome.base != outcome.current
  }

  /** Index of the first failing chart, or the number of charts when none fails. */
  function FirstFailure(outcomes: seq<ChartOutcome>): (n: nat)
    ensures n <= |outcomes|
    ensures n < |outcomes| ==> outcomes[n].Failed?
    ensures forall k :: 0 <= k < n ==> !outcomes[k].Failed?
  {
    if |outcomes| == 0 then 0
    else if outcomes[0].Failed? then 0
    else 1 + FirstFailure(outcomes[1..])
  }

  /** The process exit status: 1 when `run` returns an error (`main`), 1 when
      `--fail-on-diff` is set and a chart differed, 0 otherwise. */
  function ExitCode(runFailed: bool, failOnDiff: bool, hasDifferences: bool): (code: int)
    ensures code == 0 || code == 1
    ensures code == 0 <==> !runFailed && !(failOnDiff && hasDifferences)
  {
    if runFailed then 1
    else if failOnDiff && hasDifferences then 1
    else 0
  }

  /** The parts of `Config` that the comparison reads and writes. */
  class Config {
    const failOnDiff: bool
    const useColor: bool
    var hasDifferences: bool

    /** `parseFlags`: `useColor` comes from `shouldUseColor`; no difference seen yet. */
    constructor(failOnDiff: bool, noColor: bool, noColorEnv: string, stdoutIsTerminal: bool)
      ensures this.failOnDiff == failOnDiff
      ensures useColor == ShouldUseColor(noColor, noColorEnv, stdoutIsTerminal)
      ensures !hasDifferences
    {
      this.failOnDiff := failOnDiff;
      useColor := ShouldUseColor(noColor, noColorEnv, stdoutIsTerminal);
      hasDifferences := false;
    }

    /** The text `diffChart` prints for a unified diff: colourised when colour is on. */
    function Shown(unifiedDiff: string): string
      reads this
    {
      if useColor then Colorized(unifiedDiff) else unifiedDiff
    }

    /** The comparison step of `diffChart`: equal manifests print "no changes" and
        leave the flag alone; differing ones set `hasDifferences` and print the diff.
        Returns whether the chart failed and the diff text printed, if any. */
    method DiffChart(outcome: ChartOutcome) returns (failed: bool, printed: Option<string>)
      modifies this
      ensures failed <==> outcome.Failed?
      ensures hasDifferences == (old(hasDifferences) || Differs(outcome))
      ensures printed == if Differs(outcome) then Some(Shown(outcome.unifiedDiff)) else None
    {
      failed, printed := false, None;
      match outcome {
        case Failed(_) =>
          failed := true;
        case LibrarySkipped =>
        case Manifests(base, current, unifiedDiff) =>
          if base != current {
            hasDifferences := true;
            if useColor {
              var text := ColorizeDiff(unifiedDiff);
              printed := Some(text);
            } else {
              printed := Some(unifiedDiff);
            }
          }
      }
    }

    /** The chart loop of `run` and the exit decision after it: charts are compared
        in order until the first failure, which ends the run with an error. */
    method Run(outcomes: seq<ChartOutcome>) returns (runFailed: bool, exitCode: int)
      modifies this
      ensures runFailed <==> FirstFailure(outcomes) < |outcomes|
      ensures hasDifferences == (old(hasDifferences) || exists k :: 0 <= k < FirstFailure(outcomes) && Differs(outcomes[k]))
      ensures exitCode == ExitCode(runFailed, failOnDiff, hasDifferences)
    {
      runFailed := false;
      var n := FirstFailure(outcomes);
      for i := 0 to |outcomes|
        invariant i <= n
        invariant hasDifferences == (old(hasDifferences) || exists k :: 0 <= k < i && Differs(outcomes[k]))
      {
        var failed, _ := DiffChart(outcomes[i]);
        if failed {
          runFailed := true;
          break;
        }
      }
      exitCode := ExitCode(runFailed, failOnDiff, hasDifferences);
    }
  }
}
