/**
 * The `helm template` argument list that `renderChartFromWorkdir` and
 * `renderChartAtRef` build (main.go), written once: the two functions build it with
 * the same code, the first for the working-tree chart, the second for the chart
 * extracted from `git archive`. The working directory and `filepath.Join` (which
 * also cleans its result) are parameters.
 */
module HelmArgs {

  import opened GoStrings

  /** `filepath.IsAbs` on Unix: the path starts with `/`. */
  predicate IsAbs(path: string)
  {
    "/" <= path
  }

  /** One `--values` entry as handed to helm: trimmed, and resolved against the
      working directory unless it is absolute. */
  function ValuesPath(entry: string, cwd: string, join: (string, string) -> string): string
  {
    var path := TrimSpace(entry);
    if IsAbs(path) then path else join(cwd, path)
  }

  /** The comma-separated entries of `--values`; none when the flag is empty. */
  function ValuesEntries(valuesFiles: string): seq<string>
  {
    if valuesFiles == "" then [] else Split(valuesFiles, ',')
  }

  /** The values paths of a list of entries, in order. */
  function ValuesPaths(entries: seq<string>, cwd: string, join: (string, string) -> string): (paths: seq<string>)
    ensures |paths| == |entries|
    ensures forall k :: 0 <= k < |entries| ==> paths[k] == ValuesPath(entries[k], cwd, join)
  {
    seq(|entries|, k requires 0 <= k < |entries| => ValuesPath(entries[k], cwd, join))
  }

  /** `flag v0 flag v1 ...`: one flag-and-value pair per value, in order. */
  function Pairs(flag: string, values: seq<string>): seq<string>
  {
    if |values| == 0 then [] else [flag, values[0]] + Pairs(flag, values[1..])
  }

  /** The whole argument list for `helm template`. */
  function Args(chartPath: string, valuesFiles: string, setValues: seq<string>,
                cwd: string, join: (string, string) -> string): seq<string>
  {
    ["template", "release-name", chartPath]
      + Pairs("-f", ValuesPaths(ValuesEntries(valuesFiles), cwd, join))
      + Pairs("--set", setValues)
  }

  /** The argument-building loops of `renderChartFromWorkdir` / `renderChartAtRef`. */
  method BuildHelmArgs(chartPath: string, valuesFiles: string, setValues: seq<string>,
                       cwd: string, join: (string, string) -> string)
    returns (args: seq<string>)
    ensures args == Args(chartPath, valuesFiles, setValues, cwd, join)
  {
    args := ["template", "release-name", chartPath];
    ghost var head := args;
    ghost var entries := ValuesEntries(valuesFiles);
    if valuesFiles != "" {
      var parts := Split(valuesFiles, ',');
      for i := 0 to |parts|
        invariant args == head + Pairs("-f", ValuesPaths(parts[..i], cwd, join))
      {
        var valuesPath := TrimSpace(parts[i]);
        if !IsAbs(valuesPath) {
          valuesPath := join(cwd, valuesPath);
        }
        ValuesPathsAppend(parts, i, cwd, join);
        PairsAppend("-f", ValuesPaths(parts[..i], cwd, join), valuesPath);
        args := args + ["-f", valuesPath];
      }
      assert parts[..|parts|] == parts;
    } else {
      assert ValuesPaths(entries, cwd, join) == [];
    }
    ghost var values := args;
    assert values == head + Pairs("-f", ValuesPaths(entries, cwd, join));
    for i := 0 to |setValues|
      invariant args == values + Pairs("--set", setValues[..i])
    {
      PairsAppend("--set", setValues[..i], setValues[i]);
      assert setValues[..i + 1] == setValues[..i] + [setValues[i]];
      args := args + ["--set", setValues[i]];
    }
    assert setValues[..|setValues|] == setValues;
  }

  lemma ValuesPathsAppend(parts: seq<string>, i: int, cwd: string, join: (string, string) -> string)
    requires 0 <= i < |parts|
    ensures ValuesPaths(parts[..i + 1], cwd, join) == ValuesPaths(parts[..i], cwd, join) + [ValuesPath(parts[i], cwd, join)]
  {
  }

  lemma {:induction false} PairsAppend(flag: string, values: seq<string>, value: string)
    ensures Pairs(flag, values + [value]) == Pairs(flag, values) + [flag, value]
  {
    if |values| > 0 {
      PairsAppend(flag, values[1..], value);
      assert (values + [value])[1..] == values[1..] + [value];
    } else {
      assert values + [value] == [value];
    }
  }

  /** Pair `k` sits at positions `2k` and `2k + 1`. */
  lemma {:induction false} PairsAt(flag: string, values: seq<string>)
    ensures |Pairs(flag, values)| == 2 * |values|
    ensures forall k :: 0 <= k < |values| ==>
      Pairs(flag, values)[2 * k] == flag && Pairs(flag, values)[2 * k + 1] == values[k]
  {
    if |values| > 0 {
      PairsAt(flag, values[1..]);
      var rest := Pairs(flag, values[1..]);
      forall k | 0 < k < |values|
        ensures Pairs(flag, values)[2 * k] == flag && Pairs(flag, values)[2 * k + 1] == values[k]
      {
        assert Pairs(flag, values)[2 * k] == rest[2 * (k - 1)];
        assert Pairs(flag, values)[2 * k + 1] == rest[2 * (k - 1) + 1];
      }
    }
  }

  /** The shape of the argument list: `template release-name <chart>`, then a `-f`
      pair per values entry in input order, then a `--set` pair per override in
      input order, and nothing else. */
  lemma ArgsLayout(chartPath: string, valuesFiles: string, setValues: seq<string>,
                   cwd: string, join: (string, string) -> string)
    ensures var args := Args(chartPath, valuesFiles, setValues, cwd, join);
      var entries := ValuesEntries(valuesFiles);
      && |args| == 3 + 2 * |entries| + 2 * |setValues|
      && args[0] == "template" && args[1] == "release-name" && args[2] == chartPath
      && (forall k :: 0 <= k < |entries| ==>
            args[3 + 2 * k] == "-f" && args[4 + 2 * k] == ValuesPath(entries[k], cwd, join))
      && (forall k :: 0 <= k < |setValues| ==>
            args[3 + 2 * |entries| + 2 * k] == "--set" && args[4 + 2 * |entries| + 2 * k] == setValues[k])
  {
    var entries := ValuesEntries(valuesFiles);
    var paths := ValuesPaths(entries, cwd, join);
    PairsAt("-f", paths);
    PairsAt("--set", setValues);
    var args := Args(chartPath, valuesFiles, setValues, cwd, join);
    var valuesPairs := Pairs("-f", paths);
    var setPairs := Pairs("--set", setValues);
    assert args == ["template", "release-name", chartPath] + valuesPairs + setPairs;
    forall k | 0 <= k < |entries|
      ensures args[3 + 2 * k] == "-f" && args[4 + 2 * k] == ValuesPath(entries[k], cwd, join)
    {
      assert args[3 + 2 * k] == valuesPairs[2 * k];
      assert args[4 + 2 * k] == valuesPairs[2 * k + 1];
    }
    forall k | 0 <= k < |setValues|
      ensures args[3 + 2 * |entries| + 2 * k] == "--set" && args[4 + 2 * |entries| + 2 * k] == setValues[k]
    {
      assert args[3 + 2 * |entries| + 2 * k] == setPairs[2 * k];
      assert args[4 + 2 * |entries| + 2 * k] == setPairs[2 * k + 1];
    }
  }

  /** A non-empty `--values` flag gives one `-f` pair per comma plus one; an empty
      flag gives none. */
  lemma ValuesEntryCount(valuesFiles: string)
    ensures valuesFiles == "" ==> |ValuesEntries(valuesFiles)| == 0
    ensures valuesFiles != "" ==> |ValuesEntries(valuesFiles)| == Count(valuesFiles, ',') + 1
  {
    if valuesFiles != "" {
      SplitCount(valuesFiles, ',');
    }
  }
}
