/**
 * `colorizeDiff` (main.go): wraps each line of a unified diff in an ANSI colour
 * chosen by the line's first byte, leaving every other line untouched.
 */
module Colorize {

  import opened GoStrings

  const Escape: char := '\U{1B}'
  const Red: string := [Escape] + "[31m"
  const Green: string := [Escape] + "[32m"
  const Cyan: string := [Escape] + "[36m"
  const Reset: string := [Escape] + "[0m"

  /** The rewrite applied to one line: file headers and hunk headers in cyan,
      removals in red, additions in green, everything else unchanged. */
  function ColorLine(line: string): string
  {
    if |line| == 0 then line
    else if line[0] == '-' then (if "---" <= line then Cyan else Red) + line + Reset
    else if line[0] == '+' then (if "+++" <= line then Cyan else Green) + line + Reset
    else if line[0] == '@' then Cyan + line + Reset
    else line
  }

  function ColorLines(lines: seq<string>): (r: seq<string>)
    ensures |r| == |lines|
    ensures forall i :: 0 <= i < |lines| ==> r[i] == ColorLine(lines[i])
  {
    seq(|lines|, i requires 0 <= i < |lines| => ColorLine(lines[i]))
  }

  /** What `colorizeDiff` returns for `diff`. */
  function Colorized(diff: string): string
  {
    Join(ColorLines(Lines(diff)), '\n')
  }

  /** `colorizeDiff`: the lines are rewritten in place in an array, then re-joined. */
  method ColorizeDiff(diff: string) returns (r: string)
    ensures r == Colorized(diff)
    ensures |Lines(r)| == |Lines(diff)|
    ensures forall i :: 0 <= i < |Lines(diff)| ==> Lines(r)[i] == ColorLine(Lines(diff)[i])
  {
    var parts := Lines(diff);
    var lines := new string[|parts|](i requires 0 <= i < |parts| => parts[i]);
    var i := 0;
    while i < lines.Length
      invariant 0 <= i <= lines.Length
      invariant forall k :: 0 <= k < i ==> lines[k] == ColorLine(parts[k])
      invariant forall k :: i <= k < lines.Length ==> lines[k] == parts[k]
    {
      var line := lines[i];
      if |line| != 0 {
        if line[0] == '-' {
          if "---" <= line {
            lines[i] := Cyan + line + Reset;
          } else {
            lines[i] := Red + line + Reset;
          }
        } else if line[0] == '+' {
          if "+++" <= line {
            lines[i] := Cyan + line + Reset;
          } else {
            lines[i] := Green + line + Reset;
          }
        } else if line[0] == '@' {
          lines[i] := Cyan + line + Reset;
        }
      }
      i := i + 1;
    }
    assert lines[..] == ColorLines(parts);
    r := Join(lines[..], '\n');
    ColorizedLines(diff);
  }

  /** Colouring never adds a line break, so a coloured line stays one line. */
  lemma ColorLineKeepsLine(line: string)
    requires '\n' !in line
    ensures '\n' !in ColorLine(line)
  {
    assert '\n' !in Red && '\n' !in Green && '\n' !in Cyan && '\n' !in Reset;
  }

  /** The coloured text has exactly the lines of the input, each one coloured. */
  lemma ColorizedLines(diff: string)
    ensures Lines(Colorized(diff)) == ColorLines(Lines(diff))
  {
    var colored := ColorLines(Lines(diff));
    forall k | 0 <= k < |colored| ensures '\n' !in colored[k] {
      ColorLineKeepsLine(Lines(diff)[k]);
    }
    SplitJoin(colored, '\n');
  }

  /** Which colour a line gets, and which lines are left as they are. */
  lemma ColorLineCases(line: string)
    ensures ColorLine(line) == line <==> |line| == 0 || line[0] !in {'-', '+', '@'}
    ensures ColorLine(line) == Cyan + line + Reset <==> "---" <= line || "+++" <= line || "@" <= line
    ensures ColorLine(line) == Red + line + Reset <==> "-" <= line && !("---" <= line)
    ensures ColorLine(line) == Green + line + Reset <==> "+" <= line && !("+++" <= line)
  {
    if |line| > 0 && line[0] in {'-', '+', '@'} {
      assert |ColorLine(line)| > |line|;
      assert [line[0]] <= line;
      Wrapped(Red, line);
      Wrapped(Green, line);
      Wrapped(Cyan, line);
    }
  }

  /** The parts of a line wrapped in colour `color`. */
  lemma Wrapped(color: string, line: string)
    requires color in {Red, Green, Cyan}
    ensures |color + line + Reset| == |Cyan| + |line| + |Reset|
    ensures (color + line + Reset)[..|Cyan|] == color
    ensures (color + line + Reset)[|Cyan| + |line|..] == Reset
    ensures (color + line + Reset)[|Cyan|..|Cyan| + |line|] == line
    ensures (color + line + Reset)[3] == color[3]
    ensures Red[3] != Green[3] && Red[3] != Cyan[3] && Green[3] != Cyan[3]
  {
  }

  /** A line carries a colour prefix and the reset suffix. */
  predicate IsColored(line: string)
  {
    |line| >= |Cyan| + |Reset|
    && line[..|Cyan|] in {Red, Green, Cyan}
    && line[|line| - |Reset|..] == Reset
  }

  /** Removes the colour prefix and the reset suffix, if the line has them. */
  function Uncolor(line: string): string
  {
    if IsColored(line) then line[|Cyan|..|line| - |Reset|] else line
  }

  /** Stripping the colour recovers the original line, for every line that does not
      itself start with an escape byte. */
  lemma UncolorColorLine(line: string)
    requires |line| == 0 || line[0] != Escape
    ensures Uncolor(ColorLine(line)) == line
  {
    if ColorLine(line) != line {
      if line[0] == '-' {
        Wrapped(if "---" <= line then Cyan else Red, line);
      } else if line[0] == '+' {
        Wrapped(if "+++" <= line then Cyan else Green, line);
      } else {
        Wrapped(Cyan, line);
      }
    }
  }

  /** The text a reader sees once the colours are ignored. */
  function UncoloredText(text: string): string
  {
    var lines := Lines(text);
    Join(seq(|lines|, i requires 0 <= i < |lines| => Uncolor(lines[i])), '\n')
  }

  /** Colouring a diff and then ignoring the colours gives back the diff, as long as
      no line of the diff starts with an escape byte. */
  lemma UncolorColorized(diff: string)
    requires forall i :: 0 <= i < |Lines(diff)| ==> Lines(diff)[i] == [] || Lines(diff)[i][0] != Escape
    ensures UncoloredText(Colorized(diff)) == diff
  {
    var lines := Lines(diff);
    ColorizedLines(diff);
    var colored := Lines(Colorized(diff));
    var stripped := seq(|colored|, i requires 0 <= i < |colored| => Uncolor(colored[i]));
    forall k | 0 <= k < |lines| ensures stripped[k] == lines[k] {
      UncolorColorLine(lines[k]);
    }
    assert stripped == lines;
    JoinSplit(diff, '\n');
  }
}
