/**
 * The few functions of Go's `strings` package that the tool relies on, with Go's
 * semantics. A Dafny `char` stands for one byte of a Go string; every separator
 * and cut set used by the tool is ASCII, so splitting on chars and on bytes agree.
 */
module GoStrings {

  /** Index of the first occurrence of `c` in `s`. */
  function IndexOf(s: string, c: char): (i: nat)
    requires c in s
    ensures i < |s| && s[i] == c && c !in s[..i]
  {
    if s[0] == c then 0
    else
      var j := IndexOf(s[1..], c);
      assert s[..j + 1] == [s[0]] + s[1..][..j];
      j + 1
  }

  /** `strings.Split(s, string(sep))` for a one-byte separator: never empty, and
      `Split("", sep) == [""]`. */
  function Split(s: string, sep: char): (parts: seq<string>)
    ensures |parts| >= 1
    ensures forall k :: 0 <= k < |parts| ==> sep !in parts[k]
    decreases |s|
  {
    if sep in s then
      var i := IndexOf(s, sep);
      [s[..i]] + Split(s[i + 1..], sep)
    else
      [s]
  }

  /** The lines of a text, as `strings.Split(text, "\n")` gives them. */
  function Lines(text: string): seq<string>
  {
    Split(text, '\n')
  }

  /** `strings.Join(parts, string(sep))`. */
  function Join(parts: seq<string>, sep: char): string
  {
    if |parts| == 0 then ""
    else if |parts| == 1 then parts[0]
    else parts[0] + [sep] + Join(parts[1..], sep)
  }

  /** Number of occurrences of `c` in `s`. */
  function Count(s: string, c: char): nat
  {
    if |s| == 0 then 0 else (if s[0] == c then 1 else 0) + Count(s[1..], c)
  }

  /** Joining the pieces of a split with the same separator gives back the text. */
  lemma {:induction false} JoinSplit(s: string, sep: char)
    ensures Join(Split(s, sep), sep) == s
    decreases |s|
  {
    if sep in s {
      var i := IndexOf(s, sep);
      var parts := Split(s, sep);
      JoinSplit(s[i + 1..], sep);
      assert parts[1..] == Split(s[i + 1..], sep);
      assert Join(parts, sep) == s[..i] + [sep] + Join(parts[1..], sep);
      assert s == s[..i] + [sep] + s[i + 1..];
    }
  }

  /** Splitting stops at the first separator. */
  lemma SplitAtFirst(a: string, b: string, sep: char)
    requires sep !in a
    ensures Split(a + [sep] + b, sep) == [a] + Split(b, sep)
  {
    var s := a + [sep] + b;
    var i := IndexOf(s, sep);
    assert s[|a|] == sep;
    assert i == |a|;
    assert s[..i] == a;
    assert s[i + 1..] == b;
  }

  /** Splitting a join of separator-free pieces gives back the pieces. */
  lemma {:induction false} SplitJoin(parts: seq<string>, sep: char)
    requires |parts| >= 1
    requires forall k :: 0 <= k < |parts| ==> sep !in parts[k]
    ensures Split(Join(parts, sep), sep) == parts
  {
    if |parts| > 1 {
      SplitJoin(parts[1..], sep);
      assert Join(parts, sep) == parts[0] + [sep] + Join(parts[1..], sep);
      SplitAtFirst(parts[0], Join(parts[1..], sep), sep);
      assert parts == [parts[0]] + parts[1..];
    }
  }

  /** Joining one more piece adds a separator and the piece (just the piece when
      there was none). */
  lemma {:induction false} JoinAppend(parts: seq<string>, part: string, sep: char)
    ensures Join(parts + [part], sep) == if |parts| == 0 then part else Join(parts, sep) + [sep] + part
  {
    if |parts| > 1 {
      JoinAppend(parts[1..], part, sep);
      assert (parts + [part])[1..] == parts[1..] + [part];
    } else if |parts| == 1 {
      assert (parts + [part])[1..] == [part];
    }
  }

  /** A split has one more piece than the text has separators. */
  lemma {:induction false} SplitCount(s: string, sep: char)
    ensures |Split(s, sep)| == Count(s, sep) + 1
    decreases |s|
  {
    if sep in s {
      var i := IndexOf(s, sep);
      SplitCount(s[i + 1..], sep);
      CountAppend(s[..i], [sep] + s[i + 1..], sep);
      CountAppend([sep], s[i + 1..], sep);
      CountAbsent(s[..i], sep);
      assert s == s[..i] + ([sep] + s[i + 1..]);
    } else {
      CountAbsent(s, sep);
    }
  }

  lemma {:induction false} CountAppend(a: string, b: string, c: char)
    ensures Count(a + b, c) == Count(a, c) + Count(b, c)
  {
    if |a| > 0 {
      CountAppend(a[1..], b, c);
      assert (a + b)[1..] == a[1..] + b;
    } else {
      assert a + b == b;
    }
  }

  lemma {:induction false} CountAbsent(s: string, c: char)
    requires c !in s
    ensures Count(s, c) == 0
  {
    if |s| > 0 {
      CountAbsent(s[1..], c);
    }
  }

  /** `strings.TrimLeft(s, cutset)`: drops the longest prefix made of cut-set bytes. */
  function TrimLeft(s: string, cutset: set<char>): string
  {
    if |s| > 0 && s[0] in cutset then TrimLeft(s[1..], cutset) else s
  }

  /** TrimLeft keeps a suffix that starts outside the cut set, and everything it drops is in the cut set. */
  lemma {:induction false} TrimLeftDrops(s: string, cutset: set<char>)
    ensures var r := TrimLeft(s, cutset);
      && |r| <= |s| && r == s[|s| - |r|..]
      && (r == [] || r[0] !in cutset)
      && forall k :: 0 <= k < |s| - |r| ==> s[k] in cutset
  {
    if |s| > 0 && s[0] in cutset {
      TrimLeftDrops(s[1..], cutset);
    }
  }

  /** `strings.TrimRight(s, cutset)`: drops the longest suffix made of cut-set bytes. */
  function TrimRight(s: string, cutset: set<char>): string
  {
    if |s| > 0 && s[|s| - 1] in cutset then TrimRight(s[..|s| - 1], cutset) else s
  }

  /** TrimRight keeps a prefix that ends outside the cut set, and everything it drops is in the cut set. */
  lemma {:induction false} TrimRightDrops(s: string, cutset: set<char>)
    ensures var r := TrimRight(s, cutset);
      && |r| <= |s| && r == s[..|r|]
      && (r == [] || r[|r| - 1] !in cutset)
      && forall k :: |r| <= k < |s| ==> s[k] in cutset
  {
    if |s| > 0 && s[|s| - 1] in cutset {
      TrimRightDrops(s[..|s| - 1], cutset);
    }
  }

  /** `strings.Trim(s, cutset)`. */
  function Trim(s: string, cutset: set<char>): string
  {
    TrimRight(TrimLeft(s, cutset), cutset)
  }

  /** The ASCII white space that `strings.TrimSpace` removes. */
  const AsciiSpace: set<char> := {' ', '\t', '\n', '\U{B}', '\U{C}', '\r'}

  /** `strings.TrimSpace`, restricted to ASCII white space. */
  function TrimSpace(s: string): string
  {
    Trim(s, AsciiSpace)
  }

  /** `strings.TrimPrefix(s, prefix)`. */
  function TrimPrefix(s: string, prefix: string): (r: string)
    ensures prefix <= s ==> prefix + r == s
    ensures !(prefix <= s) ==> r == s
  {
    if prefix <= s then s[|prefix|..] else s
  }
}
