/**
 * The Python `str` built-ins the tool relies on, with Python's semantics:
 * `startswith`, `splitlines`, `split` on one character, `strip` and `join`.
 */
module PyText {

  /** `s.startswith(prefix)`. */
  predicate StartsWith(s: string, prefix: string) {
    |prefix| <= |s| && s[..|prefix|] == prefix
  }

  /** The characters at which `str.splitlines` breaks a line (`\r\n` counts as one break). */
  predicate IsLineBoundary(c: char) {
    c == '\n' || c == '\r' || c == '\U{0b}' || c == '\U{0c}' || c == '\U{1c}' || c == '\U{1d}'
    || c == '\U{1e}' || c == '\U{85}' || c == '\U{2028}' || c == '\U{2029}'
  }

  /** `c.isspace()`: the characters `str.strip()` removes. */
  predicate IsSpace(c: char) {
    c == ' ' || c == '\t' || c == '\n' || c == '\r' || c == '\U{0b}' || c == '\U{0c}'
    || c == '\U{1c}' || c == '\U{1d}' || c == '\U{1e}' || c == '\U{1f}' || c == '\U{85}'
    || c == '\U{a0}' || c == '\U{1680}' || ('\U{2000}' <= c <= '\U{200a}')
    || c == '\U{2028}' || c == '\U{2029}' || c == '\U{202f}' || c == '\U{205f}' || c == '\U{3000}'
  }

  /** A line as `splitlines` produces it: no boundary character inside. */
  predicate NoLineBoundary(line: string) {
    forall j :: 0 <= j < |line| ==> !IsLineBoundary(line[j])
  }

  /** Index of the first line boundary in `s`, or `|s|` if there is none. */
  function LineEnd(s: string): (k: nat)
    ensures k <= |s|
    ensures NoLineBoundary(s[..k])
    ensures k < |s| ==> IsLineBoundary(s[k])
  {
    if s == [] || IsLineBoundary(s[0]) then 0
    else
      var k := 1 + LineEnd(s[1..]);
      assert s[..k] == [s[0]] + s[1..][..k - 1];
      k
  }

  /** `s.splitlines()`: the lines of `s` without their terminators; a final terminator opens no new line. */
  function SplitLines(s: string): (lines: seq<string>)
    ensures lines == [] <==> s == []
    decreases |s|
  {
    if s == [] then []
    else
      var k := LineEnd(s);
      if k == |s| then [s]
      else
        var next := if s[k] == '\r' && k + 1 < |s| && s[k + 1] == '\n' then k + 2 else k + 1;
        [s[..k]] + SplitLines(s[next..])
  }

  /** `sep.join(parts)`. */
  function Join(parts: seq<string>, sep: string): string {
    if |parts| == 0 then ""
    else if |parts| == 1 then parts[0]
    else parts[0] + sep + Join(parts[1..], sep)
  }

  /** Index of the first `c` in `s`, or `|s|` if there is none. */
  function IndexOf(s: string, c: char): (k: nat)
    ensures k <= |s|
    ensures c !in s[..k]
    ensures k < |s| ==> s[k] == c
  {
    if s == [] || s[0] == c then 0
    else
      var k := 1 + IndexOf(s[1..], c);
      assert s[..k] == [s[0]] + s[1..][..k - 1];
      k
  }

  /** `s.split(sep)` for a one-character separator: always at least one part. */
  function SplitOn(s: string, sep: char): (parts: seq<string>)
    ensures |parts| >= 1
    decreases |s|
  {
    var k := IndexOf(s, sep);
    if k == |s| then [s] else [s[..k]] + SplitOn(s[k + 1..], sep)
  }

  /** `s.lstrip()`. */
  function StripStart(s: string): string {
    if s != [] && IsSpace(s[0]) then StripStart(s[1..]) else s
  }

  /** `s.rstrip()`. */
  function StripEnd(s: string): string {
    if s != [] && IsSpace(s[|s| - 1]) then StripEnd(s[..|s| - 1]) else s
  }

  /** `s.strip()`. */
  function Strip(s: string): string {
    StripEnd(StripStart(s))
  }

  // ----- Lemmas -----

  /** No line that `splitlines` returns contains a line boundary. */
  lemma {:induction false} SplitLinesHaveNoBoundary(s: string)
    ensures forall i :: 0 <= i < |SplitLines(s)| ==> NoLineBoundary(SplitLines(s)[i])
    decreases |s|
  {
    if s != [] {
      var k := LineEnd(s);
      if k < |s| {
        var next := if s[k] == '\r' && k + 1 < |s| && s[k + 1] == '\n' then k + 2 else k + 1;
        SplitLinesHaveNoBoundary(s[next..]);
      }
    }
  }

  /**
   * Joining boundary-free lines with `\n` and splitting them again gives the lines back,
   * unless the last line is empty (the final `\n` then opens no line).
   */
  lemma {:induction false} SplitLinesOfJoin(lines: seq<string>)
    requires forall i :: 0 <= i < |lines| ==> NoLineBoundary(lines[i])
    requires lines != [] ==> lines[|lines| - 1] != ""
    ensures SplitLines(Join(lines, "\n")) == lines
  {
    if |lines| == 1 {
      var s := lines[0];
      assert LineEnd(s) == |s|;
    } else if |lines| > 1 {
      var rest := Join(lines[1..], "\n");
      var s := lines[0] + "\n" + rest;
      assert s == Join(lines, "\n");
      var k := LineEnd(s);
      assert s[|lines[0]|] == '\n';
      assert s[..|lines[0]|] == lines[0];
      LineEndIs(s, |lines[0]|);
      assert s[..k] == lines[0];
      assert s[k + 1..] == rest;
      SplitLinesOfJoin(lines[1..]);
    }
  }

  /**
   * A text whose only line boundaries are `\n` and that does not end with one
   * is rebuilt exactly by joining its lines with `\n`.
   */
  lemma {:induction false} JoinOfSplitLines(s: string)
    requires forall j :: 0 <= j < |s| ==> IsLineBoundary(s[j]) ==> s[j] == '\n'
    requires s != [] ==> s[|s| - 1] != '\n'
    ensures Join(SplitLines(s), "\n") == s
    decreases |s|
  {
    if s != [] {
      var k := LineEnd(s);
      if k < |s| {
        assert s[k] == '\n';
        var rest := s[k + 1..];
        assert rest != [];
        assert rest[|rest| - 1] == s[|s| - 1];
        JoinOfSplitLines(rest);
        assert SplitLines(s) == [s[..k]] + SplitLines(rest);
        assert s == s[..k] + "\n" + rest;
      }
    }
  }

  /** Splitting on `c` and joining with `c` gives the text back. */
  lemma {:induction false} JoinOfSplitOn(s: string, c: char)
    ensures Join(SplitOn(s, c), [c]) == s
    decreases |s|
  {
    var k := IndexOf(s, c);
    if k < |s| {
      JoinOfSplitOn(s[k + 1..], c);
      assert s == s[..k] + [c] + s[k + 1..];
    }
  }

  /** No part of a split holds the separator. */
  lemma {:induction false} SplitOnPartsHaveNoSeparator(s: string, c: char)
    ensures forall i :: 0 <= i < |SplitOn(s, c)| ==> c !in SplitOn(s, c)[i]
    decreases |s|
  {
    var k := IndexOf(s, c);
    if k < |s| {
      SplitOnPartsHaveNoSeparator(s[k + 1..], c);
    }
  }

  /** Splitting on `c` recovers parts that do not contain `c`. */
  lemma {:induction false} SplitOnOfJoin(parts: seq<string>, c: char)
    requires parts != []
    requires forall i :: 0 <= i < |parts| ==> c !in parts[i]
    ensures SplitOn(Join(parts, [c]), c) == parts
  {
    if |parts| == 1 {
      assert IndexOf(parts[0], c) == |parts[0]|;
    } else {
      var rest := Join(parts[1..], [c]);
      var s := parts[0] + [c] + rest;
      assert s == Join(parts, [c]);
      var k := IndexOf(s, c);
      assert s[|parts[0]|] == c;
      assert s[..|parts[0]|] == parts[0];
      IndexOfIs(s, c, |parts[0]|);
      assert s[..k] == parts[0];
      assert s[k + 1..] == rest;
      SplitOnOfJoin(parts[1..], c);
    }
  }

  /** The first line boundary is where the text first has one. */
  lemma {:induction false} LineEndIs(s: string, m: nat)
    requires m <= |s| && NoLineBoundary(s[..m])
    requires m < |s| ==> IsLineBoundary(s[m])
    ensures LineEnd(s) == m
  {
    if m > 0 {
      assert s[..m][0] == s[0];
      assert s[1..][..m - 1] == s[..m][1..];
      LineEndIs(s[1..], m - 1);
    }
  }

  /** A line ended by `\n` is split off as the first line. */
  lemma SplitLinesStep(line: string, rest: string)
    requires NoLineBoundary(line)
    ensures SplitLines(line + "\n" + rest) == [line] + SplitLines(rest)
  {
    var s := line + "\n" + rest;
    assert s[..|line|] == line && s[|line|] == '\n';
    LineEndIs(s, |line|);
    assert s[|line| + 1..] == rest;
  }

  /** The first `c` is where the text first has one. */
  lemma {:induction false} IndexOfIs(s: string, c: char, m: nat)
    requires m <= |s| && c !in s[..m]
    requires m < |s| ==> s[m] == c
    ensures IndexOf(s, c) == m
  {
    if m > 0 {
      assert s[..m][0] == s[0];
      assert s[1..][..m - 1] == s[..m][1..];
      IndexOfIs(s[1..], c, m - 1);
    }
  }

  /** `strip` leaves neither end on a whitespace character. */
  lemma {:induction false} StripHasNoSpaceAtEnds(s: string)
    ensures var r := Strip(s); r != [] ==> !IsSpace(r[0]) && !IsSpace(r[|r| - 1])
  {
    StripStartResult(s);
    StripEndResult(StripStart(s));
  }

  /** `lstrip` removes a whitespace prefix and stops at the first other character. */
  lemma {:induction false} StripStartResult(s: string)
    ensures exists k :: 0 <= k <= |s| && StripStart(s) == s[k..]
    ensures StripStart(s) != [] ==> !IsSpace(StripStart(s)[0])
  {
    if s != [] && IsSpace(s[0]) {
      StripStartResult(s[1..]);
      var k :| 0 <= k <= |s[1..]| && StripStart(s[1..]) == s[1..][k..];
      assert StripStart(s) == s[k + 1..];
    } else {
      assert StripStart(s) == s[0..];
    }
  }

  /** `rstrip` removes a whitespace suffix and stops at the last other character. */
  lemma {:induction false} StripEndResult(s: string)
    ensures exists k :: 0 <= k <= |s| && StripEnd(s) == s[..k]
    ensures var r := StripEnd(s); r != [] ==> !IsSpace(r[|r| - 1])
  {
    if s != [] && IsSpace(s[|s| - 1]) {
      StripEndResult(s[..|s| - 1]);
      var k :| 0 <= k <= |s| - 1 && StripEnd(s[..|s| - 1]) == s[..|s| - 1][..k];
      assert StripEnd(s) == s[..k];
    } else {
      assert StripEnd(s) == s[..|s|];
    }
  }
}
