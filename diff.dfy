/**
 * The pure helpers of `src/didi/diff.py`: the `git diff` argument list,
 * the normalisation that hides blob identifiers, the parsing of git's
 * line-per-item output, and the parsing of `base..tip` range specifiers.
 */
module Diff {
  import opened Wrappers
  import opened PyText
  import opened Seqs

  // ----- build_diff_cmd -----

  /** Python truthiness of an optional string argument: `None` and `''` are false. */
  predicate Given(o: Option<string>) {
    o.Some? && o.value != ""
  }

  /** 1 for a truthy option, 0 otherwise. */
  function Bit(b: bool): nat {
    if b then 1 else 0
  }

  /** Position of a flag in the fixed order `--follow`, `-w`, `-M<n>`, `-C<n>`. */
  function FlagRank(flag: string): nat {
    if flag == "--follow" then 0
    else if flag == "-w" then 1
    else if StartsWith(flag, "-M") then 2
    else 3
  }

  /** The optional `git diff` flags for the given options, one per truthy option. */
  function DiffFlags(ignoreWhitespace: bool, findRenames: Option<string>, findCopies: Option<string>,
                     follow: bool): seq<string>
  {
    (if follow then ["--follow"] else [])
    + (if ignoreWhitespace then ["-w"] else [])
    + (if Given(findRenames) then ["-M" + findRenames.value] else [])
    + (if Given(findCopies) then ["-C" + findCopies.value] else [])
  }

  /** `build_diff_cmd`: appends the flags of the truthy options to `git diff`. */
  method BuildDiffCmd(ignoreWhitespace: bool, findRenames: Option<string>, findCopies: Option<string>,
                      follow: bool) returns (cmd: seq<string>)
    ensures cmd == ["git", "diff"] + DiffFlags(ignoreWhitespace, findRenames, findCopies, follow)
  {
    cmd := ["git", "diff"];
    if follow {
      cmd := cmd + ["--follow"];
    }
    assert cmd == ["git", "diff"] + DiffFlags(false, None, None, follow);
    if ignoreWhitespace {
      cmd := cmd + ["-w"];
    }
    assert cmd == ["git", "diff"] + DiffFlags(ignoreWhitespace, None, None, follow);
    if Given(findRenames) {
      cmd := cmd + ["-M" + findRenames.value];
    }
    assert cmd == ["git", "diff"] + DiffFlags(ignoreWhitespace, findRenames, None, follow);
    if Given(findCopies) {
      cmd := cmd + ["-C" + findCopies.value];
    }
  }

  /**
   * Which flags are present, and how many: one per truthy option, the
   * thresholds written after `-M`/`-C`; an empty threshold adds nothing.
   */
  lemma DiffFlagsPresence(ignoreWhitespace: bool, findRenames: Option<string>, findCopies: Option<string>, follow: bool)
    ensures var flags := DiffFlags(ignoreWhitespace, findRenames, findCopies, follow);
      && |flags| == Bit(follow) + Bit(ignoreWhitespace) + Bit(Given(findRenames)) + Bit(Given(findCopies))
      && ("--follow" in flags <==> follow)
      && ("-w" in flags <==> ignoreWhitespace)
      && ("-M" + findRenames.GetOr("") in flags <==> Given(findRenames))
      && ("-C" + findCopies.GetOr("") in flags <==> Given(findCopies))
  {
    FlagTexts(findRenames.GetOr(""), findCopies.GetOr(""));
  }

  /** The flags come in the fixed order `--follow`, `-w`, `-M`, `-C`. */
  lemma DiffFlagsOrder(ignoreWhitespace: bool, findRenames: Option<string>, findCopies: Option<string>, follow: bool)
    ensures RanksIncrease(DiffFlags(ignoreWhitespace, findRenames, findCopies, follow))
  {
    var flags := DiffFlags(ignoreWhitespace, findRenames, findCopies, follow);
    var f := if follow then ["--follow"] else [];
    var w := if ignoreWhitespace then ["-w"] else [];
    var m := if Given(findRenames) then ["-M" + findRenames.value] else [];
    var c := if Given(findCopies) then ["-C" + findCopies.value] else [];
    FlagRanks(findRenames.GetOr(""), findCopies.GetOr(""));
    assert forall k :: 0 <= k < |m| ==> FlagRank(m[k]) == 2;
    assert forall k :: 0 <= k < |c| ==> FlagRank(c[k]) == 3;
    RankedGroups(f, w, m, c);
    assert f + w + m + c == flags;
  }

  /** At most one flag of each rank 0, 1, 2, 3, in that order, gives increasing ranks. */
  lemma RankedGroups(f: seq<string>, w: seq<string>, m: seq<string>, c: seq<string>)
    requires |f| <= 1 && forall k :: 0 <= k < |f| ==> FlagRank(f[k]) == 0
    requires |w| <= 1 && forall k :: 0 <= k < |w| ==> FlagRank(w[k]) == 1
    requires |m| <= 1 && forall k :: 0 <= k < |m| ==> FlagRank(m[k]) == 2
    requires |c| <= 1 && forall k :: 0 <= k < |c| ==> FlagRank(c[k]) == 3
    ensures RanksIncrease(f + w + m + c)
  {
    AppendRanked(f, w, 1);
    AppendRanked(f + w, m, 2);
    AppendRanked(f + w + m, c, 3);
  }

  /** The flag ranks strictly increase along the list. */
  predicate RanksIncrease(flags: seq<string>) {
    forall i, j :: 0 <= i < j < |flags| ==> FlagRank(flags[i]) < FlagRank(flags[j])
  }

  /** Putting at most one flag of rank `r` after flags ranked below `r` keeps the ranks increasing. */
  lemma AppendRanked(prefix: seq<string>, back: seq<string>, r: nat)
    requires RanksIncrease(prefix) && forall k :: 0 <= k < |prefix| ==> FlagRank(prefix[k]) < r
    requires |back| <= 1 && forall k :: 0 <= k < |back| ==> FlagRank(back[k]) == r
    ensures RanksIncrease(prefix + back)
    ensures forall k :: 0 <= k < |prefix + back| ==> FlagRank((prefix + back)[k]) <= r
  {
  }

  /** The rank of each flag text. */
  lemma FlagRanks(renames: string, copies: string)
    ensures FlagRank("--follow") == 0 && FlagRank("-w") == 1
    ensures renames != "" ==> FlagRank("-M" + renames) == 2
    ensures copies != "" ==> FlagRank("-C" + copies) == 3
  {
    var m, c := "-M" + renames, "-C" + copies;
    assert m[1] == 'M' && c[1] == 'C';
    assert "--follow"[1] == '-' && "-w"[1] == 'w';
    assert !StartsWith(c, "-M") by { assert c[..2] != "-M" by { assert c[..2][1] == 'C'; } }
    assert StartsWith(m, "-M") by { assert m[..2] == "-M"; }
    assert !StartsWith("--follow", "-M") by { assert "--follow"[..2][1] == '-'; }
  }

  /** The four flag texts are pairwise different. */
  lemma FlagTexts(renames: string, copies: string)
    ensures "-M" + renames != "--follow" && "-M" + renames != "-w" && "-M" + renames != "-C" + copies
    ensures "-C" + copies != "--follow" && "-C" + copies != "-w"
  {
    var m, c := "-M" + renames, "-C" + copies;
    assert m[1] == 'M' && c[1] == 'C';
    assert "--follow"[1] == '-' && "-w"[1] == 'w';
  }

  /** The tests of `build_diff_cmd`: the exact argument lists for each option alone and all together. */
  method BuildDiffCmdExamples() {
    var basic := BuildDiffCmd(false, None, None, false);
    assert basic == ["git", "diff"];
    assert "-M" + "50" == "-M50" && "-C" + "60" == "-C60";
    var all := BuildDiffCmd(true, Some("50"), Some("60"), true);
    assert all == ["git", "diff", "--follow", "-w", "-M50", "-C60"];
    var renames := BuildDiffCmd(false, Some("50"), None, false);
    assert renames == ["git", "diff", "-M50"];
    var empty := BuildDiffCmd(false, Some(""), Some(""), false);
    assert empty == ["git", "diff"];
  }

  // ----- normalize_diff -----

  /** The `index <sha>..<sha> <mode>` header line of a git patch. */
  const IndexPrefix := "index "
  /** What every index line becomes. */
  const IndexPlaceholder := "index ..."

  predicate IsIndexLine(line: string) {
    StartsWith(line, IndexPrefix)
  }

  /** One line of the patch after normalisation. */
  function NormalizeLine(line: string): string {
    if IsIndexLine(line) then IndexPlaceholder else line
  }

  /** The line list `normalize_diff` builds. */
  function NormalizeLines(lines: seq<string>): seq<string> {
    if lines == [] then []
    else NormalizeLines(lines[..|lines| - 1]) + [NormalizeLine(lines[|lines| - 1])]
  }

  /** `normalize_diff(diff_text)` as a value: split into lines, normalise each, join with `\n`. */
  function Normalize(diffText: string): string {
    Join(NormalizeLines(SplitLines(diffText)), "\n")
  }

  /** `normalize_diff`: walks the lines, replacing each index line by the placeholder. */
  method NormalizeDiff(diffText: string) returns (normalized: string)
    ensures normalized == Normalize(diffText)
  {
    var input := SplitLines(diffText);
    var lines: seq<string> := [];
    var i := 0;
    while i < |input|
      invariant 0 <= i <= |input|
      invariant lines == NormalizeLines(input[..i])
    {
      if StartsWith(input[i], "index ") {
        lines := lines + ["index ..."];
      } else {
        lines := lines + [input[i]];
      }
      assert input[..i + 1][..i] == input[..i];
      i := i + 1;
    }
    assert input[..i] == input;
    normalized := Join(lines, "\n");
  }

  /**
   * Normalisation maps the lines one to one: line `i` becomes the placeholder
   * if it is an index line and stays as it is otherwise.
   */
  lemma {:induction false} NormalizeLinesAt(lines: seq<string>)
    ensures |NormalizeLines(lines)| == |lines|
    ensures forall i :: 0 <= i < |lines| ==>
              NormalizeLines(lines)[i] == if IsIndexLine(lines[i]) then IndexPlaceholder else lines[i]
  {
    if lines != [] {
      NormalizeLinesAt(lines[..|lines| - 1]);
    }
  }

  /**
   * Two line lists normalise alike exactly when they have the same length and
   * differ only at positions where both lines are index lines.
   */
  lemma NormalizeLinesEqualIff(a: seq<string>, b: seq<string>)
    ensures NormalizeLines(a) == NormalizeLines(b) <==> EqualUpToIndexLines(a, b)
  {
    if NormalizeLines(a) == NormalizeLines(b) {
      NormalizeLinesEqualOnlyUpToIndexLines(a, b);
    }
    if EqualUpToIndexLines(a, b) {
      NormalizeLinesEqualUpToIndexLines(a, b);
    }
  }

  /** Same length, and at each position the same line or two index lines. */
  predicate EqualUpToIndexLines(a: seq<string>, b: seq<string>) {
    |a| == |b| && forall i :: 0 <= i < |a| ==> a[i] == b[i] || (IsIndexLine(a[i]) && IsIndexLine(b[i]))
  }

  /** Lines equal up to index lines normalise alike. */
  lemma NormalizeLinesEqualUpToIndexLines(a: seq<string>, b: seq<string>)
    requires EqualUpToIndexLines(a, b)
    ensures NormalizeLines(a) == NormalizeLines(b)
  {
    NormalizeLinesAt(a);
    NormalizeLinesAt(b);
  }

  /** Lines that normalise alike are equal up to index lines. */
  lemma NormalizeLinesEqualOnlyUpToIndexLines(a: seq<string>, b: seq<string>)
    requires NormalizeLines(a) == NormalizeLines(b)
    ensures EqualUpToIndexLines(a, b)
  {
    NormalizeLinesAt(a);
    NormalizeLinesAt(b);
    assert IsIndexLine(IndexPlaceholder) by { assert IndexPlaceholder[..|IndexPrefix|] == IndexPrefix; }
    forall i | 0 <= i < |a|
      ensures a[i] == b[i] || (IsIndexLine(a[i]) && IsIndexLine(b[i]))
    {
      assert NormalizeLines(a)[i] == NormalizeLines(b)[i];
    }
  }

  /**
   * Identifier blindness: texts whose lines differ only on lines that are index
   * lines in both normalise to the same text.
   */
  lemma NormalizeIgnoresIndexLines(text1: string, text2: string)
    requires EqualUpToIndexLines(SplitLines(text1), SplitLines(text2))
    ensures Normalize(text1) == Normalize(text2)
  {
    NormalizeLinesEqualUpToIndexLines(SplitLines(text1), SplitLines(text2));
  }

  /** Normalising a normalised line list changes nothing. */
  lemma NormalizeLinesIdempotent(lines: seq<string>)
    ensures NormalizeLines(NormalizeLines(lines)) == NormalizeLines(lines)
  {
    NormalizeLinesAt(lines);
    NormalizeLinesAt(NormalizeLines(lines));
    assert IsIndexLine(IndexPlaceholder) by { assert IndexPlaceholder[..|IndexPrefix|] == IndexPrefix; }
  }

  /**
   * Normalising a normalised text changes nothing, provided the text does not
   * end in an empty line (`\n`.join drops that line's terminator).
   */
  lemma NormalizeIdempotent(diffText: string)
    requires var lines := SplitLines(diffText); lines != [] ==> lines[|lines| - 1] != ""
    ensures Normalize(Normalize(diffText)) == Normalize(diffText)
  {
    var lines := SplitLines(diffText);
    var normal := NormalizeLines(lines);
    SplitLinesHaveNoBoundary(diffText);
    NormalizeLinesAt(lines);
    forall i | 0 <= i < |normal|
      ensures NoLineBoundary(normal[i]) && (lines[i] != "" ==> normal[i] != "")
    {
      NormalizeLineShape(lines[i]);
    }
    SplitLinesOfJoin(normal);
    NormalizeLinesIdempotent(lines);
  }

  /** Normalising a line keeps it free of line boundaries and non-empty. */
  lemma NormalizeLineShape(line: string)
    requires NoLineBoundary(line)
    ensures NoLineBoundary(NormalizeLine(line))
    ensures line != "" ==> NormalizeLine(line) != ""
  {
    if IsIndexLine(line) {
      assert NoLineBoundary(IndexPlaceholder) by {
        forall k | 0 <= k < |IndexPlaceholder| ensures !IsLineBoundary(IndexPlaceholder[k]) {
        }
      }
    }
  }

  /**
   * With an empty last line the text shrinks on each pass: `line + "\n\n"`
   * becomes `line + "\n"` and then `line`.
   */
  lemma NormalizeDropsBlankLastLine(line: string)
    requires NoLineBoundary(line) && !IsIndexLine(line)
    ensures Normalize(line + "\n\n") == line + "\n"
    ensures Normalize(line + "\n") == line
    ensures Normalize(Normalize(line + "\n\n")) != Normalize(line + "\n\n")
  {
    assert line + "\n\n" == line + "\n" + "\n";
    assert line + "\n" == line + "\n" + "";
    assert "\n" == "" + "\n" + "";
    SplitLinesStep(line, "\n");
    SplitLinesStep(line, "");
    SplitLinesStep("", "");
    assert SplitLines(line + "\n\n") == [line, ""];
    assert SplitLines(line + "\n") == [line];
    assert NormalizeLine(line) == line && NormalizeLine("") == "";
    assert NormalizeLines([line]) == [line] by { assert [line][..0] == []; }
    assert NormalizeLines([line, ""]) == [line, ""] by { assert [line, ""][..1] == [line]; }
    assert Join([line, ""], "\n") == line + "\n" + "" by { assert [line, ""][1..] == [""]; }
  }

  /**
   * A text that uses only `\n` between lines, has no index line and does not
   * end in `\n` comes back unchanged.
   */
  lemma NormalizeKeepsPlainText(diffText: string)
    requires forall j :: 0 <= j < |diffText| ==> IsLineBoundary(diffText[j]) ==> diffText[j] == '\n'
    requires diffText != [] ==> diffText[|diffText| - 1] != '\n'
    requires forall i :: 0 <= i < |SplitLines(diffText)| ==> !IsIndexLine(SplitLines(diffText)[i])
    ensures Normalize(diffText) == diffText
  {
    var lines := SplitLines(diffText);
    NormalizeLinesAt(lines);
    assert NormalizeLines(lines) == lines;
    JoinOfSplitLines(diffText);
  }

  /**
   * `splitlines` also breaks at `\r\n`, so a line normalises the same whether
   * it ends in `\r\n` or `\n`, and its terminator is dropped.
   */
  lemma NormalizeUnifiesLineEndings(line: string)
    requires NoLineBoundary(line)
    ensures Normalize(line + "\r\n") == Normalize(line + "\n") == NormalizeLine(line)
  {
    var crlf, lf := line + "\r\n", line + "\n";
    assert crlf[..|line|] == line && lf[..|line|] == line;
    LineEndIs(crlf, |line|);
    LineEndIs(lf, |line|);
    assert crlf[|line| + 2..] == [] && lf[|line| + 1..] == [];
    assert SplitLines(crlf) == [line];
    assert SplitLines(lf) == [line];
    assert NormalizeLines([line]) == [NormalizeLine(line)];
  }

  // ----- the output parsing of get_changed_files and get_commits -----

  /** `[f for f in stdout.strip().split('\n') if f]`: the non-empty lines of the stripped output. */
  function OutputLines(stdout: string): (lines: seq<string>)
    ensures forall i :: 0 <= i < |lines| ==> lines[i] != "" && '\n' !in lines[i]
  {
    var parts := SplitOn(Strip(stdout), '\n');
    SplitOnPartsHaveNoSeparator(Strip(stdout), '\n');
    Filter(parts, (line: string) => line != "")
  }

  /**
   * `get_changed_files` once git has run: a failing git ends the process (`None`),
   * otherwise the listed paths.
   */
  function ChangedFiles(returnCode: int, stdout: string): (files: Option<seq<string>>)
    ensures files.None? <==> returnCode != 0
    ensures files.Some? ==> forall i :: 0 <= i < |files.value| ==> files.value[i] != ""
  {
    if returnCode != 0 then None else Some(OutputLines(stdout))
  }

  /** `get_commits` once git has run: a failing git gives no commits. */
  function Commits(returnCode: int, stdout: string): (commits: seq<string>)
    ensures returnCode != 0 ==> commits == []
    ensures forall i :: 0 <= i < |commits| ==> commits[i] != ""
  {
    if returnCode != 0 then [] else OutputLines(stdout)
  }

  /**
   * The parsed lines are the non-empty pieces of the stripped output, in order:
   * every non-empty piece is kept as often as it occurs, and no empty one.
   */
  lemma OutputLinesSpec(stdout: string)
    ensures IsSubsequence(OutputLines(stdout), SplitOn(Strip(stdout), '\n'))
    ensures forall p :: p != "" ==> multiset(OutputLines(stdout))[p] == multiset(SplitOn(Strip(stdout), '\n'))[p]
    ensures multiset(OutputLines(stdout))[""] == 0
    ensures Join(SplitOn(Strip(stdout), '\n'), "\n") == Strip(stdout)
  {
    var parts := SplitOn(Strip(stdout), '\n');
    var keep := (line: string) => line != "";
    FilterIsSubsequence(parts, keep);
    forall p ensures multiset(OutputLines(stdout))[p] == if p != "" then multiset(parts)[p] else 0 {
      FilterMultiset(parts, keep, p);
    }
    JoinOfSplitOn(Strip(stdout), '\n');
  }

  /**
   * Reading back a listing that git printed one path per line gives the paths:
   * for non-empty paths without line breaks, not starting or ending the listing
   * with whitespace, parsing `"\n".join(paths) + "\n"` returns `paths`.
   */
  lemma OutputLinesOfListing(paths: seq<string>)
    requires forall i :: 0 <= i < |paths| ==> paths[i] != "" && '\n' !in paths[i]
    requires paths != [] ==> !IsSpace(paths[0][0]) && !IsSpace(paths[|paths| - 1][|paths[|paths| - 1]| - 1])
    ensures OutputLines(Join(paths, "\n") + "\n") == paths
  {
    var listing := Join(paths, "\n");
    JoinEnds(paths);
    if paths == [] {
      assert "\n"[1..] == "";
      assert Strip("\n") == "";
      assert SplitOn("", '\n') == [""];
      assert listing + "\n" == "\n";
      assert OutputLines("\n") == Filter([""], (line: string) => line != "");
      assert [""][..0] == [];
      assert Filter([""], (line: string) => line != "") == Filter([], (line: string) => line != "") + [];
    } else {
      assert StripStart(listing + "\n") == listing + "\n";
      assert (listing + "\n")[..|listing + "\n"| - 1] == listing;
      assert StripEnd(listing + "\n") == StripEnd(listing);
      assert Strip(listing + "\n") == listing;
      SplitOnOfJoin(paths, '\n');
      FilterKeepsAll(paths, (line: string) => line != "");
    }
  }

  /** A `\n`-joined listing of non-empty paths starts with the first path's first character and ends with the last path's last. */
  lemma {:induction false} JoinEnds(paths: seq<string>)
    requires forall i :: 0 <= i < |paths| ==> paths[i] != ""
    ensures paths == [] ==> Join(paths, "\n") == ""
    ensures paths != [] ==> |Join(paths, "\n")| > 0 && Join(paths, "\n")[0] == paths[0][0]
    ensures paths != [] ==> Join(paths, "\n")[|Join(paths, "\n")| - 1] == paths[|paths| - 1][|paths[|paths| - 1]| - 1]
  {
    if |paths| > 1 {
      JoinEnds(paths[1..]);
    }
  }

  // ----- parse_refspec_bases and compute_upstream_range -----

  /** A comparison range `base..tip`. */
  datatype RangeSpec = RangeSpec(base: string, tip: string)

  /** `s` holds the range separator `..` somewhere. */
  predicate HasDots(s: string) {
    exists j :: 0 <= j < |s| - 1 && s[j] == '.' && s[j + 1] == '.'
  }

  /** A revision name git accepts in a range: no `..` inside and no trailing `.`. */
  predicate IsRevisionName(s: string) {
    !HasDots(s) && (s == [] || s[|s| - 1] != '.')
  }

  /** Index of the first `..` in `s`, or `|s|` if there is none. */
  function DotsAt(s: string): (k: nat)
    ensures k <= |s|
    ensures k < |s| ==> k + 1 < |s| && s[k] == '.' && s[k + 1] == '.'
    ensures forall j :: 0 <= j < k && j + 1 < |s| ==> !(s[j] == '.' && s[j + 1] == '.')
    ensures k == |s| ==> !HasDots(s)
  {
    if |s| < 2 then |s|
    else if s[0] == '.' && s[1] == '.' then 0
    else 1 + DotsAt(s[1..])
  }

  /**
   * Splits `spec` at its first `..`; a spec without `..` is not a range. The
   * halves put back together with `..` give the spec, and the base holds no `..`.
   */
  function ParseRangeSpec(spec: string): (r: Option<RangeSpec>)
    ensures r.None? <==> !HasDots(spec)
    ensures r.Some? ==> r.value.base + ".." + r.value.tip == spec && !HasDots(r.value.base)
  {
    var k := DotsAt(spec);
    if k == |spec| then None
    else
      assert spec == spec[..k] + ".." + spec[k + 2..];
      assert !HasDots(spec[..k]) by {
        forall j | 0 <= j < k - 1 ensures !(spec[..k][j] == '.' && spec[..k][j + 1] == '.') {
          assert spec[..k][j] == spec[j] && spec[..k][j + 1] == spec[j + 1];
        }
      }
      Some(RangeSpec(spec[..k], spec[k + 2..]))
  }

  /**
   * `parse_refspec_bases`: both ranges' bases and tips, or four empty strings if
   * either is not a range. Each range is given back by its base and tip.
   */
  function ParseRefspecBases(refspec1: string, refspec2: string): (r: (string, string, string, string))
    ensures HasDots(refspec1) && HasDots(refspec2) ==>
              r.0 + ".." + r.1 == refspec1 && r.2 + ".." + r.3 == refspec2 && !HasDots(r.0) && !HasDots(r.2)
    ensures !(HasDots(refspec1) && HasDots(refspec2)) ==> r == ("", "", "", "")
  {
    match (ParseRangeSpec(refspec1), ParseRangeSpec(refspec2))
    case (Some(r1), Some(r2)) => (r1.base, r1.tip, r2.base, r2.tip)
    case _ => ("", "", "", "")
  }

  /**
   * `compute_upstream_range`: `base1..base2`, or the empty string if either is
   * not a range; so it is empty exactly when a spec is not a range.
   */
  function ComputeUpstreamRange(refspec1: string, refspec2: string): (upstream: string)
    ensures upstream == "" <==> !(HasDots(refspec1) && HasDots(refspec2))
    ensures upstream != "" ==>
              upstream == ParseRefspecBases(refspec1, refspec2).0 + ".." + ParseRefspecBases(refspec1, refspec2).2
  {
    match (ParseRangeSpec(refspec1), ParseRangeSpec(refspec2))
    case (Some(r1), Some(r2)) => r1.base + ".." + r2.base
    case _ => ""
  }

  /**
   * The split at the first `..` also accepts an empty base or tip, and an
   * upstream range is formed from such halves.
   */
  lemma RangeSpecEmptyHalves()
    ensures ParseRangeSpec("..B") == Some(RangeSpec("", "B"))
    ensures ParseRangeSpec("A..") == Some(RangeSpec("A", ""))
    ensures ComputeUpstreamRange("A..", "..D") == "A.."
  {
    DotsAtIs("..B", 0);
    DotsAtIs("A..", 1);
    DotsAtIs("..D", 0);
    assert "..B"[2..] == "B" && "A.."[..1] == "A";
    assert "..D"[..0] == "" && "A.." == "A" + ".." + "";
  }

  /** The split at the first `..` reads `A...B` as base `A` and tip `.B`. */
  lemma RangeSpecThreeDots()
    ensures ParseRangeSpec("A...B") == Some(RangeSpec("A", ".B"))
  {
    DotsAtIs("A...B", 1);
    assert "A...B"[..1] == "A" && "A...B"[3..] == ".B";
  }

  /** `base..tip` parses back to `(base, tip)` when `base` is a revision name. */
  lemma ParseRangeSpecOfRange(base: string, tip: string)
    requires IsRevisionName(base)
    ensures ParseRangeSpec(base + ".." + tip) == Some(RangeSpec(base, tip))
  {
    var s := base + ".." + tip;
    DotsAtIs(s, |base|);
    assert s[..|base|] == base && s[|base| + 2..] == tip;
  }

  /** The first `..` of `base..tip` is the one after `base`. */
  lemma {:induction false} DotsAtIs(s: string, m: nat)
    requires m + 1 < |s| && s[m] == '.' && s[m + 1] == '.'
    requires forall j :: 0 <= j < m ==> !(s[j] == '.' && s[j + 1] == '.')
    ensures DotsAt(s) == m
  {
    if m > 0 {
      DotsAtIs(s[1..], m - 1);
    }
  }

  /** Two ranges give their bases and tips, and the upstream range joins the two bases. */
  lemma RefspecsOfRanges(base1: string, tip1: string, base2: string, tip2: string)
    requires IsRevisionName(base1) && IsRevisionName(base2)
    ensures ParseRefspecBases(base1 + ".." + tip1, base2 + ".." + tip2) == (base1, tip1, base2, tip2)
    ensures ComputeUpstreamRange(base1 + ".." + tip1, base2 + ".." + tip2) == base1 + ".." + base2
  {
    ParseRangeSpecOfRange(base1, tip1);
    ParseRangeSpecOfRange(base2, tip2);
  }

  /** If either spec is not a range, the bases are all empty and there is no upstream range. */
  lemma RefspecsWithoutRange(refspec1: string, refspec2: string)
    requires !HasDots(refspec1) || !HasDots(refspec2)
    ensures ParseRefspecBases(refspec1, refspec2) == ("", "", "", "")
    ensures ComputeUpstreamRange(refspec1, refspec2) == ""
  {
  }

  /** A name without any `.` is a revision name. */
  lemma DotFreeIsRevisionName(s: string)
    requires '.' !in s
    ensures IsRevisionName(s)
  {
    assert forall j :: 0 <= j < |s| ==> s[j] != '.';
  }

  /** The parsing cases of `tests/test_diff.py`. */
  lemma ParseRefspecBasesExamples()
    ensures ParseRefspecBases("A..B", "C..D") == ("A", "B", "C", "D")
    ensures ParseRefspecBases("A", "B") == ("", "", "", "")
  {
    assert "A..B" == "A" + ".." + "B" && "C..D" == "C" + ".." + "D";
    DotFreeIsRevisionName("A");
    DotFreeIsRevisionName("C");
    RefspecsOfRanges("A", "B", "C", "D");
    RefspecsWithoutRange("A", "B");
  }

  /** The upstream-range cases of `tests/test_diff.py`. */
  lemma ComputeUpstreamRangeExamples()
    ensures ComputeUpstreamRange("main..feature", "upstream/main..feature-rebased") == "main..upstream/main"
    ensures ComputeUpstreamRange("main", "feature") == ""
  {
    assert "main..feature" == "main" + ".." + "feature";
    assert "upstream/main..feature-rebased" == "upstream/main" + ".." + "feature-rebased";
    assert "main..upstream/main" == "main" + ".." + "upstream/main";
    DotFreeIsRevisionName("main");
    DotFreeIsRevisionName("upstream/main");
    RefspecsOfRanges("main", "feature", "upstream/main", "feature-rebased");
    RefspecsWithoutRange("main", "feature");
  }
}
