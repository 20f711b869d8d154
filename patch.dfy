/**
 * The comparison pipeline of the `patch` command (`src/didi/cli.py`):
 * pairing the two ranges' changed files through the upstream rename map,
 * collecting the fetched patches, selecting the pairs whose normalised
 * patches differ, rendering their diffs of diffs, and the final report.
 */
module Patch {
  import opened Seqs
  import opened Diff
  import PyText
  import Colour

  /** One unit of comparison: a path in range 1 and the path it is compared with in range 2. */
  datatype FilePair = FilePair(oldPath: string, newPath: string)

  // ----- file-set reconciliation -----

  /** The name under which a range-1 path is looked for in range 2. */
  function MappedName(renameMap: map<string, string>, path: string): string {
    if path in renameMap then renameMap[path] else path
  }

  /** `files1_mapped`: each range-1 path with its range-2 name. */
  function MappedPairs(files1: seq<string>, renameMap: map<string, string>): seq<FilePair> {
    seq(|files1|, i requires 0 <= i < |files1| => FilePair(files1[i], MappedName(renameMap, files1[i])))
  }

  /** `files1_new_names`: the range-2 names the range-1 pairs already cover. */
  function NewNames(files1: seq<string>, renameMap: map<string, string>): set<string> {
    set f | f in files1 :: MappedName(renameMap, f)
  }

  /** Each path paired with itself. */
  function SelfPairs(paths: seq<string>): seq<FilePair> {
    seq(|paths|, i requires 0 <= i < |paths| => FilePair(paths[i], paths[i]))
  }

  /** The range-2 paths that no range-1 pair covers, in range-2 order. */
  function Unmatched(files2: seq<string>, newNames: set<string>): seq<string> {
    Filter(files2, (f: string) => f !in newNames)
  }

  /** `all_files_to_compare`: the range-1 pairs, then the uncovered range-2 paths paired with themselves. */
  function ComparisonPairs(files1: seq<string>, files2: seq<string>, renameMap: map<string, string>): seq<FilePair> {
    MappedPairs(files1, renameMap) + SelfPairs(Unmatched(files2, NewNames(files1, renameMap)))
  }

  /** The first components of a list of pairs. */
  function OldPaths(pairs: seq<FilePair>): seq<string> {
    seq(|pairs|, i requires 0 <= i < |pairs| => pairs[i].oldPath)
  }

  /** The reconciliation loops of `patch()`. */
  method ReconcileFiles(files1: seq<string>, files2: seq<string>, renameMap: map<string, string>)
    returns (allFilesToCompare: seq<FilePair>)
    ensures allFilesToCompare == ComparisonPairs(files1, files2, renameMap)
  {
    var files1Mapped := MapFiles(files1, renameMap);

    allFilesToCompare := [];
    for i := 0 to |files1Mapped|
      invariant allFilesToCompare == files1Mapped[..i]
    {
      allFilesToCompare := allFilesToCompare + [files1Mapped[i]];
    }
    assert files1Mapped[..|files1Mapped|] == files1Mapped;

    var files1NewNames := set p | p in files1Mapped :: p.newPath;
    assert files1NewNames == NewNames(files1, renameMap) by {
      forall f | f in files1 ensures MappedName(renameMap, f) in files1NewNames {
        var i :| 0 <= i < |files1| && files1[i] == f;
        assert files1Mapped[i] in files1Mapped;
      }
    }
    allFilesToCompare := AppendUncovered(allFilesToCompare, files2, files1NewNames);
  }

  /** The `files1_mapped` loop: each range-1 path with its range-2 name, in order. */
  method MapFiles(files1: seq<string>, renameMap: map<string, string>) returns (files1Mapped: seq<FilePair>)
    ensures files1Mapped == MappedPairs(files1, renameMap)
  {
    files1Mapped := [];
    for i := 0 to |files1|
      invariant files1Mapped == MappedPairs(files1[..i], renameMap)
    {
      var f := files1[i];
      if f in renameMap {
        files1Mapped := files1Mapped + [FilePair(f, renameMap[f])];
      } else {
        files1Mapped := files1Mapped + [FilePair(f, f)];
      }
    }
    assert files1[..|files1|] == files1;
  }

  /** The loop over range 2: appends each path that `newNames` does not cover, paired with itself. */
  method AppendUncovered(pairs: seq<FilePair>, files2: seq<string>, newNames: set<string>)
    returns (extended: seq<FilePair>)
    ensures extended == pairs + SelfPairs(Unmatched(files2, newNames))
  {
    extended := pairs;
    for i := 0 to |files2|
      invariant extended == pairs + SelfPairs(Unmatched(files2[..i], newNames))
    {
      var f2 := files2[i];
      assert files2[..i + 1][..i] == files2[..i];
      if f2 !in newNames {
        extended := extended + [FilePair(f2, f2)];
      }
    }
    assert files2[..|files2|] == files2;
  }

  /** The list starts with one pair per range-1 path, in range-1 order, carrying its mapped name. */
  lemma PairsBeginWithFiles1(files1: seq<string>, files2: seq<string>, renameMap: map<string, string>)
    ensures var pairs := ComparisonPairs(files1, files2, renameMap);
      && |files1| <= |pairs|
      && forall i :: 0 <= i < |files1| ==>
           pairs[i] == if files1[i] in renameMap then FilePair(files1[i], renameMap[files1[i]])
                       else FilePair(files1[i], files1[i])
  {
  }

  /** After the range-1 pairs come only self-pairs of range-2 paths, in range-2 order. */
  lemma AppendedPairsFollowFiles2(files1: seq<string>, files2: seq<string>, renameMap: map<string, string>)
    ensures var appended := ComparisonPairs(files1, files2, renameMap)[|files1|..];
      && (forall k :: 0 <= k < |appended| ==> appended[k].oldPath == appended[k].newPath)
      && IsSubsequence(OldPaths(appended), files2)
  {
    var newNames := NewNames(files1, renameMap);
    var appended := ComparisonPairs(files1, files2, renameMap)[|files1|..];
    assert appended == SelfPairs(Unmatched(files2, newNames));
    assert OldPaths(appended) == Unmatched(files2, newNames);
    FilterIsSubsequence(files2, (f: string) => f !in newNames);
  }

  /**
   * A range-2 path is appended as a self-pair exactly when no range-1 pair has
   * it as its range-2 name.
   */
  lemma AppendedExactlyUncovered(files1: seq<string>, files2: seq<string>, renameMap: map<string, string>)
    ensures var appended := ComparisonPairs(files1, files2, renameMap)[|files1|..];
      forall f :: FilePair(f, f) in appended <==>
        f in files2 && forall i :: 0 <= i < |files1| ==> MappedName(renameMap, files1[i]) != f
  {
    var newNames := NewNames(files1, renameMap);
    var left := Unmatched(files2, newNames);
    var appended := ComparisonPairs(files1, files2, renameMap)[|files1|..];
    assert appended == SelfPairs(left);
    forall f
      ensures FilePair(f, f) in appended <==> f in files2 && f !in newNames
    {
      if FilePair(f, f) in appended {
        var k :| 0 <= k < |appended| && appended[k] == FilePair(f, f);
        assert left[k] == f;
      }
      if f in files2 && f !in newNames {
        var j :| 0 <= j < |files2| && files2[j] == f;
        assert f in left;
        var k :| 0 <= k < |left| && left[k] == f;
        assert appended[k] == FilePair(f, f);
      }
    }
    forall f ensures f in newNames <==> exists i :: 0 <= i < |files1| && MappedName(renameMap, files1[i]) == f {
      if f in newNames {
        var g :| g in files1 && MappedName(renameMap, g) == f;
        var i :| 0 <= i < |files1| && files1[i] == g;
      }
    }
  }

  /**
   * Coverage: every range-1 path is the first component of some pair and every
   * range-2 path the second component of some pair.
   */
  lemma PairsCoverBothRanges(files1: seq<string>, files2: seq<string>, renameMap: map<string, string>)
    ensures var pairs := ComparisonPairs(files1, files2, renameMap);
      && (forall f :: f in files1 ==> exists k :: 0 <= k < |pairs| && pairs[k].oldPath == f)
      && (forall f :: f in files2 ==> exists k :: 0 <= k < |pairs| && pairs[k].newPath == f)
  {
    var pairs := ComparisonPairs(files1, files2, renameMap);
    var newNames := NewNames(files1, renameMap);
    var left := Unmatched(files2, newNames);
    forall f | f in files1 ensures exists k :: 0 <= k < |pairs| && pairs[k].oldPath == f {
      var i :| 0 <= i < |files1| && files1[i] == f;
      assert pairs[i].oldPath == f;
    }
    forall f | f in files2 ensures exists k :: 0 <= k < |pairs| && pairs[k].newPath == f {
      if f in newNames {
        var g :| g in files1 && MappedName(renameMap, g) == f;
        var i :| 0 <= i < |files1| && files1[i] == g;
        assert pairs[i].newPath == f;
      } else {
        var j :| 0 <= j < |files2| && files2[j] == f;
        assert f in left;
        var k :| 0 <= k < |left| && left[k] == f;
        assert pairs[|files1| + k].newPath == f;
      }
    }
  }

  /** With no path listed twice in either range, no pair is listed twice. */
  lemma PairsDistinct(files1: seq<string>, files2: seq<string>, renameMap: map<string, string>)
    requires Distinct(files1) && Distinct(files2)
    ensures Distinct(ComparisonPairs(files1, files2, renameMap))
  {
    var pairs := ComparisonPairs(files1, files2, renameMap);
    var newNames := NewNames(files1, renameMap);
    var left := Unmatched(files2, newNames);
    FilterDistinct(files2, (f: string) => f !in newNames);
    forall i, j | 0 <= i < j < |pairs| ensures pairs[i] != pairs[j] {
      if j < |files1| {
        assert pairs[i].oldPath == files1[i] && pairs[j].oldPath == files1[j];
      } else if i >= |files1| {
        assert pairs[i].oldPath == left[i - |files1|] && pairs[j].oldPath == left[j - |files1|];
      } else {
        assert pairs[i].newPath in newNames;
        assert left[j - |files1|] in left;
      }
    }
  }

  // ----- fetching -----

  /**
   * `fetch_diffs` for one pair, with git abstracted as the two ranges' patch of
   * a path. The result is tagged with the pair it was submitted for, and holds
   * range 1's patch of the old path and range 2's patch of the new path.
   */
  function FetchDiffs(pair: FilePair, patch1: string -> string, patch2: string -> string)
    : (result: (FilePair, string, string))
    ensures result.0 == pair
    ensures result.1 == patch1(pair.oldPath) && result.2 == patch2(pair.newPath)
  {
    (pair, patch1(pair.oldPath), patch2(pair.newPath))
  }

  /** `file_diffs` once every submitted fetch has completed. */
  function FileDiffs(pairs: seq<FilePair>, patch1: string -> string, patch2: string -> string)
    : map<FilePair, (string, string)>
  {
    map p | p in pairs :: (FetchDiffs(p, patch1, patch2).1, FetchDiffs(p, patch1, patch2).2)
  }

  /**
   * The `as_completed` loop: the fetches finish in any order `completed` that
   * is a rearrangement of the submitted pairs, and each result is stored under
   * its pair. The map does not depend on that order.
   */
  method CollectFileDiffs(pairs: seq<FilePair>, completed: seq<FilePair>,
                          patch1: string -> string, patch2: string -> string)
    returns (fileDiffs: map<FilePair, (string, string)>)
    requires multiset(completed) == multiset(pairs)
    ensures fileDiffs == FileDiffs(pairs, patch1, patch2)
  {
    fileDiffs := map[];
    for i := 0 to |completed|
      invariant fileDiffs == FileDiffs(completed[..i], patch1, patch2)
    {
      var (filePair, diff1, diff2) := FetchDiffs(completed[i], patch1, patch2);
      assert completed[..i + 1] == completed[..i] + [filePair];
      fileDiffs := fileDiffs[filePair := (diff1, diff2)];
    }
    assert completed[..|completed|] == completed;
    assert forall p :: p in completed <==> p in pairs by {
      forall p ensures p in completed <==> p in pairs {
        assert p in completed <==> p in multiset(completed);
        assert p in pairs <==> p in multiset(pairs);
      }
    }
  }

  // ----- selecting the differing files -----

  /** The two patches of a pair still differ once normalised. */
  predicate PatchesDiffer(diffs: (string, string)) {
    Normalize(diffs.0) != Normalize(diffs.1)
  }

  /** The pairs, in pair order, whose normalised patches differ. */
  function DifferingPairs(pairs: seq<FilePair>, fileDiffs: map<FilePair, (string, string)>): seq<FilePair> {
    Filter(pairs, (p: FilePair) => p in fileDiffs && PatchesDiffer(fileDiffs[p]))
  }

  /**
   * How a differing file is reported: `old → new` for a pair of two names, the
   * one name otherwise. The name starts with the old path and ends with the new
   * one, and is the bare old path exactly when the two paths are the same.
   */
  function DisplayName(pair: FilePair): (name: string)
    ensures PyText.StartsWith(name, pair.oldPath)
    ensures |pair.newPath| <= |name| && name[|name| - |pair.newPath|..] == pair.newPath
    ensures name == pair.oldPath <==> pair.oldPath == pair.newPath
  {
    if pair.oldPath != pair.newPath then
      var name := pair.oldPath + " \U{2192} " + pair.newPath;
      assert name[..|pair.oldPath|] == pair.oldPath;
      assert name[|name| - |pair.newPath|..] == pair.newPath;
      name
    else pair.oldPath
  }

  /** The display names of a list of pairs. */
  function DisplayNames(pairs: seq<FilePair>): seq<string> {
    seq(|pairs|, i requires 0 <= i < |pairs| => DisplayName(pairs[i]))
  }

  /** One differing file's part of the full output: its display name and its rendered diff of diffs. */
  datatype FileSection = FileSection(name: string, lines: seq<Colour.StyledLine>)

  /**
   * The unified diff of two patches' lines, as `difflib.unified_diff` gives it
   * for a pair (whose paths and ranges label its header lines).
   */
  type UnifiedDiff = (FilePair, seq<string>, seq<string>) -> seq<string>

  /**
   * The section shown for a differing pair: the unified diff of the lines of
   * its two raw (not normalised) patches, rendered line by line.
   */
  function Section(pair: FilePair, diffs: (string, string), unifiedDiff: UnifiedDiff, useColor: bool): FileSection {
    FileSection(DisplayName(pair),
                Colour.Styled(unifiedDiff(pair, PyText.SplitLines(diffs.0), PyText.SplitLines(diffs.1)), useColor))
  }

  /** The sections of the given pairs, in order. */
  function Sections(pairs: seq<FilePair>, fileDiffs: map<FilePair, (string, string)>,
                    unifiedDiff: UnifiedDiff, useColor: bool): seq<FileSection>
    requires forall p :: p in pairs ==> p in fileDiffs
  {
    seq(|pairs|, i requires 0 <= i < |pairs| => Section(pairs[i], fileDiffs[pairs[i]], unifiedDiff, useColor))
  }

  /**
   * The "process results in order" loop: normalise both patches of each pair,
   * keep the differing ones and, unless quiet, render each one's diff of diffs.
   */
  method SelectDifferentFiles(allFilesToCompare: seq<FilePair>, fileDiffs: map<FilePair, (string, string)>,
                              unifiedDiff: UnifiedDiff, quiet: bool, useColor: bool)
    returns (differentFiles: seq<string>, sections: seq<FileSection>)
    requires forall p :: p in allFilesToCompare ==> p in fileDiffs
    ensures differentFiles == DisplayNames(DifferingPairs(allFilesToCompare, fileDiffs))
    ensures sections == if quiet then [] else Sections(DifferingPairs(allFilesToCompare, fileDiffs), fileDiffs, unifiedDiff, useColor)
  {
    differentFiles := [];
    sections := [];
    ghost var kept: seq<FilePair> := [];
    for i := 0 to |allFilesToCompare|
      invariant kept == DifferingPairs(allFilesToCompare[..i], fileDiffs)
      invariant forall p :: p in kept ==> p in fileDiffs
      invariant differentFiles == DisplayNames(kept)
      invariant sections == if quiet then [] else Sections(kept, fileDiffs, unifiedDiff, useColor)
    {
      var pair := allFilesToCompare[i];
      DifferingPairsStep(allFilesToCompare, i, fileDiffs);
      SectionsAppend(kept, pair, fileDiffs, unifiedDiff, useColor);
      DisplayNamesAppend(kept, pair);
      var differ;
      differ, differentFiles, sections := SelectStep(pair, fileDiffs[pair], unifiedDiff, quiet, useColor, differentFiles, sections);
      if differ {
        kept := kept + [pair];
      }
    }
    assert allFilesToCompare[..|allFilesToCompare|] == allFilesToCompare;
  }

  /**
   * One pass of the loop: when the pair's normalised patches differ, its
   * display name is listed and, unless quiet, its section is rendered.
   */
  method SelectStep(pair: FilePair, diffs: (string, string), unifiedDiff: UnifiedDiff, quiet: bool, useColor: bool,
                    differentFiles: seq<string>, sections: seq<FileSection>)
    returns (differ: bool, differentFiles': seq<string>, sections': seq<FileSection>)
    ensures differ == PatchesDiffer(diffs)
    ensures differentFiles' == differentFiles + (if differ then [DisplayName(pair)] else [])
    ensures sections' == sections + (if differ && !quiet then [Section(pair, diffs, unifiedDiff, useColor)] else [])
  {
    var (diff1, diff2) := diffs;
    var normDiff1 := NormalizeDiff(diff1);
    var normDiff2 := NormalizeDiff(diff2);
    differ := normDiff1 != normDiff2;
    differentFiles', sections' := differentFiles, sections;
    if differ {
      differentFiles' := differentFiles' + [DisplayName(pair)];
      if !quiet {
        var section := RenderSection(pair, diff1, diff2, unifiedDiff, useColor);
        sections' := sections' + [section];
      }
    }
  }

  /** Renders the section of one differing pair from its two raw patches. */
  method RenderSection(pair: FilePair, diff1: string, diff2: string, unifiedDiff: UnifiedDiff, useColor: bool)
    returns (section: FileSection)
    ensures section == Section(pair, (diff1, diff2), unifiedDiff, useColor)
  {
    var diffLines := unifiedDiff(pair, PyText.SplitLines(diff1), PyText.SplitLines(diff2));
    var rendered := Colour.RenderDiffOfDiffs(diffLines, useColor);
    section := FileSection(DisplayName(pair), rendered);
  }

  /** Selecting from one more pair adds that pair exactly when its patches differ. */
  lemma DifferingPairsStep(pairs: seq<FilePair>, i: nat, fileDiffs: map<FilePair, (string, string)>)
    requires i < |pairs|
    ensures DifferingPairs(pairs[..i + 1], fileDiffs)
            == DifferingPairs(pairs[..i], fileDiffs)
               + (if pairs[i] in fileDiffs && PatchesDiffer(fileDiffs[pairs[i]]) then [pairs[i]] else [])
  {
    assert pairs[..i + 1][..i] == pairs[..i];
  }

  /** The sections of one more pair are those of the others followed by its own. */
  lemma SectionsAppend(pairs: seq<FilePair>, pair: FilePair, fileDiffs: map<FilePair, (string, string)>,
                       unifiedDiff: UnifiedDiff, useColor: bool)
    requires forall p :: p in pairs ==> p in fileDiffs
    requires pair in fileDiffs
    ensures forall p :: p in pairs + [pair] ==> p in fileDiffs
    ensures Sections(pairs + [pair], fileDiffs, unifiedDiff, useColor)
            == Sections(pairs, fileDiffs, unifiedDiff, useColor) + [Section(pair, fileDiffs[pair], unifiedDiff, useColor)]
  {
    var longer := pairs + [pair];
    assert forall i :: 0 <= i < |pairs| ==> longer[i] == pairs[i];
    assert longer[|pairs|] == pair;
  }

  /** The display names of one more pair are those of the others followed by its own. */
  lemma DisplayNamesAppend(pairs: seq<FilePair>, pair: FilePair)
    ensures DisplayNames(pairs + [pair]) == DisplayNames(pairs) + [DisplayName(pair)]
  {
  }

  /**
   * The selected pairs are exactly the listed pairs whose normalised patches
   * differ, kept in pair order.
   */
  lemma DifferingPairsSpec(pairs: seq<FilePair>, fileDiffs: map<FilePair, (string, string)>)
    requires forall p :: p in pairs ==> p in fileDiffs
    ensures forall p :: p in DifferingPairs(pairs, fileDiffs) <==> p in pairs && PatchesDiffer(fileDiffs[p])
    ensures IsSubsequence(DifferingPairs(pairs, fileDiffs), pairs)
  {
    var keep := (p: FilePair) => p in fileDiffs && PatchesDiffer(fileDiffs[p]);
    FilterIsSubsequence(pairs, keep);
    forall p ensures p in DifferingPairs(pairs, fileDiffs) <==> p in pairs && PatchesDiffer(fileDiffs[p]) {
      if p in pairs && PatchesDiffer(fileDiffs[p]) {
        var i :| 0 <= i < |pairs| && pairs[i] == p;
        assert keep(pairs[i]);
      }
    }
  }

  /**
   * The selection depends only on whether each listed pair's patches differ:
   * fetch maps that agree on that select the same pairs.
   */
  lemma {:induction false} DifferingPairsDependOnlyOnListedPairs(pairs: seq<FilePair>,
      fileDiffs1: map<FilePair, (string, string)>, fileDiffs2: map<FilePair, (string, string)>)
    requires forall p :: p in pairs ==> p in fileDiffs1 && p in fileDiffs2
    requires forall p :: p in pairs ==> PatchesDiffer(fileDiffs1[p]) == PatchesDiffer(fileDiffs2[p])
    ensures DifferingPairs(pairs, fileDiffs1) == DifferingPairs(pairs, fileDiffs2)
  {
    if pairs != [] {
      var init := pairs[..|pairs| - 1];
      assert forall p :: p in init ==> p in pairs;
      DifferingPairsDependOnlyOnListedPairs(init, fileDiffs1, fileDiffs2);
    }
  }

  // ----- the report -----

  /** The closing message: no differences, or how many files differ. */
  datatype Summary = NoDifferences | DifferentPatches(count: nat)

  /** What `patch()` reports after the comparison: the quiet-mode file list and the closing message. */
  datatype Report = Report(listed: seq<string>, summary: Summary)

  /**
   * The report for the given differing files: "no differences" exactly when
   * there are none, otherwise their number; the closing file list only when quiet.
   */
  function PatchReport(quiet: bool, differentFiles: seq<string>): (report: Report)
    ensures report.summary == NoDifferences <==> differentFiles == []
    ensures report.summary.DifferentPatches? ==> report.summary.count == |differentFiles| > 0
    ensures quiet ==> report.listed == differentFiles
    ensures !quiet ==> report.listed == []
  {
    Report(if quiet then differentFiles else [],
           if differentFiles == [] then NoDifferences else DifferentPatches(|differentFiles|))
  }

  /**
   * The `patch` command without its I/O: reconcile the file lists, fetch every
   * pair's patches (finishing in an arbitrary order), select the differing
   * pairs, render their diffs of diffs unless quiet, and report. "No
   * differences" is reported exactly when every pair's normalised patches
   * agree; otherwise the count is that of the differing pairs. The rendered
   * diffs compare the raw patches, index lines included.
   */
  method ComparePatches(files1: seq<string>, files2: seq<string>, renameMap: map<string, string>,
                        patch1: string -> string, patch2: string -> string,
                        unifiedDiff: UnifiedDiff, quiet: bool, useColor: bool)
    returns (sections: seq<FileSection>, report: Report)
    ensures var pairs := ComparisonPairs(files1, files2, renameMap);
      report == PatchReport(quiet, DisplayNames(DifferingPairs(pairs, FileDiffs(pairs, patch1, patch2))))
    ensures report.summary == NoDifferences <==>
      forall p :: p in ComparisonPairs(files1, files2, renameMap) ==>
        Normalize(patch1(p.oldPath)) == Normalize(patch2(p.newPath))
    ensures quiet ==> sections == []
    ensures var differing := DifferingPairs(ComparisonPairs(files1, files2, renameMap),
                                            FileDiffs(ComparisonPairs(files1, files2, renameMap), patch1, patch2));
      !quiet ==>
        |sections| == |differing| &&
        forall i :: 0 <= i < |differing| ==>
          sections[i].name == DisplayName(differing[i]) &&
          sections[i].lines == Colour.Styled(unifiedDiff(differing[i], PyText.SplitLines(patch1(differing[i].oldPath)),
                                                         PyText.SplitLines(patch2(differing[i].newPath))), useColor)
  {
    var allFilesToCompare := ReconcileFiles(files1, files2, renameMap);
    var completed :| multiset(completed) == multiset(allFilesToCompare);
    var fileDiffs := CollectFileDiffs(allFilesToCompare, completed, patch1, patch2);
    var differentFiles;
    differentFiles, sections := SelectDifferentFiles(allFilesToCompare, fileDiffs, unifiedDiff, quiet, useColor);
    report := PatchReport(quiet, differentFiles);
    NoDifferencesIff(allFilesToCompare, patch1, patch2);
    SectionsOfFetched(DifferingPairs(allFilesToCompare, fileDiffs), allFilesToCompare, patch1, patch2, unifiedDiff, useColor);
  }

  /** No pair is selected exactly when every pair's two patches normalise to the same text. */
  lemma NoDifferencesIff(pairs: seq<FilePair>, patch1: string -> string, patch2: string -> string)
    ensures DifferingPairs(pairs, FileDiffs(pairs, patch1, patch2)) == [] <==>
      forall p :: p in pairs ==> Normalize(patch1(p.oldPath)) == Normalize(patch2(p.newPath))
  {
    var fileDiffs := FileDiffs(pairs, patch1, patch2);
    DifferingPairsSpec(pairs, fileDiffs);
    var differing := DifferingPairs(pairs, fileDiffs);
    if differing != [] {
      assert differing[0] in differing;
    }
  }

  /** The sections of fetched pairs are rendered from the pairs' own two patches. */
  lemma SectionsOfFetched(selected: seq<FilePair>, pairs: seq<FilePair>, patch1: string -> string, patch2: string -> string,
                          unifiedDiff: UnifiedDiff, useColor: bool)
    requires forall p :: p in selected ==> p in pairs
    ensures forall p :: p in selected ==> p in FileDiffs(pairs, patch1, patch2)
    ensures var sections := Sections(selected, FileDiffs(pairs, patch1, patch2), unifiedDiff, useColor);
      |sections| == |selected| &&
      forall i :: 0 <= i < |selected| ==>
        sections[i].name == DisplayName(selected[i]) &&
        sections[i].lines == Colour.Styled(unifiedDiff(selected[i], PyText.SplitLines(patch1(selected[i].oldPath)),
                                                       PyText.SplitLines(patch2(selected[i].newPath))), useColor)
  {
  }

  // ----- scenarios -----

  /**
   * A file whose two patches differ only in their `index` lines is not
   * reported: blob-identifier churn is invisible to the comparison.
   */
  lemma IndexOnlyChangeNotReported(pair: FilePair, patch1: string -> string, patch2: string -> string)
    requires EqualUpToIndexLines(PyText.SplitLines(patch1(pair.oldPath)), PyText.SplitLines(patch2(pair.newPath)))
    ensures pair !in DifferingPairs([pair], FileDiffs([pair], patch1, patch2))
  {
    NormalizeIgnoresIndexLines(patch1(pair.oldPath), patch2(pair.newPath));
    DifferingPairsSpec([pair], FileDiffs([pair], patch1, patch2));
  }

  /**
   * A file renamed upstream is compared under its new name: with range 1
   * listing only `oldName`, range 2 only `newName` and `oldName` renamed to
   * `newName`, the one pair is `(oldName, newName)`.
   */
  lemma RenamedFilePairedUnderNewName(oldName: string, newName: string)
    ensures ComparisonPairs([oldName], [newName], map[oldName := newName]) == [FilePair(oldName, newName)]
  {
    var newNames := NewNames([oldName], map[oldName := newName]);
    assert MappedName(map[oldName := newName], oldName) == newName;
    assert oldName in [oldName];
    assert newName in newNames;
    assert [newName][..0] == [];
    assert Unmatched([newName], newNames) == Filter([], (f: string) => f !in newNames);
  }

  /**
   * When the fetch of both sides of a pair fails, both patches are empty and
   * the pair is reported as identical.
   */
  lemma BothFetchesFailedReportsIdentical(pair: FilePair, patch1: string -> string, patch2: string -> string)
    requires patch1(pair.oldPath) == "" && patch2(pair.newPath) == ""
    ensures DifferingPairs([pair], FileDiffs([pair], patch1, patch2)) == []
  {
    DifferingPairsSpec([pair], FileDiffs([pair], patch1, patch2));
  }
}
