# git-didi: a verified model of the diff-of-diffs core

git-didi compares two git ranges, for example a branch before and after a
rebase. It compares them by the patches they contain rather than by their
trees. Its `patch` command works in four steps:

1. Collect the changed files of each range.
2. Pair the files up, following upstream renames.
3. Fetch each file's patch in both ranges.
4. Report the files whose patches differ once the `index <sha>..<sha>` lines are set aside.

For each such file it prints a colourised "diff of diffs". Its `stat` command compares the
`--numstat` listings of the two ranges the same way.

This project models that decision logic in Dafny and proves what it promises:

- `wrappers.dfy`: `Option`.
- `py_text.dfy`: the Python string built-ins the code relies on, with their round trips proved. These are `startswith`, `splitlines` (with its full set of line boundaries, `\r\n` as one break), `split('\n')`, `strip()` and `'\n'.join`.
- `seqs.dfy`: order-preserving filtering, subsequences and distinctness.
- `diff.dfy`: `src/didi/diff.py`. It covers:
  - the `git diff` argument list;
  - the normalisation that hides blob identifiers;
  - the parsing of git's one-item-per-line output;
  - the `base..tip` refspec helpers as the tests describe them.
- `patch.dfy`: the comparison pipeline inside `patch()` in `src/didi/cli.py`. It covers:
  - reconciling the two file lists into ordered `(old, new)` pairs;
  - collecting the fetched patches whatever order the fetches finish in;
  - selecting the differing files;
  - unless quiet, one section per differing file: its display name and the styled unified diff of its two raw patches;
  - the closing summary.
- `colour.dfy`: the line styles of the diff-of-diffs output and of the `stat` output. This covers the outer and nested headers and the six nested `++ -- "+ " "- " +- -+` patterns with their 256-colour backgrounds. An independent colour key (shade by inner marker, hue by outer marker) is proved to agree with the first-match-wins classifier.

Methods follow the source's loops (appending to lists, building a set and a
dictionary) and are proved equal to specification functions. The lemmas
state what the program promises about those functions.

## Model

| member | source | states |
|---|---|---|
| Diff.BuildDiffCmd | src/didi/diff.py:7-23 | the command is `git diff` followed by the flags of the truthy options, as `DiffFlags` lists them |
| Diff.DiffFlagsPresence | src/didi/diff.py:15-22 | each flag is present iff its option is truthy, and the count is the number of truthy options |
| Diff.DiffFlagsOrder | src/didi/diff.py:14-23 | the flags appear in the order `--follow`, `-w`, `-M`, `-C` |
| Diff.NormalizeDiff | src/didi/diff.py:38-47 | the line loop computes `Normalize`: the `splitlines` lines, each `index ` line replaced by `index ...`, joined with `\n` |
| Diff.NormalizeLinesAt | src/didi/diff.py:40-46 | the line count is kept; line i becomes `index ...` if it starts with `index `, otherwise it is unchanged |
| Diff.NormalizeLinesEqualIff | src/didi/diff.py:41-46 | two line sequences normalise equal iff they have the same length and agree on every line that is not an `index ` line on both sides |
| Diff.NormalizeLinesEqualUpToIndexLines | src/didi/diff.py:43-44 | sequences that differ only on lines that both start with `index ` normalise equal |
| Diff.NormalizeLinesEqualOnlyUpToIndexLines | src/didi/diff.py:43-46 | equal normalisations imply the inputs differ only on shared `index ` lines |
| Diff.NormalizeIgnoresIndexLines | src/didi/diff.py:38-47 | texts whose lines differ only on `index ` lines normalise to the same string |
| Diff.NormalizeLinesIdempotent | src/didi/diff.py:41-46 | normalising the lines twice is the same as once |
| Diff.NormalizeIdempotent | src/didi/diff.py:38-47 | normalising a text twice is the same as once, when its last line is not empty |
| Diff.NormalizeDropsBlankLastLine | src/didi/diff.py:41-47 | for any plain line, `line + "\n\n"` normalises to `line + "\n"` and then to `line`, so string-level idempotence needs a non-empty last line |
| Diff.NormalizeKeepsPlainText | src/didi/diff.py:38-47 | a text with only `\n` breaks, no trailing newline and no `index ` line is returned unchanged |
| Diff.NormalizeUnifiesLineEndings | src/didi/diff.py:41-47 | any line, the empty one included, ended by `\r\n` normalises the same as when ended by `\n`, to the normalised line without its terminator |
| Diff.ChangedFiles | src/didi/diff.py:26-35 | no list iff git failed; every listed path is non-empty |
| Diff.Commits | src/didi/diff.py:65-71 | an empty list when git failed; every listed commit is non-empty |
| Diff.OutputLines | src/didi/diff.py:35 | every line kept from git's output is non-empty and free of `\n` |
| Diff.OutputLinesSpec | src/didi/diff.py:35 | the result is a subsequence of the `\n`-parts of the stripped output that holds every non-empty part as often as it occurs there and no empty part; the `\n`-parts joined with `\n` give back the stripped output |
| Seqs.FilterMultiset | src/didi/diff.py:35 | filtering keeps every element the test accepts as often as it occurs, and drops every other element |
| Diff.OutputLinesOfListing | src/didi/diff.py:35 | a listing of non-empty paths, one per line with a final newline, parses back to exactly those paths |
| Diff.ParseRangeSpec | tests/test_diff.py:82-94 | a specifier is split iff it contains `..`; the two halves put back together with `..` give the specifier, and the base holds no `..` |
| Diff.ParseRefspecBases | tests/test_diff.py:82-94 | when both specifiers are ranges, the four parts rebuild them with `..` and the bases hold no `..`; otherwise four empty strings |
| Diff.ComputeUpstreamRange | tests/test_diff.py:97-106 | the upstream range is empty iff one specifier is not a range; otherwise it is the first base, `..`, the second base |
| Diff.RangeSpecEmptyHalves | tests/test_diff.py:82-106 | `..B` splits into an empty base and `B`, `A..` into `A` and an empty tip, and `A..` against `..D` gives the upstream range `A..` |
| Diff.RangeSpecThreeDots | tests/test_diff.py:82-94 | `A...B` splits at its first `..` into `A` and `.B` |
| Diff.ParseRangeSpecOfRange | tests/test_diff.py:82-88 | `base..tip` with a dot-free base parses to `(base, tip)` |
| Diff.RefspecsOfRanges | tests/test_diff.py:82-100 | two ranges give their four bases and tips, and the upstream range `base1..base2` |
| Diff.RefspecsWithoutRange | tests/test_diff.py:91-106 | a specifier without `..` yields four empty strings and an empty upstream range |
| Diff.ParseRefspecBasesExamples | tests/test_diff.py:82-94 | `('A..B','C..D')` gives `('A','B','C','D')`; `('A','B')` gives four empty strings |
| Diff.ComputeUpstreamRangeExamples | tests/test_diff.py:97-106 | `main..feature` against `upstream/main..feature-rebased` gives `main..upstream/main`; non-ranges give `''` |
| Diff.DotFreeIsRevisionName | tests/test_diff.py:97-100 | a name without dots can be the base of a range |
| PyText.SplitLinesOfJoin | src/didi/diff.py:41-47 | `splitlines` recovers lines joined with `\n`, when none contains a line boundary and the last is not empty |
| PyText.JoinOfSplitLines | src/didi/diff.py:41-47 | joining `splitlines` with `\n` gives back a text whose only breaks are `\n` and which has no trailing newline |
| PyText.SplitOnOfJoin | src/didi/diff.py:35 | `split('\n')` recovers parts joined with `\n` |
| Patch.ReconcileFiles | src/didi/cli.py:214-230 | the three loops build `ComparisonPairs`: the mapped range-1 pairs, then self-pairs of the range-2 paths not already covered |
| Patch.MapFiles | src/didi/cli.py:214-219 | the `files1_mapped` loop pairs each range-1 path with its renamed name, or with itself, in order |
| Patch.AppendUncovered | src/didi/cli.py:227-230 | the range-2 loop appends, in order, a self-pair for each path not among the covered names |
| Patch.PairsBeginWithFiles1 | src/didi/cli.py:214-224 | the list starts with one pair per range-1 path in order: `(f, rename_map[f])` for a renamed path, `(f, f)` otherwise |
| Patch.AppendedPairsFollowFiles2 | src/didi/cli.py:227-230 | everything after the range-1 pairs is a self-pair, in range-2 order |
| Patch.AppendedExactlyUncovered | src/didi/cli.py:227-230 | `(f, f)` is appended iff `f` is a range-2 path that is no range-1 pair's new name |
| Patch.PairsCoverBothRanges | src/didi/cli.py:214-230 | every range-1 path is some pair's old path and every range-2 path some pair's new path |
| Patch.PairsDistinct | src/didi/cli.py:214-230 | duplicate-free file lists give a duplicate-free pair list |
| Patch.CollectFileDiffs | src/didi/cli.py:238-244 | whatever order the fetches complete in, the dictionary maps each pair to its two fetched patches |
| Patch.FetchDiffs | src/didi/cli.py:233-236 | the result is tagged with the pair it was fetched for, and holds the old path's patch in range 1 and the new path's patch in range 2 |
| Patch.DisplayName | src/didi/cli.py:257 | the name starts with the old path and ends with the new path; it is just the old path iff both paths are the same |
| Patch.SelectDifferentFiles | src/didi/cli.py:246-363 | the names of the pairs whose normalised patches differ, in pair order; unless quiet, one section per such pair, in the same order, rendered from its raw patches; none when quiet |
| Patch.SelectStep | src/didi/cli.py:248-363 | one pair is selected iff its normalised patches differ; a selected pair adds its name and, unless quiet, its section |
| Patch.RenderSection | src/didi/cli.py:262-363 | a section is the display name with the styled lines of the unified diff of the two raw patches' `splitlines` |
| Patch.DifferingPairsSpec | src/didi/cli.py:248-258 | a pair is selected iff it is listed and its normalised patches differ; the selection keeps pair order |
| Patch.DifferingPairsDependOnlyOnListedPairs | src/didi/cli.py:247-258 | the selection depends only on whether each listed pair differs |
| Patch.PatchReport | src/didi/cli.py:365-373 | "no differences" iff no file differs, otherwise the count of differing files; the files are listed again at the end iff quiet |
| Patch.NoDifferencesIff | src/didi/cli.py:246-255 | no pair is selected iff every pair's two patches normalise to the same text |
| Patch.ComparePatches | src/didi/cli.py:209-373 | the report is the one for the differing pairs; "no differences" is reported iff every pair's normalised patches are equal; quiet prints no sections; otherwise section i names differing pair i and holds the styled unified diff of that pair's two raw patches |
| Patch.IndexOnlyChangeNotReported | src/didi/cli.py:252-255 | a file whose patches differ only in `index` lines is not reported |
| Patch.RenamedFilePairedUnderNewName | src/didi/cli.py:214-230 | a file renamed upstream is compared under its new name and not again on its own |
| Patch.BothFetchesFailedReportsIdentical | src/didi/cli.py:233-255 | a file with two empty patches is not reported |
| Colour.ClassifyPatchLine | src/didi/cli.py:276-361 | colour off gives plain lines; a line gets one foreground colour only when it is header-like; nested styling only for `+`/`-` lines of two or more characters that are not header-like |
| Colour.NestedStyle | src/didi/cli.py:307-354 | bold iff the two markers are equal; each marker gets its own background; the rest gets the key's background for the outer marker and the shade of the inner one |
| Colour.Styled | src/didi/cli.py:275-363 | one styled line per diff line, with its text unchanged and the classifier's style |
| Colour.StatStyle | src/didi/cli.py:155-165 | plain iff colour is off or the line does not start with `+`, `-` or `@`; otherwise green, red or cyan by that first character |
| Colour.RenderDiffOfDiffs | src/didi/cli.py:275-363 | the loop emits exactly `Styled`: every line with its text unchanged, in the style the classifier gives it |
| Colour.PrefixBackgrounds | src/didi/cli.py:311-319 | one background per marker character: 28 for `+`, 161 for `-`, 0 otherwise |
| Colour.RenderStat | src/didi/cli.py:152-168 | every line is emitted unchanged in its stat style; changes are reported iff the diff has a line |
| Colour.ForegroundExactlyForHeaders | src/didi/cli.py:279-298 | with colour on, a line is written in one foreground colour iff it starts with an outer header or nested metadata prefix |
| Colour.ForegroundFollowsFirstChar | src/didi/cli.py:279-298 | that colour is red for a leading `-`, green for `+`, cyan for `@` |
| Colour.NestedFollowsKey | src/didi/cli.py:307-354 | other `+`/`-` lines of two or more characters are bold iff the two markers are equal; each marker gets its own background; the rest gets the key's background (bright for a doubled marker, very dark after a space, dark otherwise; green under `+`, red under `-`) |
| Colour.PlainIff | src/didi/cli.py:275-363 | a line is written plain iff colour is off, or it is not header-like and is shorter than two characters or does not start with `+`/`-` |
| Colour.StatAgreesWithPatch | src/didi/cli.py:155-165 | the stat colour of a line is the hue the patch view gives it |
| Colour.SwatchesMatchClassifier | src/didi/cli.py:397-425 | the six swatch patterns, followed by any rest that does not start with `+` or `-`, get exactly the codes the swatches show |
| Colour.HeaderRulesShadowNestedLines | src/didi/cli.py:279-336 | for every rest not starting with `-`, `---` + rest is drawn as an outer header in red even though its markers are `--`, while `--` + rest is drawn bold on bright red |

## Left out

- Running git: `subprocess.run` in `get_changed_files`, `get_file_diff`, `get_commits`, `stat` and `commits` is I/O. Its exit code and stdout are parameters, and a file's patch in each range is a function from path to text. The command lines those calls add after `build_diff_cmd` are not modelled. A failed `get_changed_files` is modelled as `None`, which stands for the process exit; the error message it prints is not modelled.
- `ThreadPoolExecutor`/`as_completed` concurrency: the completion order is any permutation of the pairs.
- `difflib.unified_diff` is a library algorithm. It is a parameter (`Patch.UnifiedDiff`) given the pair and the `splitlines` of the two raw patches; the file labels it receives are taken as determined by the pair. As at `src/didi/cli.py:267-269`, the diff shown is of the raw patches, not the normalised ones, so `index` lines still show in it.
- Terminal output: ANSI escape strings, `echo`, `click.style`, `print`, the `=` banners and the `File:` headings. A line's style is modelled as a class with its colour codes.
- `src/didi/pager.py`, `src/didi/color.py` and `src/didi/commands/shell_integration.py`: environment, tty and pager handling.
- Rename detection: `get_rename_mapping` is not part of this model, so the rename map is an input. `src/didi/cli.py:252` passes `rename_map` to `normalize_diff`, but `src/didi/diff.py:38` takes only the text. The model normalises both patches with that one-argument definition, so no rename-path substitution is modelled.
- `parse_refspec_bases` and `compute_upstream_range` are imported by the CLI, but their bodies are not part of this model. Diff.ParseRangeSpec, Diff.ParseRefspecBases, Diff.ComputeUpstreamRange, Diff.ParseRangeSpecOfRange, Diff.RefspecsOfRanges and Diff.RefspecsWithoutRange therefore describe a chosen definition, not the unseen code: split at the first `..`, which must succeed for both specifiers. That definition accepts an empty base or tip and reads `A...B` as `A` and `.B` (Diff.RangeSpecEmptyHalves, Diff.RangeSpecThreeDots); only the cases in `tests/test_diff.py:82-106` are known to match the program.
- Diff.NormalizeIdempotent: idempotence at string level requires the last line to be non-empty. The `'\n'.join` drops a trailing newline, so `"a\n\n"` becomes `"a\n"` and then changes again on a second pass (`Diff.NormalizeDropsBlankLastLine`). Idempotence over line sequences holds unconditionally (`Diff.NormalizeLinesIdempotent`).
- The `swatches` and `commits` commands, and the scenario-generating script, are not modelled beyond the swatch codes used as evidence.
